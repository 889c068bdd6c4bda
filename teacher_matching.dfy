/**
 * Teacher matching: the name normalisation that pairs a teacher named by
 * the school platform with a registered teacher, the test that links a
 * student to one of that teacher's groups, the table of detected teachers
 * that every student login feeds, and the guarded claim of a detected
 * identity. The database calls become parameters and values.
 */
module TeacherMatching {
  import opened Wrappers
  import opened Text
  import opened Collections
  import RealEcoleDirecte

  const UNKNOWN_ESTABLISHMENT := "unknown"
  const NOT_FOUND := "Enseignant non trouvé"
  const ALREADY_CLAIMED := "Cette identité a déjà été revendiquée"
  const VERIFICATION_FAILED := "Vérification échouée"
  const CLAIM_FAILED := "Erreur lors de la revendication"
  const SUBJECT_MISMATCH := "La matière ne correspond pas"
  const CLASS_MISMATCH := "La classe ne correspond pas"

  /** The titles `claimTeacherIdentity` strips from the display name: `^(M\.|Mme|Mlle)\s*`. */
  const CLAIM_TITLES: seq<string> := ["M.", "Mme", "Mlle"]

  // ---------------------------------------------------------------------
  // Names

  predicate IsAsciiLetter(c: char)
  {
    ('a' <= c <= 'z') || ('A' <= c <= 'Z')
  }

  /** The end of `s` matches `\s+[A-Z]\.?$` with the `i` flag: white space, one letter, maybe a dot. */
  predicate HasTrailingInitial(s: string)
  {
    var e := if |s| > 0 && s[|s| - 1] == '.' then |s| - 1 else |s|;
    e >= 2 && IsAsciiLetter(s[e - 1]) && IsSpace(s[e - 2])
  }

  /** `s.replace(/\s+[A-Z]\.?$/i, '')`: the initial goes with all the white space before it. */
  function DropTrailingInitial(s: string): (r: string)
    ensures |r| <= |s| && r == s[..|r|]
    ensures !HasTrailingInitial(s) ==> r == s
    ensures HasTrailingInitial(s) ==> |r| < |s| - 1 && (|r| == 0 || !IsSpace(r[|r| - 1]))
  {
    var e := if |s| > 0 && s[|s| - 1] == '.' then |s| - 1 else |s|;
    if HasTrailingInitial(s) then TrimEnd(s[..e - 1]) else s
  }

  /** `normalizeForMatching` with the given title alternatives. */
  function NormalizeWith(name: string, titles: seq<string>): (r: string)
    ensures name == "" ==> r == ""
    ensures Upper(r) == r
  {
    if name == "" then ""
    else
      var r := Upper(Trim(DropTrailingInitial(RealEcoleDirecte.StripTitle(name, titles))));
      UpperIdempotent(Trim(DropTrailingInitial(RealEcoleDirecte.StripTitle(name, titles))));
      r
  }

  /** `normalizeForMatching(name)` as written: `Mrs` is tried after `Mr` and never matches. */
  function NormalizeForMatchingAsWritten(name: string): (r: string)
    ensures name == "" ==> r == ""
    ensures Upper(r) == r
  {
    NormalizeWith(name, RealEcoleDirecte.TITLES_AS_WRITTEN)
  }

  /** `normalizeForMatching(name)` as intended, with every title able to match. */
  function NormalizeForMatching(name: string): (r: string)
    ensures name == "" ==> r == ""
    ensures Upper(r) == r
  {
    NormalizeWith(name, RealEcoleDirecte.TITLES)
  }

  /** The documented shape `"M. DUPONT P."`: the title and the initial go, the last name is upper-cased. */
  lemma TitleAndInitialDropped(last: string, initial: char, titles: seq<string>)
    requires titles == RealEcoleDirecte.TITLES || titles == RealEcoleDirecte.TITLES_AS_WRITTEN
    requires |last| > 0 && !IsSpace(last[0]) && !IsSpace(last[|last| - 1])
    requires IsAsciiLetter(initial)
    ensures NormalizeWith("M. " + last + " " + [initial] + ".", titles) == Upper(last)
  {
    var name := "M. " + last + " " + [initial] + ".";
    var rest := last + " " + [initial] + ".";
    assert RealEcoleDirecte.StripTitle(name, titles) == rest by {
      MisterStripped(rest, titles);
      MisterShape(last, initial);
    }
    assert DropTrailingInitial(rest) == last by {
      InitialDropped(last, initial);
    }
    assert Trim(last) == last by {
      TrimKeeps(last);
    }
    NormalizeSteps(name, titles, rest, last);
  }

  /** `normalizeForMatching` step by step. */
  lemma NormalizeSteps(name: string, titles: seq<string>, stripped: string, dropped: string)
    requires name != "" && RealEcoleDirecte.StripTitle(name, titles) == stripped
    requires DropTrailingInitial(stripped) == dropped && Trim(dropped) == dropped
    ensures NormalizeWith(name, titles) == Upper(dropped)
  {
  }

  lemma MisterShape(last: string, initial: char)
    ensures "M." + (" " + (last + " " + [initial] + ".")) == "M. " + last + " " + [initial] + "."
  {
    assert "M. " == "M." + " ";
  }

  /** `M.` followed by one space and a word is stripped by either title list. */
  lemma MisterStripped(rest: string, titles: seq<string>)
    requires titles == RealEcoleDirecte.TITLES || titles == RealEcoleDirecte.TITLES_AS_WRITTEN
    requires |rest| > 0 && !IsSpace(rest[0])
    ensures RealEcoleDirecte.StripTitle("M." + (" " + rest), titles) == rest
  {
    var name := "M." + (" " + rest);
    assert titles[0] == "M.";
    assert RealEcoleDirecte.StartsWithIgnoringCase(name, titles[0]);
    RealEcoleDirecte.TitleAt(name, titles, 0);
    assert name[2..] == " " + rest;
    RealEcoleDirecte.TrimOneSpace(rest);
  }

  /** A space, a letter and a dot at the end go, leaving the word before them. */
  lemma InitialDropped(last: string, initial: char)
    requires |last| > 0 && !IsSpace(last[|last| - 1])
    requires IsAsciiLetter(initial)
    ensures DropTrailingInitial(last + " " + [initial] + ".") == last
  {
    var rest := last + " " + [initial] + ".";
    assert HasTrailingInitial(rest);
    assert rest[..|rest| - 2] == last + " ";
    assert (last + " ")[..|last|] == last;
  }

  /**
   * The two spellings differ on `Mrs`: as written `"Mrs Li"` loses only its
   * `Mr` and normalises to `"S LI"`; with `Mrs` tried first it gives `"LI"`.
   */
  lemma MrsShadowedInMatching(last: string)
    requires PlainEnds(last)
    ensures NormalizeForMatchingAsWritten("Mrs " + last) == Upper("s " + last)
    ensures NormalizeForMatching("Mrs " + last) == Upper(last)
  {
    MrsStrippedAsWritten(last);
    NormalizedFrom("Mrs " + last, RealEcoleDirecte.TITLES_AS_WRITTEN, "s " + last);
    MrsStripped(last);
    NormalizedFrom("Mrs " + last, RealEcoleDirecte.TITLES, last);
  }

  lemma MrsStrippedAsWritten(last: string)
    requires PlainEnds(last)
    ensures RealEcoleDirecte.StripTitle("Mrs " + last, RealEcoleDirecte.TITLES_AS_WRITTEN) == "s " + last
    ensures PlainEnds("s " + last)
  {
    var rest := " " + last;
    assert "Mrs " + last == "Mrs" + rest;
    assert "s" + rest == "s " + last;
    RealEcoleDirecte.MrsAsWritten(rest);
  }

  lemma MrsStripped(last: string)
    requires PlainEnds(last)
    ensures RealEcoleDirecte.StripTitle("Mrs " + last, RealEcoleDirecte.TITLES) == last
  {
    var rest := " " + last;
    assert "Mrs " + last == RealEcoleDirecte.TITLES[4] + rest;
    RealEcoleDirecte.TitleStripped(4, rest);
    RealEcoleDirecte.TrimOneSpace(last);
  }

  /** A stripped name without initial nor surrounding blanks is only upper-cased. */
  lemma NormalizedFrom(name: string, titles: seq<string>, stripped: string)
    requires name != "" && RealEcoleDirecte.StripTitle(name, titles) == stripped
    requires PlainEnds(stripped)
    ensures NormalizeWith(name, titles) == Upper(stripped)
  {
    assert !HasTrailingInitial(stripped);
    TrimKeeps(stripped);
  }

  /** Neither blank nor an initial at either end. */
  predicate PlainEnds(s: string)
  {
    |s| > 1 && !IsSpace(s[0]) && !IsSpace(s[|s| - 1]) && s[|s| - 1] != '.' && !IsSpace(s[|s| - 2])
  }

  // ---------------------------------------------------------------------
  // Finding a registered teacher

  /** A row of the `users` table. */
  datatype UserRow = UserRow(id: string, name: string, edTeacherName: Option<string>)

  /** `normalizeForMatching(t.ed_teacher_name) === normalized`, a missing name counting as empty. */
  predicate ExactMatch(normalized: string, t: UserRow)
  {
    NormalizeForMatchingAsWritten(t.edTeacherName.GetOr("")) == normalized
  }

  /**
   * `findTeacherByName(teacherName)`; `query(normalized)` is the search of
   * the teachers table, `None` when it fails.
   */
  function FindTeacherByName(teacherName: string, query: string -> Option<seq<UserRow>>): (r: Option<UserRow>)
    ensures |NormalizeForMatchingAsWritten(teacherName)| < 2 ==> r.None?
    ensures r.Some? ==> (query(NormalizeForMatchingAsWritten(teacherName)).Some? &&
                         r.value in query(NormalizeForMatchingAsWritten(teacherName)).value)
  {
    FindNormalized(NormalizeForMatchingAsWritten(teacherName), query)
  }

  /** The lookup once the name is normalised. */
  function FindNormalized(normalized: string, query: string -> Option<seq<UserRow>>): (r: Option<UserRow>)
    ensures |normalized| < 2 ==> r.None?
    ensures r.Some? ==> query(normalized).Some? && r.value in query(normalized).value
  {
    if |normalized| < 2 then None
    else
      match query(normalized)
      case None => None
      case Some(rows) =>
        if |rows| == 0 then None
        else
          var i := FirstWhere(rows, (t: UserRow) => ExactMatch(normalized, t));
          if i < |rows| then Some(rows[i]) else Some(rows[0])
  }

  /** Among the rows found, the first exact match on the platform name wins; without one, the first row. */
  lemma FindPrefersExactMatch(normalized: string, query: string -> Option<seq<UserRow>>, rows: seq<UserRow>)
    requires |normalized| >= 2
    requires query(normalized) == Some(rows) && |rows| > 0
    ensures var r := FindNormalized(normalized, query);
      r.Some? &&
      ((exists i :: 0 <= i < |rows| && ExactMatch(normalized, rows[i])) ==>
         ExactMatch(normalized, r.value) &&
         exists i :: 0 <= i < |rows| && rows[i] == r.value && forall j :: 0 <= j < i ==> !ExactMatch(normalized, rows[j])) &&
      ((forall i :: 0 <= i < |rows| ==> !ExactMatch(normalized, rows[i])) ==> r.value == rows[0])
  {
    var i := FirstWhere(rows, (t: UserRow) => ExactMatch(normalized, t));
    assert forall j :: 0 <= j < i ==> !ExactMatch(normalized, rows[j]);
  }

  // ---------------------------------------------------------------------
  // Linking a student to a teacher's group

  /** A subject as the school platform lists it for a teacher: `{ name, code }`, `code` possibly undefined. */
  datatype Subject = Subject(name: string, code: Option<string>)

  /** The joined `subjects` row of a group membership; the database gives null for a missing column. */
  datatype SubjectRow = SubjectRow(name: Option<string>, code: Option<string>)

  /** A teacher's group membership with its joined group name and subject. */
  datatype TeacherGroup = TeacherGroup(groupId: string, subjectId: Option<string>, groupName: Option<string>,
                                       subject: Option<SubjectRow>)

  /**
   * `s.code === tg.subjects?.code || s.name.toUpperCase() === tg.subjects?.name?.toUpperCase()`.
   * A missing subject row gives `undefined`, which equals an undefined code.
   */
  predicate SubjectMatches(s: Subject, tg: TeacherGroup)
  {
    || (tg.subject.None? && s.code.None?)
    || (tg.subject.Some? && s.code.Some? && tg.subject.value.code == s.code)
    || (tg.subject.Some? && tg.subject.value.name.Some? && Upper(s.name) == Upper(tg.subject.value.name.value))
  }

  /** `!studentClass || tg.groups?.name?.toUpperCase().includes(studentClass.toUpperCase())`. */
  predicate ClassMatches(studentClass: string, tg: TeacherGroup)
  {
    studentClass == "" || (tg.groupName.Some? && Contains(Upper(tg.groupName.value), Upper(studentClass)))
  }

  /** `subjects.find(…)`: the first of the student's subjects the group teaches. */
  function MatchingSubject(subjects: seq<Subject>, tg: TeacherGroup): (r: Option<Subject>)
    ensures r.Some? <==> exists i :: 0 <= i < |subjects| && SubjectMatches(subjects[i], tg)
    ensures r.Some? ==> SubjectMatches(r.value, tg) && r.value in subjects
  {
    var i := FirstWhere(subjects, (s: Subject) => SubjectMatches(s, tg));
    if i < |subjects| then Some(subjects[i]) else None
  }

  /** The test `linkStudentToTeacher` makes before adding the student to a group. */
  predicate Links(subjects: seq<Subject>, studentClass: string, tg: TeacherGroup)
  {
    MatchingSubject(subjects, tg).Some? && ClassMatches(studentClass, tg)
  }

  /** A group links the student exactly when one subject matches and the class test passes. */
  lemma LinksIff(subjects: seq<Subject>, studentClass: string, tg: TeacherGroup)
    ensures Links(subjects, studentClass, tg) <==>
      (exists i :: 0 <= i < |subjects| && SubjectMatches(subjects[i], tg)) && ClassMatches(studentClass, tg)
  {
  }

  /** A subject without code matches a group without a subject row, whatever their names. */
  lemma UndefinedCodesMatch(name: string, tg: TeacherGroup)
    requires tg.subject.None?
    ensures SubjectMatches(Subject(name, None), tg)
  {
  }

  /** A group without a name never passes the class test once the student has a class. */
  lemma UnnamedGroupFailsClass(studentClass: string, tg: TeacherGroup)
    requires studentClass != "" && tg.groupName.None?
    ensures !ClassMatches(studentClass, tg)
  {
  }

  /** The class comparison ignores case on both sides. */
  lemma ClassMatchIgnoresCase(studentClass: string, tg: TeacherGroup)
    ensures ClassMatches(Lower(studentClass), tg) == ClassMatches(studentClass, tg)
  {
    UpperOfLower(studentClass);
  }

  // ---------------------------------------------------------------------
  // Detected teachers

  /** A row of the `detected_teachers` table. */
  datatype Detected = Detected(name: string, normalizedName: string, subjects: seq<Subject>, classes: seq<string>,
                               establishment: string, claimCount: int, claimedBy: Option<string>)

  /** A teacher as the school platform's teacher list gives it. */
  datatype EdTeacher = EdTeacher(name: string, subjects: seq<Subject>)

  /** The table, keyed by normalised name and establishment (the lookup `recordDetectedTeachers` makes). */
  type DetectedTable = map<(string, string), Detected>

  function NormalizedName(t: EdTeacher): string
  {
    Upper(t.name)
  }

  /** `establishment || 'unknown'`. */
  function EstablishmentOr(establishment: string): string
  {
    if establishment == "" then UNKNOWN_ESTABLISHMENT else establishment
  }

  /** Every class of the record is a distinct, non-empty name. */
  predicate CleanClasses(classes: seq<string>)
  {
    NoDuplicates(classes) && forall i :: 0 <= i < |classes| ==> classes[i] != ""
  }

  /** `[...new Set([...existing.classes, studentClass].filter(Boolean))]`. */
  function MergedClasses(classes: seq<string>, studentClass: string): (r: seq<string>)
    ensures CleanClasses(r)
    ensures forall c :: c in r <==> (c in classes && c != "") || (c == studentClass && c != "")
  {
    var kept := Filter(classes + [studentClass], (c: string) => c != "");
    DistinctMembers(kept);
    assert forall i :: 0 <= i < |Distinct(kept)| ==> Distinct(kept)[i] in kept;
    Distinct(kept)
  }

  /**
   * The subject merge as written: the stored subjects come back from the
   * database as objects, the new ones go in as JSON text, and the `Set`
   * then tells no stored subject apart from a new one.
   */
  function MergedSubjectsAsWritten(stored: seq<Subject>, seen: seq<Subject>): seq<Subject>
  {
    stored + Distinct(seen)
  }

  /** The merge the `Set` is meant to perform: each subject once, in order of first sighting. */
  function MergedSubjects(stored: seq<Subject>, seen: seq<Subject>): (r: seq<Subject>)
    ensures NoDuplicates(r)
    ensures forall s :: s in r <==> s in stored || s in seen
  {
    DistinctMembers(stored + seen);
    Distinct(stored + seen)
  }

  /** A subject already stored is listed twice by the merge as written, once by the intended one. */
  lemma SubjectDuplicated(s: Subject)
    ensures MergedSubjectsAsWritten([s], [s]) == [s, s]
    ensures !NoDuplicates(MergedSubjectsAsWritten([s], [s]))
    ensures MergedSubjects([s], [s]) == [s]
  {
    assert [s] + [s] == [s, s];
    assert Distinct([s]) == [s] by {
      assert [s][..0] == [];
    }
    assert [s, s][..1] == [s];
    DistinctSnoc([s], s);
  }

  /** One sighting of `teacher` by a student of `studentClass` at `establishment`. */
  function RecordOne(table: DetectedTable, teacher: EdTeacher, studentClass: string, establishment: string): (r: DetectedTable)
    ensures r.Keys == table.Keys + {(NormalizedName(teacher), EstablishmentOr(establishment))}
    ensures forall k :: k in table && k != (NormalizedName(teacher), EstablishmentOr(establishment)) ==> r[k] == table[k]
    ensures var key := (NormalizedName(teacher), EstablishmentOr(establishment));
      key in table ==>
        var (d, e) := (table[key], r[key]);
        && e.name == d.name && e.normalizedName == d.normalizedName && e.establishment == d.establishment
        && e.claimCount == d.claimCount + 1 && e.claimedBy == d.claimedBy
        && |e.subjects| >= |d.subjects| && e.subjects[..|d.subjects|] == d.subjects
        && (forall s :: s in e.subjects <==> s in d.subjects || s in teacher.subjects)
        && CleanClasses(e.classes)
        && (forall c :: c in e.classes <==> (c in d.classes && c != "") || (c == studentClass && c != ""))
    ensures var key := (NormalizedName(teacher), EstablishmentOr(establishment));
      key !in table ==>
        r[key] == Detected(teacher.name, NormalizedName(teacher), teacher.subjects,
                           if studentClass != "" then [studentClass] else [], EstablishmentOr(establishment), 1, None)
  {
    var key := (NormalizedName(teacher), EstablishmentOr(establishment));
    if key in table then
      var d := table[key];
      DistinctMembers(teacher.subjects);
      table[key := d.(subjects := MergedSubjectsAsWritten(d.subjects, teacher.subjects),
                      classes := MergedClasses(d.classes, studentClass),
                      claimCount := d.claimCount + 1)]
    else
      table[key := Detected(teacher.name, key.0, teacher.subjects,
                            if studentClass != "" then [studentClass] else [], key.1, 1, None)]
  }

  /** The table after the sightings of `teachers`, in order. */
  function Recorded(table: DetectedTable, teachers: seq<EdTeacher>, studentClass: string, establishment: string): DetectedTable
  {
    if |teachers| == 0 then table
    else RecordOne(Recorded(table, teachers[..|teachers| - 1], studentClass, establishment),
                   teachers[|teachers| - 1], studentClass, establishment)
  }

  lemma RecordedStep(table: DetectedTable, teachers: seq<EdTeacher>, i: nat, studentClass: string, establishment: string)
    requires i < |teachers|
    ensures Recorded(table, teachers[..i + 1], studentClass, establishment) ==
      RecordOne(Recorded(table, teachers[..i], studentClass, establishment), teachers[i], studentClass, establishment)
  {
    assert teachers[..i + 1][..i] == teachers[..i];
  }

  /** `recordDetectedTeachers(edTeachers, studentClass, establishment)` against the table. */
  method RecordDetectedTeachers(table: DetectedTable, teachers: seq<EdTeacher>, studentClass: string, establishment: string)
    returns (result: DetectedTable)
    ensures result == Recorded(table, teachers, studentClass, establishment)
  {
    result := table;
    var i := 0;
    while i < |teachers|
      invariant 0 <= i <= |teachers|
      invariant result == Recorded(table, teachers[..i], studentClass, establishment)
    {
      RecordedStep(table, teachers, i, studentClass, establishment);
      result := RecordOne(result, teachers[i], studentClass, establishment);
      i := i + 1;
    }
    assert teachers[..|teachers|] == teachers;
  }

  /**
   * Each sighting adds exactly one to the claim count of its record; a
   * record first seen starts at one; a record's claim is never touched.
   */
  lemma {:induction false} ClaimCountsSightings(table: DetectedTable, teachers: seq<EdTeacher>, studentClass: string,
                                                establishment: string, name: string)
    ensures var k := (name, EstablishmentOr(establishment));
      var r := Recorded(table, teachers, studentClass, establishment);
      (k in r <==> k in table || CountKey(teachers, NormalizedName, name) > 0) &&
      (k in r ==> r[k].claimCount == (if k in table then table[k].claimCount else 0) + CountKey(teachers, NormalizedName, name)) &&
      (k in r && k in table ==> r[k].claimedBy == table[k].claimedBy)
    decreases |teachers|
  {
    if |teachers| > 0 {
      var init, last := teachers[..|teachers| - 1], teachers[|teachers| - 1];
      ClaimCountsSightings(table, init, studentClass, establishment, name);
      assert teachers == init + [last];
      CountKeySnoc(init, last, NormalizedName, name);
    }
  }

  /** Every record's classes are distinct, non-empty names. */
  predicate AllClean(table: DetectedTable)
  {
    forall k :: k in table ==> CleanClasses(table[k].classes)
  }

  /** One sighting keeps the classes clean. */
  lemma RecordOneClean(table: DetectedTable, teacher: EdTeacher, studentClass: string, establishment: string)
    requires AllClean(table)
    ensures AllClean(RecordOne(table, teacher, studentClass, establishment))
  {
  }

  /** The record `key` lists the class `c`. */
  predicate HasClass(table: DetectedTable, key: (string, string), c: string)
  {
    key in table && c in table[key].classes
  }

  /** One sighting keeps every non-empty class already listed and lists the student's class in the sighted record. */
  lemma RecordOneGrows(table: DetectedTable, teacher: EdTeacher, studentClass: string, establishment: string)
    ensures var r := RecordOne(table, teacher, studentClass, establishment);
      (forall k, c :: HasClass(table, k, c) && c != "" ==> HasClass(r, k, c)) &&
      (studentClass != "" ==> HasClass(r, (NormalizedName(teacher), EstablishmentOr(establishment)), studentClass))
  {
  }

  /** Recording keeps every record's classes distinct and non-empty. */
  lemma {:induction false} RecordedClassesClean(table: DetectedTable, teachers: seq<EdTeacher>, studentClass: string,
                                                establishment: string)
    requires AllClean(table)
    ensures AllClean(Recorded(table, teachers, studentClass, establishment))
    decreases |teachers|
  {
    if |teachers| > 0 {
      var init, last := teachers[..|teachers| - 1], teachers[|teachers| - 1];
      RecordedClassesClean(table, init, studentClass, establishment);
      RecordOneClean(Recorded(table, init, studentClass, establishment), last, studentClass, establishment);
    }
  }

  /** After recording, every sighted teacher's record lists the student's class, when there is one. */
  lemma {:induction false} RecordedListsClass(table: DetectedTable, teachers: seq<EdTeacher>, studentClass: string,
                                              establishment: string)
    requires studentClass != ""
    ensures forall i :: 0 <= i < |teachers| ==>
      HasClass(Recorded(table, teachers, studentClass, establishment),
               (NormalizedName(teachers[i]), EstablishmentOr(establishment)), studentClass)
    decreases |teachers|
  {
    if |teachers| > 0 {
      var init, last := teachers[..|teachers| - 1], teachers[|teachers| - 1];
      RecordedListsClass(table, init, studentClass, establishment);
      var before := Recorded(table, init, studentClass, establishment);
      RecordOneGrows(before, last, studentClass, establishment);
      forall i | 0 <= i < |teachers| - 1
        ensures HasClass(Recorded(table, teachers, studentClass, establishment),
                         (NormalizedName(teachers[i]), EstablishmentOr(establishment)), studentClass)
      {
        assert teachers[i] == init[i];
      }
    }
  }

  // ---------------------------------------------------------------------
  // Claiming a detected identity

  /** The answers a teacher gives to claim an identity; an empty answer counts as absent. */
  datatype Answers = Answers(subject: string, className: string)

  datatype Verification = Verification(valid: bool, error: Option<string>)

  /** `s.name.toLowerCase().includes(answer) || s.code?.toLowerCase() === answer`, the answer lower-cased. */
  predicate SubjectKnown(s: Subject, answer: string)
  {
    Contains(Lower(s.name), Lower(answer)) || (s.code.Some? && Lower(s.code.value) == Lower(answer))
  }

  /** `verifyTeacherClaim(detected, answers)`. */
  function VerifyTeacherClaim(detected: Detected, answers: Answers): (v: Verification)
    ensures v.valid <==>
      (answers.subject != "" ==> exists i :: 0 <= i < |detected.subjects| && SubjectKnown(detected.subjects[i], answers.subject)) &&
      (answers.className != "" ==> (exists i :: 0 <= i < |detected.classes| &&
                                      Contains(Lower(detected.classes[i]), Lower(answers.className))))
    ensures !v.valid ==> v.error.Some?
    ensures v.valid ==> v.error.None?
  {
    if answers.subject != "" &&
       !(exists i :: 0 <= i < |detected.subjects| && SubjectKnown(detected.subjects[i], answers.subject))
    then Verification(false, Some(SUBJECT_MISMATCH))
    else if answers.className != "" &&
       !(exists i :: 0 <= i < |detected.classes| && Contains(Lower(detected.classes[i]), Lower(answers.className)))
    then Verification(false, Some(CLASS_MISMATCH))
    else Verification(true, None)
  }

  /** Giving no answer at all always passes. */
  lemma NoAnswersPass(detected: Detected)
    ensures VerifyTeacherClaim(detected, Answers("", "")).valid
  {
  }

  /** A class answer that is one of the known classes, in any case, passes the class test. */
  lemma KnownClassPasses(detected: Detected, i: int)
    requires 0 <= i < |detected.classes| && detected.classes[i] != ""
    ensures VerifyTeacherClaim(detected, Answers("", Upper(detected.classes[i]))).valid
  {
    var c := detected.classes[i];
    LowerOfUpper(c);
    ContainsSelf(Lower(c));
    assert Upper(c) != "";
  }

  /** What a successful claim writes: the record's `claimed_by`, and the user's platform name and display name. */
  datatype ClaimUpdate = ClaimUpdate(claimedBy: string, edTeacherName: string, displayName: string)

  /**
   * `claimTeacherIdentity(id, userId, answers)`; `detected` is the fetched
   * record (`None` when the fetch failed) and `claimWriteFails` the outcome
   * of the update that marks it claimed.
   */
  function ClaimTeacherIdentity(detected: Option<Detected>, userId: string, answers: Answers, claimWriteFails: bool):
    (r: Result<ClaimUpdate, string>)
    ensures detected.None? ==> r == Failure(NOT_FOUND)
    ensures detected.Some? && detected.value.claimedBy.Some? ==> r == Failure(ALREADY_CLAIMED)
    ensures r.Success? ==> (detected.Some? && detected.value.claimedBy.None? &&
                            VerifyTeacherClaim(detected.value, answers).valid && !claimWriteFails)
    ensures r.Success? ==> r.value.claimedBy == userId && r.value.edTeacherName == detected.value.normalizedName
  {
    if detected.None? then Failure(NOT_FOUND)
    else
      var d := detected.value;
      if d.claimedBy.Some? then Failure(ALREADY_CLAIMED)
      else
        var v := VerifyTeacherClaim(d, answers);
        if !v.valid then Failure(v.error.GetOr(VERIFICATION_FAILED))
        else if claimWriteFails then Failure(CLAIM_FAILED)
        else Success(ClaimUpdate(userId, d.normalizedName, Trim(RealEcoleDirecte.StripTitle(d.name, CLAIM_TITLES))))
  }

  /** A claim never takes over an identity already claimed, whatever the answers. */
  lemma ClaimedStaysClaimed(d: Detected, userId: string, answers: Answers, claimWriteFails: bool)
    requires d.claimedBy.Some?
    ensures ClaimTeacherIdentity(Some(d), userId, answers, claimWriteFails).Failure?
  {
  }
}
