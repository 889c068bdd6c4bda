/**
 * The live DST board: the header date, the subtitle, the time range and
 * the student counts of each class row.
 */
module DstLiveBoard {
  import opened Wrappers
  import opened Collections
  import opened Text
  import opened Dates

  const NO_DATE := "DATE NON DÉFINIE"
  const NO_CLASSES := "Sélectionnez des classes"
  const DEFAULT_SUBJECT := "MATIÈRE"
  const DEFAULT_START := "08:00"
  const DEFAULT_END := "12:00"

  const DAY_NAMES := ["DIMANCHE", "LUNDI", "MARDI", "MERCREDI", "JEUDI", "VENDREDI", "SAMEDI"]
  const MONTH_NAMES := ["JANVIER", "FÉVRIER", "MARS", "AVRIL", "MAI", "JUIN", "JUILLET", "AOÛT",
    "SEPTEMBRE", "OCTOBRE", "NOVEMBRE", "DÉCEMBRE"]

  datatype Population = Entiere | Mixte

  datatype Student = Student(id: int, classLabel: string)

  /** `formatDate(date)`: the board's header, or the placeholder when no date is set. */
  function FormatDate(date: Option<int>): (r: string)
    ensures date.None? ==> r == NO_DATE
    ensures date.Some? ==> StartsWith(r, "DST " + DAY_NAMES[Weekday(date.value)] + " ")
  {
    if date.None? then NO_DATE
    else
      var c := CivilOf(date.value);
      var head := "DST " + DAY_NAMES[Weekday(date.value)] + " ";
      var tail := NatToString(c.day) + " " + MONTH_NAMES[c.month - 1] + " " + IntToString(c.year);
      PrefixOfConcat(head, tail);
      head + tail
  }

  lemma PrefixOfConcat(a: string, b: string)
    ensures StartsWith(a + b, a)
  {
    assert (a + b)[..|a|] == a;
  }

  /** In MIXTE mode a student of the class counts only when selected; otherwise every student of the class counts. */
  predicate Counted(population: Population, cls: string, selectedIds: Option<seq<int>>, s: Student)
  {
    s.classLabel == cls && (population.Mixte? ==> selectedIds.Some? && s.id in selectedIds.value)
  }

  /** `getStudentCount(cls)`. */
  function StudentCount(students: seq<Student>, population: Population, cls: string, selectedIds: Option<seq<int>>): nat
  {
    Count(students, (s: Student) => Counted(population, cls, selectedIds, s))
  }

  /** A MIXTE row never shows more students than the whole class has. */
  lemma MixteCountAtMostClass(students: seq<Student>, cls: string, selectedIds: Option<seq<int>>)
    ensures StudentCount(students, Mixte, cls, selectedIds) <= StudentCount(students, Entiere, cls, selectedIds)
    ensures StudentCount(students, Entiere, cls, selectedIds) <= |students|
  {
    CountImplies(students, (s: Student) => Counted(Mixte, cls, selectedIds, s), (s: Student) => Counted(Entiere, cls, selectedIds, s));
  }

  /** `dispositifStudents`. */
  function DispositifStudents(students: seq<Student>, dispositifIds: Option<seq<int>>): seq<Student>
  {
    Filter(students, (s: Student) => dispositifIds.Some? && s.id in dispositifIds.value)
  }

  /** The dispositif list holds exactly the students whose id is listed; without a list it holds none. */
  lemma DispositifMembers(students: seq<Student>, dispositifIds: Option<seq<int>>)
    ensures forall s :: s in DispositifStudents(students, dispositifIds) <==>
      s in students && dispositifIds.Some? && s.id in dispositifIds.value
  {
    var r := DispositifStudents(students, dispositifIds);
    forall s | s in students && dispositifIds.Some? && s.id in dispositifIds.value
      ensures s in r
    {
      var i :| 0 <= i < |students| && students[i] == s;
    }
  }

  /** `buildSubtitle()`: the classes joined by " - ", then the subject. */
  function Subtitle(classes: seq<string>, subject: string): (r: string)
    ensures |classes| == 0 ==> r == NO_CLASSES
  {
    if |classes| == 0 then NO_CLASSES
    else Join(classes, " - ") + " : " + (if subject != "" then subject else DEFAULT_SUBJECT)
  }

  /** A subtitle starts with the first class, names every class and ends with the subject, `MATIÈRE` without one. */
  lemma SubtitleNamesClasses(classes: seq<string>, subject: string)
    requires |classes| > 0
    ensures StartsWith(Subtitle(classes, subject), classes[0])
    ensures forall i :: 0 <= i < |classes| ==> Contains(Subtitle(classes, subject), classes[i])
    ensures var tail := " : " + (if subject != "" then subject else DEFAULT_SUBJECT);
      |tail| <= |Subtitle(classes, subject)| && Subtitle(classes, subject)[|Subtitle(classes, subject)| - |tail|..] == tail
  {
    var j := Join(classes, " - ");
    JoinStartsWithFirst(classes, " - ");
    var tail := " : " + (if subject != "" then subject else DEFAULT_SUBJECT);
    assert Subtitle(classes, subject) == j + tail;
    assert (j + tail)[..|classes[0]|] == j[..|classes[0]|];
    forall i | 0 <= i < |classes|
      ensures Contains(Subtitle(classes, subject), classes[i])
    {
      JoinContains(classes, " - ", i);
      ContainsInContext("", j, tail, classes[i]);
      assert "" + j + tail == j + tail;
    }
  }

  /** Every part appears in the joined text. */
  lemma {:induction false} JoinContains(parts: seq<string>, sep: string, i: nat)
    requires i < |parts|
    ensures Contains(Join(parts, sep), parts[i])
    decreases i
  {
    if |parts| == 1 {
      ContainsSelf(parts[0]);
    } else if i == 0 {
      ContainsSelf(parts[0]);
      ContainsInContext("", parts[0], sep + Join(parts[1..], sep), parts[0]);
      assert "" + parts[0] + (sep + Join(parts[1..], sep)) == Join(parts, sep);
    } else {
      JoinContains(parts[1..], sep, i - 1);
      ContainsInContext(parts[0] + sep, Join(parts[1..], sep), "", parts[i]);
      assert parts[0] + sep + Join(parts[1..], sep) + "" == Join(parts, sep);
    }
  }

  lemma JoinStartsWithFirst(parts: seq<string>, sep: string)
    requires |parts| > 0
    ensures StartsWith(Join(parts, sep), parts[0])
  {
    if |parts| > 1 {
      var j := Join(parts, sep);
      assert j == parts[0] + (sep + Join(parts[1..], sep));
      assert j[..|parts[0]|] == parts[0];
    }
  }

  /** `getTimeDisplay()`: the set start and end, 08:00 and 12:00 by default. */
  function TimeDisplay(slot: Option<(string, string)>): (r: string)
    ensures slot.None? ==> r == DEFAULT_START + "-" + DEFAULT_END
  {
    var start := if slot.Some? && slot.value.0 != "" then slot.value.0 else DEFAULT_START;
    var end := if slot.Some? && slot.value.1 != "" then slot.value.1 else DEFAULT_END;
    start + "-" + end
  }

  /** The time range is the start, a dash, then the end, each falling back to its default when unset. */
  lemma TimeDisplayParts(start: string, end: string)
    ensures var r := TimeDisplay(Some((start, end)));
      var s := if start != "" then start else DEFAULT_START;
      StartsWith(r, s + "-") && r[|s| + 1..] == (if end != "" then end else DEFAULT_END)
  {
  }
}
