/**
 * The client of the real École Directe API: how it types the account the
 * login returns, the small mappers it applies to responses (teacher names,
 * message senders, folders, homework weight), the obfuscated credentials it
 * keeps in local storage for 24 hours, the session fields that login, the
 * security questionnaire (QCM) and logout update, and the teacher's groups
 * and students it assembles from the account and the per-group responses.
 * Network responses, the clock and fresh identifiers are parameters.
 */
module RealEcoleDirecte {
  import opened Wrappers
  import opened Text
  import opened Collections
  import opened WebEncoding
  import Dates

  // ---------------------------------------------------------------------------
  // Base64 content (encodeBase64 / decodeBase64)
  // ---------------------------------------------------------------------------

  /** `str.replace(/-/g, '+').replace(/_/g, '/')`: URL-safe digits to standard ones. */
  function UrlSafeToStandard(s: string): (r: string)
    ensures |r| == |s|
    ensures forall i :: 0 <= i < |s| ==> r[i] == (if s[i] == '-' then '+' else if s[i] == '_' then '/' else s[i])
  {
    seq(|s|, i requires 0 <= i < |s| => if s[i] == '-' then '+' else if s[i] == '_' then '/' else s[i])
  }

  /**
   * `encodeBase64`: the UTF-8 bytes of the text as a binary string, through
   * `btoa`.  Its fall-back to `btoa(str)` cannot be reached: the binary string
   * of a byte sequence is always Latin-1.
   */
  function EncodeBase64(s: string): (r: string)
    ensures r == "" <==> s == ""
  {
    if s == "" then "" else EncodeLatin1(Latin1Of(Utf8Encode(s)))
  }

  /**
   * `decodeBase64`: URL-safe digits are accepted, the bytes are read as UTF-8
   * (malformed sequences become U+FFFD); when `atob` rejects the text, the
   * text itself is tried with `atob`, and failing that returned unchanged.
   */
  function DecodeBase64(s: string): string
  {
    if s == "" then ""
    else match Atob(UrlSafeToStandard(s))
      case Some(binary) => TextDecode(BytesOf(binary))
      case None =>
        match Atob(s)
        case Some(t) => t
        case None => s
  }

  /** Every character `atob` accepts is a digit, `=` or white space, so URL-safe digits are left alone. */
  lemma AtobAlphabet(s: string)
    requires Atob(s).Some?
    ensures UrlSafeToStandard(s) == s
  {
    var w := RemoveWhitespace(s);
    var t := StripPadding(w);
    assert IsBase64(t);
    forall i | 0 <= i < |w|
      ensures w[i] == '=' || Base64Value(w[i]).Some?
    {
      if i < |t| {
        assert w[i] == t[i];
      }
    }
    RemoveWhitespaceKeeps(s);
    assert forall i :: 0 <= i < |s| ==> s[i] != '-' && s[i] != '_';
  }

  lemma {:induction false} RemoveWhitespaceKeeps(s: string)
    ensures forall i :: 0 <= i < |s| ==> IsAsciiWhitespace(s[i]) || s[i] in RemoveWhitespace(s)
  {
    if |s| > 0 {
      RemoveWhitespaceKeeps(s[1..]);
      assert forall i :: 1 <= i < |s| ==> s[i] == s[1..][i - 1];
    }
  }

  /** The second `atob` of `decodeBase64` never succeeds: its fall-back returns the input. */
  lemma DecodeBase64Fallback(s: string)
    requires s != "" && Atob(UrlSafeToStandard(s)).None?
    ensures Atob(s).None?
    ensures DecodeBase64(s) == s
  {
    if Atob(s).Some? {
      AtobAlphabet(s);
    }
  }

  lemma EncodingHasNoUrlDigits(s: string)
    requires IsLatin1(s)
    ensures UrlSafeToStandard(EncodeLatin1(s)) == EncodeLatin1(s)
  {
    var e := EncodeLatin1(s);
    var u := Unpadded(s);
    forall i | 0 <= i < |e|
      ensures e[i] != '-' && e[i] != '_'
    {
      if i < |u| {
        assert e[i] == u[i] && Base64Value(u[i]).Some?;
      }
    }
  }

  /** `decodeBase64(encodeBase64(s)) === s`, unless `s` starts with U+FEFF, which the decoder drops. */
  lemma Base64RoundTrip(s: string)
    requires s == "" || s[0] != '\U{FEFF}'
    ensures DecodeBase64(EncodeBase64(s)) == s
  {
    if s != "" {
      var binary := Latin1Of(Utf8Encode(s));
      var e := EncodeLatin1(binary);
      EncodingHasNoUrlDigits(binary);
      BtoaAtob(binary);
      BytesOfLatin1(Utf8Encode(s));
      TextRoundTrip(s);
    }
  }

  // ---------------------------------------------------------------------------
  // Accounts (parseAccount)
  // ---------------------------------------------------------------------------

  datatype ModuleInfo = ModuleInfo(code: string, enabled: bool)

  /** The class of a student or child; an absent label is the empty string. */
  datatype RawClasse = RawClasse(id: Option<int>, code: string, libelle: string)

  /** A class a teacher teaches; `idGroupe` is 0 when the class has no group. */
  datatype TeacherClass = TeacherClass(id: int, code: string, libelle: string, idGroupe: int)

  datatype RawChild = RawChild(id: int, prenom: string, nom: string, classe: Option<RawClasse>)

  datatype RawProfile = RawProfile(
    classe: Option<RawClasse>,
    classes: Option<seq<TeacherClass>>,
    matieres: Option<seq<string>>,
    eleves: Option<seq<RawChild>>)

  /** An entry of `data.accounts` in the login response (`accessToken` empty when absent). */
  datatype RawAccount = RawAccount(
    id: int,
    typeCompte: string,
    prenom: string,
    nom: string,
    email: string,
    accessToken: string,
    modules: Option<seq<ModuleInfo>>,
    profile: Option<RawProfile>)

  datatype Child = Child(id: int, firstName: string, lastName: string, classe: Option<string>)

  /** The account the client keeps, in one of its three shapes. */
  datatype Account =
    | Student(id: int, firstName: string, lastName: string, email: string,
              classe: string, classeCode: string, classeId: Option<int>, modules: seq<ModuleInfo>)
    | Teacher(id: int, firstName: string, lastName: string, email: string,
              modules: seq<ModuleInfo>, classes: seq<TeacherClass>, subjects: seq<string>)
    | Parent(id: int, kind: string, firstName: string, lastName: string, email: string,
             children: seq<Child>, modules: seq<ModuleInfo>)

  /** The account's `type` field. */
  function TypeOf(a: Account): string
  {
    match a
    case Student(_, _, _, _, _, _, _, _) => "E"
    case Teacher(_, _, _, _, _, _, _) => "P"
    case Parent(_, kind, _, _, _, _, _) => kind
  }

  /** The account's `accountType` field. */
  function AccountTypeName(a: Account): string
  {
    match a
    case Student(_, _, _, _, _, _, _, _) => "student"
    case Teacher(_, _, _, _, _, _, _) => "teacher"
    case Parent(_, _, _, _, _, _, _) => "parent"
  }

  function ProfileClasse(r: RawAccount): Option<RawClasse>
  {
    if r.profile.Some? then r.profile.value.classe else None
  }

  function ParseChild(e: RawChild): Child
  {
    Child(e.id, e.prenom, e.nom, if e.classe.Some? then Some(e.classe.value.libelle) else None)
  }

  function ParseAccount(r: RawAccount): Account
  {
    var modules := r.modules.GetOr([]);
    if r.typeCompte == "E" then
      var c := ProfileClasse(r);
      Student(r.id, r.prenom, r.nom, r.email,
              if c.Some? && c.value.libelle != "" then c.value.libelle else "Inconnue",
              if c.Some? then c.value.code else "",
              if c.Some? then c.value.id else None,
              modules)
    else if r.typeCompte == "P" then
      Teacher(r.id, r.prenom, r.nom, r.email, modules,
              if r.profile.Some? then r.profile.value.classes.GetOr([]) else [],
              if r.profile.Some? then r.profile.value.matieres.GetOr([]) else [])
    else
      Parent(r.id, r.typeCompte, r.prenom, r.nom, r.email,
             if r.profile.Some? && r.profile.value.eleves.Some? then Map(r.profile.value.eleves.value, ParseChild) else [],
             modules)
  }

  /**
   * The account's type is the raw `typeCompte` whatever its shape; 'E' and
   * only 'E' gives a student, 'P' and only 'P' a teacher, anything else a
   * parent; modules, a student's class and a teacher's lists have defaults.
   */
  lemma ParsedAccount(r: RawAccount)
    ensures TypeOf(ParseAccount(r)) == r.typeCompte
    ensures ParseAccount(r).Student? <==> r.typeCompte == "E"
    ensures ParseAccount(r).Teacher? <==> r.typeCompte == "P"
    ensures ParseAccount(r).Parent? <==> r.typeCompte != "E" && r.typeCompte != "P"
    ensures AccountTypeName(ParseAccount(r)) == (if r.typeCompte == "E" then "student" else if r.typeCompte == "P" then "teacher" else "parent")
    ensures ParseAccount(r).modules == (if r.modules.Some? then r.modules.value else [])
    ensures ParseAccount(r).id == r.id && ParseAccount(r).firstName == r.prenom && ParseAccount(r).lastName == r.nom
    ensures ParseAccount(r).Student? ==> ParseAccount(r).classe != ""
    ensures ParseAccount(r).Student? && (ProfileClasse(r).None? || ProfileClasse(r).value.libelle == "") ==>
      ParseAccount(r).classe == "Inconnue" && (ProfileClasse(r).None? ==> ParseAccount(r).classeCode == "")
    ensures ParseAccount(r).Teacher? && r.profile.None? ==> ParseAccount(r).classes == [] && ParseAccount(r).subjects == []
    ensures ParseAccount(r).Parent? ==> |ParseAccount(r).children| == (if r.profile.Some? && r.profile.value.eleves.Some? then |r.profile.value.eleves.value| else 0)
  {
  }

  // ---------------------------------------------------------------------------
  // Teacher names (normalizeTeacherName)
  // ---------------------------------------------------------------------------

  /** `s` starts with `p`, letters compared without regard to case (the regular expression's `i` flag). */
  predicate StartsWithIgnoringCase(s: string, p: string)
  {
    |p| <= |s| && forall i :: 0 <= i < |p| ==> UpperChar(s[i]) == UpperChar(p[i])
  }

  /**
   * The alternatives of `^(M\.|Mme|Mlle|Mr\.?|Mrs\.?)` in the order the
   * regular expression tries them (`Mr\.?` tries `Mr.` before `Mr`).
   */
  const TITLES_AS_WRITTEN: seq<string> := ["M.", "Mme", "Mlle", "Mr.", "Mr", "Mrs.", "Mrs"]

  /** The same titles with `Mrs` tried before `Mr`, so that `Mrs` can match. */
  const TITLES: seq<string> := ["M.", "Mme", "Mlle", "Mrs.", "Mrs", "Mr.", "Mr"]

  /** Length of the first of `titles` that starts `s`. */
  function TitleLength(s: string, titles: seq<string>): (r: Option<nat>)
    ensures r.Some? ==> r.value <= |s|
  {
    if |titles| == 0 then None
    else if StartsWithIgnoringCase(s, titles[0]) then Some(|titles[0]|)
    else TitleLength(s, titles[1..])
  }

  /** `s.replace(/^(titles)\s*\/i, '')`. */
  function StripTitle(s: string, titles: seq<string>): string
  {
    match TitleLength(s, titles)
    case None => s
    case Some(n) => TrimStart(s[n..])
  }

  /** `p.length > 2 && p === p.toUpperCase()`. */
  predicate LooksLikeLastName(p: string)
  {
    |p| > 2 && p == Upper(p)
  }

  /** `parts.find(LooksLikeLastName)`. */
  function FindLastName(parts: seq<string>): (r: Option<string>)
    ensures r.Some? ==> r.value in parts && LooksLikeLastName(r.value)
    ensures r.None? ==> forall i :: 0 <= i < |parts| ==> !LooksLikeLastName(parts[i])
  {
    if |parts| == 0 then None
    else if LooksLikeLastName(parts[0]) then Some(parts[0])
    else FindLastName(parts[1..])
  }

  /** `normalizeTeacherName` with the given title alternatives. */
  function NormalizeWith(rawName: string, titles: seq<string>): string
  {
    if rawName == "" then ""
    else
      var parts := SplitSpaces(Trim(StripTitle(rawName, titles)));
      Upper(FindLastName(parts).GetOr(parts[0]))
  }

  /** `normalizeTeacherName` as written. */
  function NormalizeTeacherNameAsWritten(rawName: string): string
  {
    NormalizeWith(rawName, TITLES_AS_WRITTEN)
  }

  /** `normalizeTeacherName` with the title alternatives in the order that lets each of them match. */
  function NormalizeTeacherName(rawName: string): string
  {
    NormalizeWith(rawName, TITLES)
  }

  /** `parts[i]` is the first token that looks like a last name. */
  ghost predicate FirstLastNameAt(parts: seq<string>, i: int)
  {
    0 <= i < |parts| && LooksLikeLastName(parts[i]) && forall j :: 0 <= j < i ==> !LooksLikeLastName(parts[j])
  }

  /**
   * The normalised name is empty for an empty input and already upper case;
   * it is the first token that looks like a last name when there is one, and
   * otherwise the first token, upper-cased.
   */
  lemma NormalizedName(rawName: string, titles: seq<string>)
    ensures rawName == "" ==> NormalizeWith(rawName, titles) == ""
    ensures Upper(NormalizeWith(rawName, titles)) == NormalizeWith(rawName, titles)
    ensures rawName != "" ==>
      var parts := SplitSpaces(Trim(StripTitle(rawName, titles)));
      if exists i :: 0 <= i < |parts| && LooksLikeLastName(parts[i])
      then exists i :: FirstLastNameAt(parts, i) && NormalizeWith(rawName, titles) == parts[i]
      else NormalizeWith(rawName, titles) == Upper(parts[0])
  {
    if rawName != "" {
      var parts := SplitSpaces(Trim(StripTitle(rawName, titles)));
      var name := FindLastName(parts).GetOr(parts[0]);
      UpperIdempotent(name);
      if exists i :: 0 <= i < |parts| && LooksLikeLastName(parts[i]) {
        FirstLastName(parts);
      }
    }
  }

  lemma {:induction false} FirstLastName(parts: seq<string>)
    requires exists i :: 0 <= i < |parts| && LooksLikeLastName(parts[i])
    ensures FindLastName(parts).Some?
    ensures exists i :: FirstLastNameAt(parts, i) && FindLastName(parts).value == parts[i]
  {
    if !LooksLikeLastName(parts[0]) {
      var k :| 0 <= k < |parts| && LooksLikeLastName(parts[k]);
      assert LooksLikeLastName(parts[1..][k - 1]);
      FirstLastName(parts[1..]);
      var i :| FirstLastNameAt(parts[1..], i) && FindLastName(parts[1..]).value == parts[1..][i];
      assert forall j :: 1 <= j < i + 1 ==> parts[j] == parts[1..][j - 1];
      assert FirstLastNameAt(parts, i + 1);
    } else {
      assert FirstLastNameAt(parts, 0);
    }
  }

  /** A string of capital letters and other characters without case is its own upper case. */
  lemma UpperOfCapitals(s: string)
    requires forall i :: 0 <= i < |s| ==> !('a' <= s[i] <= 'z') && s[i] as int < 0x80
    ensures Upper(s) == s
  {
  }

  lemma IndexOfSpaceIs(s: string, k: nat)
    requires k <= |s|
    requires forall i :: 0 <= i < k ==> !IsSpace(s[i])
    requires k < |s| ==> IsSpace(s[k])
    ensures IndexOfSpace(s) == k
  {
  }

  lemma TrimOneSpace(b: string)
    requires |b| > 0 && !IsSpace(b[0])
    ensures TrimStart(" " + b) == b
  {
    assert (" " + b)[1..] == b;
  }

  lemma SplitTwoWords(a: string, b: string)
    requires |a| > 0 && |b| > 0
    requires forall i :: 0 <= i < |a| ==> !IsSpace(a[i])
    requires forall i :: 0 <= i < |b| ==> !IsSpace(b[i])
    ensures SplitSpaces(a + " " + b) == [a, b]
  {
    var s := a + " " + b;
    assert forall i :: 0 <= i < |a| ==> s[i] == a[i];
    assert s[|a|] == ' ';
    IndexOfSpaceIs(s, |a|);
    assert s[..|a|] == a;
    assert s[|a|..] == " " + b;
    TrimOneSpace(b);
    SplitOneWord(b);
    assert SplitSpaces(s) == [a] + SplitSpaces(b);
  }

  lemma SplitOneWord(a: string)
    requires forall i :: 0 <= i < |a| ==> !IsSpace(a[i])
    ensures SplitSpaces(a) == [a]
  {
    assert IndexOfSpace(a) == |a|;
  }

  lemma NormalizeSteps(rawName: string, titles: seq<string>, n: nat, name: string, parts: seq<string>, result: string)
    requires rawName != ""
    requires TitleLength(rawName, titles) == Some(n)
    requires Trim(TrimStart(rawName[n..])) == name
    requires SplitSpaces(name) == parts
    requires Upper(FindLastName(parts).GetOr(parts[0])) == result
    ensures NormalizeWith(rawName, titles) == result
  {
  }

  lemma NormalizeFrom(rawName: string, titles: seq<string>, name: string, parts: seq<string>, result: string)
    requires rawName != ""
    requires Trim(StripTitle(rawName, titles)) == name
    requires SplitSpaces(name) == parts
    requires Upper(FindLastName(parts).GetOr(parts[0])) == result
    ensures NormalizeWith(rawName, titles) == result
  {
  }

  lemma DupontTitle()
    ensures TitleLength("M. DUPONT P.", TITLES_AS_WRITTEN) == Some(2)
    ensures TitleLength("M. DUPONT P.", TITLES) == Some(2)
  {
    assert StartsWithIgnoringCase("M. DUPONT P.", "M.");
  }

  lemma DupontSteps()
    ensures TitleLength("M. DUPONT P.", TITLES_AS_WRITTEN) == Some(2)
    ensures TitleLength("M. DUPONT P.", TITLES) == Some(2)
    ensures Trim(TrimStart("M. DUPONT P."[2..])) == "DUPONT P."
  {
    DupontTitle();
    assert "M. DUPONT P."[2..] == " " + "DUPONT P.";
    assert TrimStart(" " + "DUPONT P.") == "DUPONT P." by {
      TrimOneSpace("DUPONT P.");
    }
    TrimKeeps("DUPONT P.");
  }

  /** Printable ASCII other than the space holds no white space. */
  lemma VisibleAscii(s: string)
    requires forall i :: 0 <= i < |s| ==> '!' <= s[i] <= '~'
    ensures forall i :: 0 <= i < |s| ==> !IsSpace(s[i])
  {
  }

  lemma DupontParts()
    ensures SplitSpaces("DUPONT P.") == ["DUPONT", "P."]
  {
    assert "DUPONT" + " " + "P." == "DUPONT P.";
    assert SplitSpaces("DUPONT" + " " + "P.") == ["DUPONT", "P."] by {
      VisibleAscii("DUPONT");
      VisibleAscii("P.");
      SplitTwoWords("DUPONT", "P.");
    }
  }

  lemma DupontIsLastName()
    ensures FindLastName(["DUPONT", "P."]) == Some("DUPONT")
    ensures Upper("DUPONT") == "DUPONT"
  {
    UpperOfCapitals("DUPONT");
  }

  lemma MartinTitle()
    ensures TitleLength("Mme MARTIN", TITLES_AS_WRITTEN) == Some(3)
    ensures TitleLength("Mme MARTIN", TITLES) == Some(3)
  {
    var martin := "Mme MARTIN";
    assert !StartsWithIgnoringCase(martin, "M.") by {
      assert UpperChar(martin[1]) != UpperChar('.');
    }
    assert StartsWithIgnoringCase(martin, "Mme");
  }

  lemma MartinName()
    ensures Trim(TrimStart("Mme MARTIN"[3..])) == "MARTIN"
  {
    assert "Mme MARTIN"[3..] == " " + "MARTIN";
    TrimOneSpace("MARTIN");
    TrimKeeps("MARTIN");
  }

  lemma MartinParts()
    ensures SplitSpaces("MARTIN") == ["MARTIN"]
    ensures FindLastName(["MARTIN"]) == Some("MARTIN")
    ensures Upper("MARTIN") == "MARTIN"
  {
    SplitOneWord("MARTIN");
    UpperOfCapitals("MARTIN");
  }

  /** The first documented example of `normalizeTeacherName`: `"M. DUPONT P."` gives `"DUPONT"`. */
  lemma DocumentedDupont()
    ensures NormalizeTeacherNameAsWritten("M. DUPONT P.") == "DUPONT"
    ensures NormalizeTeacherName("M. DUPONT P.") == "DUPONT"
  {
    DupontWith(TITLES_AS_WRITTEN);
    DupontWith(TITLES);
  }

  lemma DupontWith(titles: seq<string>)
    requires titles == TITLES_AS_WRITTEN || titles == TITLES
    ensures NormalizeWith("M. DUPONT P.", titles) == "DUPONT"
  {
    DupontSteps();
    DupontParts();
    DupontIsLastName();
    NormalizeSteps("M. DUPONT P.", titles, 2, "DUPONT P.", ["DUPONT", "P."], "DUPONT");
  }

  /** The second documented example of `normalizeTeacherName`: `"Mme MARTIN"` gives `"MARTIN"`. */
  lemma DocumentedMartin()
    ensures NormalizeTeacherNameAsWritten("Mme MARTIN") == "MARTIN"
    ensures NormalizeTeacherName("Mme MARTIN") == "MARTIN"
  {
    MartinWith(TITLES_AS_WRITTEN);
    MartinWith(TITLES);
  }

  lemma MartinWith(titles: seq<string>)
    requires titles == TITLES_AS_WRITTEN || titles == TITLES
    ensures NormalizeWith("Mme MARTIN", titles) == "MARTIN"
  {
    MartinTitle();
    MartinName();
    MartinParts();
    NormalizeSteps("Mme MARTIN", titles, 3, "MARTIN", ["MARTIN"], "MARTIN");
  }

  // A title `Mrs` is never recognised as written: the alternative `Mr\.?`
  // comes first and matches its first two letters, so the `s` stays in the name.

  /** `TitleLength` finds the `k`-th title when it is the first of the list that starts `s`. */
  lemma {:induction false} TitleAt(s: string, titles: seq<string>, k: nat)
    requires k < |titles|
    requires forall j :: 0 <= j < k ==> !StartsWithIgnoringCase(s, titles[j])
    requires StartsWithIgnoringCase(s, titles[k])
    ensures TitleLength(s, titles) == Some(|titles[k]|)
  {
    if k > 0 {
      assert !StartsWithIgnoringCase(s, titles[0]);
      assert forall j :: 0 <= j < k - 1 ==> titles[1..][j] == titles[j + 1];
      TitleAt(s, titles[1..], k - 1);
    }
  }

  /** As written, `Mrs` followed by white space loses only its `Mr`. */
  lemma MrsAsWritten(rest: string)
    requires |rest| > 0 && IsSpace(rest[0])
    ensures StripTitle("Mrs" + rest, TITLES_AS_WRITTEN) == "s" + rest
  {
    var s := "Mrs" + rest;
    assert UpperChar(s[1]) != UpperChar('.') && UpperChar(s[1]) != UpperChar('m') && UpperChar(s[1]) != UpperChar('l');
    assert UpperChar(s[2]) != UpperChar('.');
    assert StartsWithIgnoringCase(s, "Mr");
    TitleAt(s, TITLES_AS_WRITTEN, 4);
    assert s[2..] == "s" + rest;
  }

  /** Every title followed by white space is removed whole once `Mrs` is tried before `Mr`. */
  lemma TitleStripped(k: nat, rest: string)
    requires k < |TITLES|
    requires |rest| > 0 && IsSpace(rest[0])
    ensures StripTitle(TITLES[k] + rest, TITLES) == TrimStart(rest)
  {
    var t := TITLES[k];
    var s := t + rest;
    assert StartsWithIgnoringCase(s, t);
    NoEarlierTitle(k, rest);
    TitleAt(s, TITLES, k);
    assert s[|t|..] == rest;
  }

  /** No title before the `k`-th starts that title followed by white space. */
  lemma NoEarlierTitle(k: nat, rest: string)
    requires k < |TITLES|
    requires |rest| > 0 && IsSpace(rest[0])
    ensures forall j :: 0 <= j < k ==> !StartsWithIgnoringCase(TITLES[k] + rest, TITLES[j])
  {
    var t := TITLES[k];
    var s := t + rest;
    if k > 0 {
      assert UpperChar(s[1]) != UpperChar('.');
    }
    if k > 1 {
      assert UpperChar(s[1]) != UpperChar('m');
    }
    if k > 2 {
      assert UpperChar(s[1]) != UpperChar('l');
    }
    if k == 4 || k == 6 {
      assert UpperChar(s[|t|]) != UpperChar('.') && UpperChar(s[|t|]) != UpperChar('s');
    }
    if k == 5 {
      assert UpperChar(s[2]) != UpperChar('s');
    }
  }

  lemma MrsLiterals()
    ensures "Mrs" + " Li" == "Mrs Li"
    ensures "s" + " Li" == "s Li"
    ensures TITLES[4] == "Mrs"
  {
  }

  lemma MrsStripped()
    ensures StripTitle("Mrs Li", TITLES_AS_WRITTEN) == "s Li"
    ensures StripTitle("Mrs Li", TITLES) == TrimStart(" Li")
  {
    MrsLiterals();
    MrsAsWritten(" Li");
    TitleStripped(4, " Li");
  }

  lemma MrsTrimmedAsWritten()
    ensures Trim("s Li") == "s Li"
  {
    TrimKeeps("s Li");
  }

  lemma MrsTrimmed()
    ensures Trim(TrimStart(" Li")) == "Li"
  {
    TrimOneSpace("Li");
    assert TrimStart("Li") == "Li";
  }

  lemma MrsPartsAsWritten()
    ensures SplitSpaces("s Li") == ["s", "Li"]
  {
    assert "s" + " " + "Li" == "s Li";
    assert SplitSpaces("s" + " " + "Li") == ["s", "Li"] by {
      VisibleAscii("s");
      VisibleAscii("Li");
      SplitTwoWords("s", "Li");
    }
  }

  lemma MrsParts()
    ensures SplitSpaces("Li") == ["Li"]
  {
    VisibleAscii("Li");
    SplitOneWord("Li");
  }

  lemma MrsNames()
    ensures Upper(FindLastName(["s", "Li"]).GetOr("s")) == "S"
    ensures Upper(FindLastName(["Li"]).GetOr("Li")) == "LI"
  {
    assert FindLastName(["s", "Li"]) == None;
    assert FindLastName(["Li"]) == None;
  }

  /** `"Mrs Li"` gives `"S"` as written, and `"LI"` with the titles reordered. */
  lemma MrsShadowed()
    ensures NormalizeTeacherNameAsWritten("Mrs Li") == "S"
    ensures NormalizeTeacherName("Mrs Li") == "LI"
  {
    MrsStripped();
    MrsTrimmedAsWritten();
    MrsTrimmed();
    MrsPartsAsWritten();
    MrsParts();
    MrsNames();
    NormalizeFrom("Mrs Li", TITLES_AS_WRITTEN, "s Li", ["s", "Li"], "S");
    NormalizeFrom("Mrs Li", TITLES, "Li", ["Li"], "LI");
  }

  // ---------------------------------------------------------------------------
  // Message senders and folders (formatSender, getFolderIdFromType, getMessages)
  // ---------------------------------------------------------------------------

  /** The `from` field of a message: absent, a string, or a record whose absent fields are empty. */
  datatype Sender =
    | NoSender
    | SenderText(text: string)
    | SenderRecord(civilite: string, prenom: string, nom: string, name: string)

  /** The fields pushed into `parts`: each of civilité, first and last name that is not empty. */
  function SenderParts(civilite: string, prenom: string, nom: string): (parts: seq<string>)
    ensures |parts| <= 3
    ensures forall i :: 0 <= i < |parts| ==> parts[i] != ""
    ensures civilite != "" ==> civilite in parts
    ensures prenom != "" ==> prenom in parts
    ensures nom != "" ==> nom in parts
    ensures parts == [] <==> civilite == "" && prenom == "" && nom == ""
  {
    (if civilite != "" then [civilite] else [])
    + (if prenom != "" then [prenom] else [])
    + (if nom != "" then [nom] else [])
  }

  function FormatSender(from: Sender): (r: string)
    ensures r != ""
  {
    match from
    case NoSender => "Inconnu"
    case SenderText(text) => if text == "" then "Inconnu" else text
    case SenderRecord(civilite, prenom, nom, name) =>
      var joined := Join(SenderParts(civilite, prenom, nom), " ");
      if joined != "" then joined else if name != "" then name else "Inconnu"
  }

  /** Every part occurs in the joined string. */
  lemma {:induction false} JoinHas(parts: seq<string>, sep: string, k: nat)
    requires k < |parts|
    ensures Contains(Join(parts, sep), parts[k])
    decreases |parts|
  {
    if |parts| == 1 {
      ContainsSelf(parts[0]);
    } else if k == 0 {
      ContainsSelf(parts[0]);
      ContainsInContext("", parts[0], sep + Join(parts[1..], sep), parts[0]);
      assert "" + parts[0] + (sep + Join(parts[1..], sep)) == Join(parts, sep);
    } else {
      JoinHas(parts[1..], sep, k - 1);
      ContainsInContext(parts[0] + sep, Join(parts[1..], sep), "", parts[k]);
      assert parts[0] + sep + Join(parts[1..], sep) + "" == Join(parts, sep);
    }
  }

  /** A join starts with its first part, so it is empty only when that part is. */
  lemma JoinLength(parts: seq<string>, sep: string)
    requires |parts| > 0
    ensures |Join(parts, sep)| >= |parts[0]|
  {
  }

  /**
   * A text sender is shown as is; a record shows every non-empty civilité,
   * first name and last name, and falls back to its `name` and then to
   * "Inconnu" only when all three are empty.
   */
  lemma SenderShown(from: Sender)
    ensures from.SenderText? && from.text != "" ==> FormatSender(from) == from.text
    ensures from.SenderRecord? && from.civilite != "" ==> Contains(FormatSender(from), from.civilite)
    ensures from.SenderRecord? && from.prenom != "" ==> Contains(FormatSender(from), from.prenom)
    ensures from.SenderRecord? && from.nom != "" ==> Contains(FormatSender(from), from.nom)
    ensures from.SenderRecord? && from.civilite != "" && from.prenom != "" && from.nom != "" ==>
      FormatSender(from) == from.civilite + " " + from.prenom + " " + from.nom
    ensures from.SenderRecord? && from.civilite == "" && from.prenom == "" && from.nom == "" ==>
      FormatSender(from) == (if from.name != "" then from.name else "Inconnu")
  {
    if from.SenderRecord? {
      var parts := SenderParts(from.civilite, from.prenom, from.nom);
      if parts != [] {
        assert FormatSender(from) == Join(parts, " ") by {
          JoinLength(parts, " ");
        }
        forall k | 0 <= k < |parts|
          ensures Contains(Join(parts, " "), parts[k])
        {
          JoinHas(parts, " ", k);
        }
        if from.civilite != "" && from.prenom != "" && from.nom != "" {
          JoinThree(from.civilite, from.prenom, from.nom);
        }
      }
    }
  }

  lemma JoinThree(a: string, b: string, c: string)
    requires a != "" && b != "" && c != ""
    ensures Join(SenderParts(a, b, c), " ") == a + " " + b + " " + c
  {
    var parts := SenderParts(a, b, c);
    assert parts == [a, b, c];
    assert parts[1..] == [b, c];
    assert parts[1..][1..] == [c];
    assert Join(parts[1..], " ") == b + " " + c;
  }

  /** `getFolderIdFromType`. */
  function FolderIdFromType(kind: string): int
  {
    if kind == "sent" then -1
    else if kind == "archived" then -2
    else if kind == "draft" then -4
    else 0
  }

  /** The `(typeRecuperation, actualFolderId)` that `getMessages` requests for its arguments. */
  function MessageFolder(kind: string, folderId: int): (string, int)
  {
    if folderId == -1 then ("sent", 0)
    else if folderId == -2 then ("archived", 0)
    else if folderId == -4 then ("draft", 0)
    else (kind, folderId)
  }

  /** The `folderId` of a listed message: its `idClasseur` (0 when absent), else the one of its type. */
  function MessageFolderId(idClasseur: int, kind: string): int
  {
    if idClasseur != 0 then idClasseur else FolderIdFromType(kind)
  }

  /**
   * The two mappings are inverse on sent, archived and draft and the
   * identifiers -1, -2, -4; any other type has folder 0, and any other
   * identifier is requested unchanged.
   */
  lemma FolderMapping(kind: string, other: string, folderId: int)
    ensures FolderIdFromType(kind) != 0 <==> kind == "sent" || kind == "archived" || kind == "draft"
    ensures FolderIdFromType(kind) != 0 ==> MessageFolder(other, FolderIdFromType(kind)) == (kind, 0)
    ensures folderId == -1 || folderId == -2 || folderId == -4 ==>
      MessageFolder(other, folderId).1 == 0 && FolderIdFromType(MessageFolder(other, folderId).0) == folderId
    ensures !(folderId == -1 || folderId == -2 || folderId == -4) ==> MessageFolder(other, folderId) == (other, folderId)
    ensures MessageFolderId(0, kind) == FolderIdFromType(kind)
  {
  }

  // ---------------------------------------------------------------------------
  // Homework weight (estimateWeight)
  // ---------------------------------------------------------------------------

  /** The fields of a homework entry the estimate reads; `contenu` is empty when `aFaire` is absent. */
  datatype HomeworkItem = HomeworkItem(interrogation: bool, contenu: string)

  const DST_KEYWORDS: seq<string> := ["dst", "devoir surveillé"]
  const HEAVY_KEYWORDS: seq<string> := ["rédaction", "dissertation", "dm complet", "projet"]
  const LIGHT_KEYWORDS: seq<string> := ["exercice", "relire", "réviser"]

  /** `content.length`: UTF-16 code units, two for a character beyond U+FFFF. */
  function Utf16Length(s: string): (n: nat)
    ensures |s| <= n <= 2 * |s|
  {
    if |s| == 0 then 0 else (if s[0] as int >= 0x10000 then 2 else 1) + Utf16Length(s[1..])
  }

  /** The weight of a decoded, lower-cased content. */
  function ContentWeight(content: string): string
  {
    if ContainsAny(content, DST_KEYWORDS) then "DST"
    else if ContainsAny(content, HEAVY_KEYWORDS) then "HEAVY"
    else if LightContent(content) then "LIGHT"
    else "MEDIUM"
  }

  /** The text of a homework entry as the estimate reads it: decoded from Base64 and lower-cased. */
  function ItemContent(item: HomeworkItem): string
  {
    Lower(DecodeBase64(item.contenu))
  }

  function EstimateWeight(item: HomeworkItem): (w: string)
    ensures w == "CONTROL" || w == "DST" || w == "HEAVY" || w == "LIGHT" || w == "MEDIUM"
  {
    if item.interrogation then "CONTROL" else ContentWeight(ItemContent(item))
  }

  /**
   * The priority of the estimate: a test is CONTROL whatever its content;
   * otherwise a DST keyword wins over a heavy one, a heavy one over a light
   * one or a short text, and MEDIUM is left for long texts with no keyword.
   */
  lemma WeightPriority(item: HomeworkItem)
    ensures EstimateWeight(item) == "CONTROL" <==> item.interrogation
    ensures EstimateWeight(item) == "DST" <==> !item.interrogation && ContainsAny(ItemContent(item), DST_KEYWORDS)
    ensures EstimateWeight(item) == "HEAVY" <==>
      !item.interrogation && !ContainsAny(ItemContent(item), DST_KEYWORDS) && ContainsAny(ItemContent(item), HEAVY_KEYWORDS)
    ensures EstimateWeight(item) == "LIGHT" <==>
      !item.interrogation && !ContainsAny(ItemContent(item), DST_KEYWORDS + HEAVY_KEYWORDS) && LightContent(ItemContent(item))
    ensures EstimateWeight(item) == "MEDIUM" <==>
      !item.interrogation && !ContainsAny(ItemContent(item), DST_KEYWORDS + HEAVY_KEYWORDS + LIGHT_KEYWORDS)
      && Utf16Length(ItemContent(item)) >= 50
  {
    var c := ItemContent(item);
    KeywordsAppend(c, DST_KEYWORDS, HEAVY_KEYWORDS);
    KeywordsAppend(c, DST_KEYWORDS + HEAVY_KEYWORDS, LIGHT_KEYWORDS);
  }

  /** A light keyword or a text shorter than 50 code units. */
  predicate LightContent(content: string)
  {
    ContainsAny(content, LIGHT_KEYWORDS) || Utf16Length(content) < 50
  }

  /** Looking for the keywords of two lists is looking in one list, then the other. */
  lemma KeywordsAppend(s: string, a: seq<string>, b: seq<string>)
    ensures ContainsAny(s, a + b) <==> ContainsAny(s, a) || ContainsAny(s, b)
  {
    if ContainsAny(s, a + b) {
      var k :| 0 <= k < |a + b| && Contains(s, (a + b)[k]);
      if k >= |a| {
        assert b[k - |a|] == (a + b)[k];
      }
    }
    if ContainsAny(s, a) {
      var k :| 0 <= k < |a| && Contains(s, a[k]);
      assert (a + b)[k] == a[k];
    }
    if ContainsAny(s, b) {
      var k :| 0 <= k < |b| && Contains(s, b[k]);
      assert (a + b)[|a| + k] == b[k];
    }
  }

  /** An entry whose content was encoded with `encodeBase64` is weighed on its own text, lower-cased. */
  lemma EncodedWeight(text: string)
    requires text == "" || text[0] != '\U{FEFF}'
    ensures EstimateWeight(HomeworkItem(false, EncodeBase64(text))) == ContentWeight(Lower(text))
  {
    Base64RoundTrip(text);
  }

  // ---------------------------------------------------------------------------
  // Obfuscated credentials (_obfuscate / _deobfuscate)
  // ---------------------------------------------------------------------------

  /** `btoa(encodeURIComponent(str).split('').reverse().join(''))`; the reversed text is ASCII, so `btoa` accepts it. */
  function Obfuscate(s: string): (r: string)
    ensures IsBase64(StripPadding(r))
  {
    EncodeUriComponentAscii(s);
    ReverseAscii(EncodeUriComponent(s));
    StripPaddingOfEncoding(Reverse(EncodeUriComponent(s)));
    EncodeLatin1(Reverse(EncodeUriComponent(s)))
  }

  /** `_deobfuscate`: `null` (here `None`) when `atob` or `decodeURIComponent` throws. */
  function Deobfuscate(t: string): Option<string>
  {
    match Atob(t)
    case None => None
    case Some(binary) => DecodeUriComponent(Reverse(binary))
  }

  /** What is obfuscated is recovered exactly. */
  lemma ObfuscationRoundTrip(s: string)
    ensures Deobfuscate(Obfuscate(s)) == Some(s)
  {
    var e := EncodeUriComponent(s);
    EncodeUriComponentAscii(s);
    ReverseAscii(e);
    BtoaAtob(Reverse(e));
    ReverseReverse(e);
    UriRoundTrip(s);
  }

  /** Text that is not Base64, and Base64 of a lone `%`, are rejected. */
  lemma MalformedObfuscation()
    ensures Deobfuscate("!") == None
    ensures Deobfuscate(EncodeLatin1("%")) == None
  {
    assert Base64Value('!') == None;
    BtoaAtob("%");
    assert Reverse("%") == "%";
    assert ByteAt("%") == None;
  }
}
