/**
 * The local parser of DST timetables: from the raw text of a PDF it finds
 * the date of the document, the classes (`1A`, `TS`, …), the known subjects
 * and the time slots, links classes to the subjects written on the same
 * lines, and emits one DST entry per linked (class, subject) pair.
 *
 * The regular expressions are written out as matchers that follow the
 * backtracking order of JavaScript's engine (non-Unicode mode: `\b`, `\d`
 * and `\s` have their ASCII/JavaScript meaning).
 */
module SmartDstParser {
  import opened Wrappers
  import opened Text
  import opened Dates
  import opened Collections

  // ---------------------------------------------------------------------------
  // Regular-expression building blocks

  /** A word character at index `i` (false outside the string). */
  predicate WordAt(s: string, i: int)
  {
    0 <= i < |s| && IsWordChar(s[i])
  }

  /** `\b` at position `p`: a word character on exactly one side. */
  predicate BoundaryAt(s: string, p: int)
  {
    WordAt(s, p - 1) != WordAt(s, p)
  }

  predicate IsAsciiLetter(c: char)
  {
    ('a' <= c <= 'z') || ('A' <= c <= 'Z')
  }

  /** `n` digits start at `p`. */
  predicate DigitsAt(s: string, p: int, n: nat)
  {
    0 <= p && p + n <= |s| && forall j :: p <= j < p + n ==> IsDigit(s[j])
  }

  // ---------------------------------------------------------------------------
  // Classes: /\b([12T][A-Z])\b/gi

  /** A whole-word class name such as `1A`, `2c` or `TS` starts at `i`. */
  predicate ClassAt(s: string, i: int)
  {
    0 <= i && i + 2 <= |s|
    && (s[i] == '1' || s[i] == '2' || s[i] == 'T' || s[i] == 't')
    && IsAsciiLetter(s[i + 1])
    && BoundaryAt(s, i) && BoundaryAt(s, i + 2)
  }

  /** The global matches from position `i` on: after a match the search resumes at its end. */
  function ClassMatchesFrom(s: string, i: nat): seq<string>
    decreases |s| - i
  {
    if i >= |s| then []
    else if ClassAt(s, i) then [s[i..i + 2]] + ClassMatchesFrom(s, i + 2)
    else ClassMatchesFrom(s, i + 1)
  }

  /** `s.match(CLASS_PATTERN) || []`. */
  function ClassMatches(s: string): seq<string>
  {
    ClassMatchesFrom(s, 0)
  }

  /** `m` is the text of a whole-word class occurrence at or after `i`. */
  ghost predicate OccursFrom(s: string, i: int, m: string)
  {
    exists j :: i <= j && ClassAt(s, j) && s[j..j + 2] == m
  }

  /** Every match is a whole-word class occurrence at or after `i`. */
  lemma {:induction false} ClassMatchesSound(s: string, i: nat)
    ensures forall k :: 0 <= k < |ClassMatchesFrom(s, i)| ==> OccursFrom(s, i, ClassMatchesFrom(s, i)[k])
    decreases |s| - i
  {
    if i < |s| {
      var r := ClassMatchesFrom(s, i);
      if ClassAt(s, i) {
        ClassMatchesSound(s, i + 2);
        assert r == [s[i..i + 2]] + ClassMatchesFrom(s, i + 2);
        forall k | 0 <= k < |r|
          ensures OccursFrom(s, i, r[k])
        {
          if k == 0 {
            assert ClassAt(s, i) && s[i..i + 2] == r[0];
          } else {
            assert r[k] == ClassMatchesFrom(s, i + 2)[k - 1];
            assert OccursFrom(s, i + 2, r[k]);
          }
        }
      } else {
        ClassMatchesSound(s, i + 1);
        forall k | 0 <= k < |r|
          ensures OccursFrom(s, i, r[k])
        {
          assert OccursFrom(s, i + 1, r[k]);
        }
      }
    }
  }

  /** Every whole-word class occurrence at or after `i` is among the matches. */
  lemma {:induction false} ClassMatchesComplete(s: string, i: nat, j: int)
    requires i <= j && ClassAt(s, j)
    ensures s[j..j + 2] in ClassMatchesFrom(s, i)
    decreases |s| - i
  {
    if i < |s| {
      if ClassAt(s, i) {
        if j != i {
          assert WordAt(s, i) && WordAt(s, i + 1);
          assert j != i + 1;
          ClassMatchesComplete(s, i + 2, j);
          assert ClassMatchesFrom(s, i) == [s[i..i + 2]] + ClassMatchesFrom(s, i + 2);
        }
      } else {
        ClassMatchesComplete(s, i + 1, j);
      }
    }
  }

  /** `extractClasses`: the class matches, upper-cased, without duplicates. */
  function ExtractClasses(text: string): seq<string>
  {
    Distinct(Map(ClassMatches(text), Upper))
  }

  /** A class name as extracted: a digit 1 or 2 or the letter T, then an upper-case letter. */
  predicate IsClassName(c: string)
  {
    |c| == 2 && (c[0] == '1' || c[0] == '2' || c[0] == 'T') && 'A' <= c[1] <= 'Z'
  }

  /**
   * The extracted classes are distinct, well formed, and are exactly the
   * upper-cased whole-word class occurrences of the text.
   */
  lemma ExtractedClasses(text: string)
    ensures NoDuplicates(ExtractClasses(text))
    ensures forall k :: 0 <= k < |ExtractClasses(text)| ==> IsClassName(ExtractClasses(text)[k])
    ensures forall c :: c in ExtractClasses(text) <==> exists j :: ClassAt(text, j) && Upper(text[j..j + 2]) == c
  {
    var upper := Map(ClassMatches(text), Upper);
    DistinctMembers(upper);
    UpperMatches(text);
    forall k | 0 <= k < |ExtractClasses(text)|
      ensures IsClassName(ExtractClasses(text)[k])
    {
      var c := ExtractClasses(text)[k];
      assert c in upper;
      var j :| ClassAt(text, j) && Upper(text[j..j + 2]) == c;
      UpperClassName(text, j);
    }
  }

  /** The upper-cased matches are exactly the upper-cased class occurrences. */
  lemma UpperMatches(text: string)
    ensures forall c :: c in Map(ClassMatches(text), Upper) <==> exists j :: ClassAt(text, j) && Upper(text[j..j + 2]) == c
  {
    var matches := ClassMatches(text);
    var upper := Map(matches, Upper);
    ClassMatchesSound(text, 0);
    forall c
      ensures c in upper <==> exists j :: ClassAt(text, j) && Upper(text[j..j + 2]) == c
    {
      if c in upper {
        var k :| 0 <= k < |upper| && upper[k] == c;
        assert OccursFrom(text, 0, matches[k]);
        var j :| 0 <= j && ClassAt(text, j) && text[j..j + 2] == matches[k];
      }
      if exists j :: ClassAt(text, j) && Upper(text[j..j + 2]) == c {
        var j :| ClassAt(text, j) && Upper(text[j..j + 2]) == c;
        ClassMatchesComplete(text, 0, j);
        var k :| 0 <= k < |matches| && matches[k] == text[j..j + 2];
        assert upper[k] == c;
      }
    }
  }

  /** A class occurrence upper-cased is a well-formed class name. */
  lemma UpperClassName(text: string, j: int)
    requires ClassAt(text, j)
    ensures IsClassName(Upper(text[j..j + 2]))
  {
  }

  // ---------------------------------------------------------------------------
  // Subjects

  const KNOWN_SUBJECTS: seq<string> := [
    "MATHEMATIQUES", "MATHS", "MATH",
    "PHYSIQUE", "CHIMIE", "PC", "PHYSIQUE-CHIMIE",
    "SVT", "SCIENCES DE LA VIE",
    "FRANCAIS", "FRANÇAIS", "LETTRES",
    "HISTOIRE", "GEOGRAPHIE", "HG", "HISTOIRE-GEO",
    "ANGLAIS", "ESPAGNOL", "ALLEMAND", "LV1", "LV2",
    "PHILOSOPHIE", "PHILO",
    "SES", "ECONOMIE",
    "NSI", "INFORMATIQUE",
    "EPS", "SPORT"]

  /** The canonical name a known subject is reported under. */
  function Canonical(subject: string): (c: string)
    ensures c != "MATHS" && c != "MATH" && c != "PC" && c != "HG" && c != "PHILO"
  {
    if subject == "MATHS" || subject == "MATH" then "MATHEMATIQUES"
    else if subject == "PC" || subject == "PHYSIQUE-CHIMIE" then "PHYSIQUE-CHIMIE"
    else if subject == "HG" || subject == "HISTOIRE-GEO" then "HISTOIRE-GEO"
    else if subject == "PHILO" then "PHILOSOPHIE"
    else subject
  }

  /** Canonical names of the listed subjects found in the upper-cased text, in list order. */
  function Mentioned(upperText: string, subjects: seq<string>): seq<string>
  {
    if |subjects| == 0 then []
    else
      var s := subjects[|subjects| - 1];
      Mentioned(upperText, subjects[..|subjects| - 1]) + if Contains(upperText, s) then [Canonical(s)] else []
  }

  /** `extractSubjects`: the loop over the known subjects pushing canonical names once. */
  method ExtractSubjects(text: string) returns (found: seq<string>)
    ensures found == Distinct(Mentioned(Upper(text), KNOWN_SUBJECTS))
  {
    found := CollectMentioned(Upper(text), KNOWN_SUBJECTS);
  }

  /** The body of that loop, over any list of subjects. */
  method CollectMentioned(upperText: string, subjects: seq<string>) returns (found: seq<string>)
    ensures found == Distinct(Mentioned(upperText, subjects))
  {
    found := [];
    for i := 0 to |subjects|
      invariant found == Distinct(Mentioned(upperText, subjects[..i]))
    {
      var subject := subjects[i];
      var hit := Contains(upperText, subject);
      CollectStep(upperText, subjects, i, found, hit);
      if hit {
        var canonical := Canonical(subject);
        if canonical !in found {
          found := found + [canonical];
        }
      }
    }
    assert subjects[..|subjects|] == subjects;
  }

  lemma CollectStep(upperText: string, subjects: seq<string>, i: nat, found: seq<string>, hit: bool)
    requires i < |subjects| && found == Distinct(Mentioned(upperText, subjects[..i]))
    requires hit == Contains(upperText, subjects[i])
    ensures Distinct(Mentioned(upperText, subjects[..i + 1])) ==
      if hit && Canonical(subjects[i]) !in found then found + [Canonical(subjects[i])] else found
  {
    var prefix, subject := subjects[..i], subjects[i];
    assert subjects[..i + 1] == prefix + [subject];
    assert (prefix + [subject])[..|prefix|] == prefix;
    var m := Mentioned(upperText, prefix);
    DistinctMembers(m);
    if hit {
      DistinctSnoc(m, Canonical(subject));
    } else {
      assert Mentioned(upperText, prefix + [subject]) == m;
    }
  }

  /**
   * The found subjects are distinct canonical names, and a name is found iff
   * some known subject with that canonical name occurs in the upper-cased text.
   */
  lemma FoundSubjects(text: string)
    ensures NoDuplicates(Distinct(Mentioned(Upper(text), KNOWN_SUBJECTS)))
    ensures forall c :: c in Distinct(Mentioned(Upper(text), KNOWN_SUBJECTS)) <==>
      exists i :: 0 <= i < |KNOWN_SUBJECTS| && Contains(Upper(text), KNOWN_SUBJECTS[i]) && Canonical(KNOWN_SUBJECTS[i]) == c
  {
    DistinctMembers(Mentioned(Upper(text), KNOWN_SUBJECTS));
    MentionedMembers(Upper(text), KNOWN_SUBJECTS);
  }

  lemma {:induction false} MentionedMembers(upperText: string, subjects: seq<string>)
    ensures forall c :: c in Mentioned(upperText, subjects) <==>
      exists i :: 0 <= i < |subjects| && Contains(upperText, subjects[i]) && Canonical(subjects[i]) == c
  {
    if |subjects| > 0 {
      var prefix := subjects[..|subjects| - 1];
      MentionedMembers(upperText, prefix);
      assert forall i :: 0 <= i < |prefix| ==> prefix[i] == subjects[i];
    }
  }

  // ---------------------------------------------------------------------------
  // Time slots: /\b(\d{1,2})[h:](\d{2})?\b/gi

  datatype TimeMatch = TimeMatch(hours: string, minutes: Option<string>, end: nat)

  predicate IsHourSeparator(c: char)
  {
    c == 'h' || c == 'H' || c == ':'
  }

  /** The rest of a time match once the hour digits `s[start..hoursEnd]` are chosen. */
  function TimeAfterHours(s: string, start: nat, hoursEnd: nat): (r: Option<TimeMatch>)
    requires start < hoursEnd <= |s|
    ensures r.Some? ==> hoursEnd < r.value.end <= |s| && r.value.hours == s[start..hoursEnd]
    ensures r.Some? && r.value.minutes.Some? ==> |r.value.minutes.value| == 2 && forall j :: 0 <= j < 2 ==> IsDigit(r.value.minutes.value[j])
  {
    if hoursEnd < |s| && IsHourSeparator(s[hoursEnd]) then
      var m := hoursEnd + 1;
      if DigitsAt(s, m, 2) && BoundaryAt(s, m + 2) then Some(TimeMatch(s[start..hoursEnd], Some(s[m..m + 2]), m + 2))
      else if BoundaryAt(s, m) then Some(TimeMatch(s[start..hoursEnd], None, m))
      else None
    else None
  }

  /** A match starting at `i`: two hour digits are tried before one. */
  function TimeMatchAt(s: string, i: nat): (r: Option<TimeMatch>)
    ensures r.Some? ==> i < r.value.end <= |s|
    ensures r.Some? ==> 1 <= |r.value.hours| <= 2 && forall j :: 0 <= j < |r.value.hours| ==> IsDigit(r.value.hours[j])
    ensures r.Some? && r.value.minutes.Some? ==> |r.value.minutes.value| == 2 && forall j :: 0 <= j < 2 ==> IsDigit(r.value.minutes.value[j])
  {
    if !DigitsAt(s, i, 1) || !BoundaryAt(s, i) then None
    else
      var two := if DigitsAt(s, i, 2) then TimeAfterHours(s, i, i + 2) else None;
      if two.Some? then two else TimeAfterHours(s, i, i + 1)
  }

  /** `${hours.padStart(2, '0')}:${minutes || '00'}`. */
  function FormatTime(m: TimeMatch): string
  {
    PadZero(m.hours, 2) + ":" + m.minutes.GetOr("00")
  }

  /** Hours are zero-padded to two digits and missing minutes become "00". */
  lemma FormattedTime(m: TimeMatch)
    requires 1 <= |m.hours| <= 2 && (m.minutes.Some? ==> |m.minutes.value| == 2)
    ensures var t := FormatTime(m);
      |t| == 5 && t[2] == ':'
      && (|m.hours| == 1 ==> t[0] == '0' && t[1] == m.hours[0])
      && (|m.hours| == 2 ==> t[..2] == m.hours)
      && t[3..] == m.minutes.GetOr("00")
  {
    var h := PadZero(m.hours, 2);
    var mm := m.minutes.GetOr("00");
    assert |mm| == 2;
    var t := h + ":" + mm;
    assert |h| == 2;
    assert t[..2] == h;
    assert t[3..] == mm;
    assert h[2 - |m.hours|..] == m.hours;
  }

  /** An `HH:MM` string: five characters, digits around a colon. */
  predicate IsClockTime(t: string)
  {
    |t| == 5 && t[2] == ':' && IsDigit(t[0]) && IsDigit(t[1]) && IsDigit(t[3]) && IsDigit(t[4])
  }

  /** The times found from position `i` on. */
  function TimesFrom(s: string, i: nat): (r: seq<string>)
    ensures forall k :: 0 <= k < |r| ==> IsClockTime(r[k])
    decreases |s| - i
  {
    if i >= |s| then []
    else
      match TimeMatchAt(s, i)
      case Some(m) => [FormatTime(m)] + TimesFrom(s, m.end)
      case None => TimesFrom(s, i + 1)
  }

  datatype Slot = Slot(start: string, end: string)

  const DEFAULT_SLOT := Slot("08:00", "12:00")

  /** The `while ((match = pattern.exec(text)) !== null)` loop collecting the times. */
  method CollectTimes(text: string) returns (times: seq<string>)
    ensures times == TimesFrom(text, 0)
  {
    times := [];
    var lastIndex := 0;
    while lastIndex < |text|
      invariant times + TimesFrom(text, lastIndex) == TimesFrom(text, 0)
      decreases |text| - lastIndex
    {
      var m := TimeMatchAt(text, lastIndex);
      if m.Some? {
        times := times + [FormatTime(m.value)];
        lastIndex := m.value.end;
      } else {
        lastIndex := lastIndex + 1;
      }
    }
  }

  /**
   * `extractTimeSlots`: consecutive times paired as start and end (a trailing
   * unpaired time is dropped), or the default 08:00–12:00 slot when there is
   * no pair.
   */
  method ExtractTimeSlots(text: string) returns (slots: seq<Slot>)
    ensures |slots| >= 1
    ensures |TimesFrom(text, 0)| >= 2 ==>
      |slots| == |TimesFrom(text, 0)| / 2
      && forall k :: 0 <= k < |slots| ==> slots[k] == Slot(TimesFrom(text, 0)[2 * k], TimesFrom(text, 0)[2 * k + 1])
    ensures |TimesFrom(text, 0)| < 2 ==> slots == [DEFAULT_SLOT]
    ensures forall k :: 0 <= k < |slots| ==> IsClockTime(slots[k].start) && IsClockTime(slots[k].end)
  {
    var times := CollectTimes(text);
    slots := PairTimes(times);
    if |slots| == 0 {
      slots := slots + [DEFAULT_SLOT];
    }
  }

  /** The loop of `extractTimeSlots` pairing each time at an even index with the next one. */
  method PairTimes(times: seq<string>) returns (slots: seq<Slot>)
    ensures |slots| == |times| / 2
    ensures forall k :: 0 <= k < |slots| ==> slots[k] == Slot(times[2 * k], times[2 * k + 1])
  {
    slots := [];
    var i := 0;
    while i < |times| - 1
      invariant 0 <= i <= |times| && i % 2 == 0
      invariant |slots| == i / 2
      invariant forall k :: 0 <= k < |slots| ==> slots[k] == Slot(times[2 * k], times[2 * k + 1])
      decreases |times| - i
    {
      slots := slots + [Slot(times[i], times[i + 1])];
      i := i + 2;
    }
  }

  // ---------------------------------------------------------------------------
  // Main date

  /** The month alternatives of the text-date pattern, in the order they are tried. */
  const MONTH_NAMES: seq<string> := [
    "janvier", "février", "fevrier", "mars", "avril", "mai", "juin", "juillet",
    "août", "aout", "septembre", "octobre", "novembre", "décembre", "decembre"]

  /** The two-digit month each alternative stands for. */
  const MONTH_NUMBERS: seq<string> := [
    "01", "02", "02", "03", "04", "05", "06", "07", "08", "08", "09", "10", "11", "12", "12"]

  /** `MONTHS_FR`. */
  const MONTHS_FR: map<string, string> := map[
    "janvier" := "01", "février" := "02", "fevrier" := "02", "mars" := "03", "avril" := "04",
    "mai" := "05", "juin" := "06", "juillet" := "07", "août" := "08", "aout" := "08",
    "septembre" := "09", "octobre" := "10", "novembre" := "11", "décembre" := "12", "decembre" := "12"]

  /**
   * One lower-case Latin-1 letter after canonical decomposition with its
   * combining marks removed (`normalize("NFD").replace(/[\u0300-\u036f]/g, "")`).
   */
  function StripAccentChar(c: char): char
  {
    if c in "àáâãäå" then 'a'
    else if c == 'ç' then 'c'
    else if c in "èéêë" then 'e'
    else if c in "ìíîï" then 'i'
    else if c == 'ñ' then 'n'
    else if c in "òóôõö" then 'o'
    else if c in "ùúûü" then 'u'
    else if c in "ýÿ" then 'y'
    else c
  }

  function StripAccents(s: string): (r: string)
    ensures |r| == |s|
    ensures forall i :: 0 <= i < |s| ==> r[i] == StripAccentChar(s[i])
  {
    seq(|s|, i requires 0 <= i < |s| => StripAccentChar(s[i]))
  }

  /** `MONTHS_FR[name.toLowerCase() without accents] || '01'`. */
  function MonthNumber(name: string): string
  {
    var key := StripAccents(Lower(name));
    if key in MONTHS_FR then MONTHS_FR[key] else "01"
  }

  /** `name` occurs at `p` when upper and lower case are not told apart (the `i` flag). */
  predicate MatchesAt(s: string, p: int, name: string)
  {
    0 <= p && p + |name| <= |s| && Upper(s[p..p + |name|]) == Upper(name)
  }

  /** The first month alternative, from the `k`-th on, that matches at `p`. */
  function MonthAlternative(s: string, p: int, k: nat): (r: Option<nat>)
    ensures r.Some? ==> k <= r.value < |MONTH_NAMES| && MatchesAt(s, p, MONTH_NAMES[r.value])
    decreases |MONTH_NAMES| - k
  {
    if k >= |MONTH_NAMES| then None
    else if MatchesAt(s, p, MONTH_NAMES[k]) then Some(k)
    else MonthAlternative(s, p, k + 1)
  }

  /** The end of the run of white space starting at `p` (`\s*`, taken greedily). */
  function SpaceRunEnd(s: string, p: nat): (q: nat)
    requires p <= |s|
    ensures p <= q <= |s|
    ensures forall j :: p <= j < q ==> IsSpace(s[j])
    ensures q < |s| ==> !IsSpace(s[q])
    decreases |s| - p
  {
    if p < |s| && IsSpace(s[p]) then SpaceRunEnd(s, p + 1) else p
  }

  /** A match of `(\d{1,2})\s+(month)(?:\s+(\d{4}))?`. */
  datatype TextDate = TextDate(day: string, monthStart: nat, monthIndex: nat, year: Option<string>)

  predicate DigitString(d: string)
  {
    forall j :: 0 <= j < |d| ==> IsDigit(d[j])
  }

  /** A well-formed text-date match within `s`. */
  predicate TextDateIn(s: string, m: TextDate)
  {
    1 <= |m.day| <= 2 && DigitString(m.day)
    && m.monthIndex < |MONTH_NAMES| && MatchesAt(s, m.monthStart, MONTH_NAMES[m.monthIndex])
    && (m.year.Some? ==> |m.year.value| == 4 && DigitString(m.year.value))
  }

  /**
   * The rest of a text date once the day digits `s[start..dayEnd]` are chosen.
   * Month names begin with a letter, so only the longest run of white space
   * before them can succeed, and likewise before the year.
   */
  function TextDateAfterDay(s: string, start: nat, dayEnd: nat): (r: Option<TextDate>)
    requires start < dayEnd <= |s| && dayEnd - start <= 2 && DigitsAt(s, start, dayEnd - start)
    ensures r.Some? ==> TextDateIn(s, r.value) && r.value.day == s[start..dayEnd]
  {
    var q := SpaceRunEnd(s, dayEnd);
    if q == dayEnd then None
    else
      match MonthAlternative(s, q, 0)
      case None => None
      case Some(k) =>
        var afterMonth := q + |MONTH_NAMES[k]|;
        var y := SpaceRunEnd(s, afterMonth);
        var year := if y > afterMonth && DigitsAt(s, y, 4) then Some(s[y..y + 4]) else None;
        Some(TextDate(s[start..dayEnd], q, k, year))
  }

  /** A text date starting at `i`: two day digits are tried before one. */
  function TextDateAt(s: string, i: nat): (r: Option<TextDate>)
    ensures r.Some? ==> TextDateIn(s, r.value)
  {
    if !DigitsAt(s, i, 1) then None
    else
      var two := if DigitsAt(s, i, 2) then TextDateAfterDay(s, i, i + 2) else None;
      if two.Some? then two else TextDateAfterDay(s, i, i + 1)
  }

  /** The leftmost text date at or after `i`. */
  function TextDateFrom(s: string, i: nat): (r: Option<TextDate>)
    ensures r.Some? ==> TextDateIn(s, r.value)
    decreases |s| - i
  {
    if i >= |s| then None
    else if TextDateAt(s, i).Some? then TextDateAt(s, i)
    else TextDateFrom(s, i + 1)
  }

  /** A match of `(\d{1,2})[/-](\d{1,2})[/-](\d{2,4})`. */
  datatype NumericDate = NumericDate(day: string, month: string, year: string)

  predicate IsDateSeparator(c: char)
  {
    c == '/' || c == '-'
  }

  predicate NumericDateIn(m: NumericDate)
  {
    1 <= |m.day| <= 2 && DigitString(m.day)
    && 1 <= |m.month| <= 2 && DigitString(m.month)
    && 2 <= |m.year| <= 4 && DigitString(m.year)
  }

  /** `\d{2,4}` at `p`, as many digits as possible. */
  function YearDigits(s: string, p: nat): (r: Option<string>)
    ensures r.Some? ==> 2 <= |r.value| <= 4 && DigitString(r.value)
  {
    if DigitsAt(s, p, 4) then Some(s[p..p + 4])
    else if DigitsAt(s, p, 3) then Some(s[p..p + 3])
    else if DigitsAt(s, p, 2) then Some(s[p..p + 2])
    else None
  }

  function NumericAfterMonth(s: string, day: string, m: nat, monthEnd: nat): (r: Option<NumericDate>)
    requires m < monthEnd <= |s| && monthEnd - m <= 2 && DigitsAt(s, m, monthEnd - m)
    requires 1 <= |day| <= 2 && DigitString(day)
    ensures r.Some? ==> NumericDateIn(r.value)
  {
    if monthEnd < |s| && IsDateSeparator(s[monthEnd]) then
      match YearDigits(s, monthEnd + 1)
      case Some(y) => Some(NumericDate(day, s[m..monthEnd], y))
      case None => None
    else None
  }

  function NumericAfterDay(s: string, start: nat, dayEnd: nat): (r: Option<NumericDate>)
    requires start < dayEnd <= |s| && dayEnd - start <= 2 && DigitsAt(s, start, dayEnd - start)
    ensures r.Some? ==> NumericDateIn(r.value)
  {
    if dayEnd < |s| && IsDateSeparator(s[dayEnd]) then
      var m := dayEnd + 1;
      var day := s[start..dayEnd];
      var two := if DigitsAt(s, m, 2) then NumericAfterMonth(s, day, m, m + 2) else None;
      if two.Some? then two
      else if DigitsAt(s, m, 1) then NumericAfterMonth(s, day, m, m + 1)
      else None
    else None
  }

  function NumericAt(s: string, i: nat): (r: Option<NumericDate>)
    ensures r.Some? ==> NumericDateIn(r.value)
  {
    if !DigitsAt(s, i, 1) then None
    else
      var two := if DigitsAt(s, i, 2) then NumericAfterDay(s, i, i + 2) else None;
      if two.Some? then two else NumericAfterDay(s, i, i + 1)
  }

  function NumericFrom(s: string, i: nat): (r: Option<NumericDate>)
    ensures r.Some? ==> NumericDateIn(r.value)
    decreases |s| - i
  {
    if i >= |s| then None
    else if NumericAt(s, i).Some? then NumericAt(s, i)
    else NumericFrom(s, i + 1)
  }

  /** `${year}-${month}-${day}`. */
  function Dashed(year: string, month: string, day: string): string
  {
    year + "-" + month + "-" + day
  }

  /** The date string built from a text date; `currentYear` stands for `new Date().getFullYear()`. */
  function TextDateString(s: string, m: TextDate, currentYear: int): string
    requires TextDateIn(s, m)
  {
    var name := MONTH_NAMES[m.monthIndex];
    Dashed(m.year.GetOr(IntToString(currentYear)), MonthNumber(s[m.monthStart..m.monthStart + |name|]),
      PadZero(m.day, 2))
  }

  /** The date string built from a numeric date: a two-digit year gets the prefix "20". */
  function NumericDateString(m: NumericDate): string
  {
    Dashed(if |m.year| == 2 then "20" + m.year else m.year, PadZero(m.month, 2), PadZero(m.day, 2))
  }

  /**
   * `extractMainDate`: the first text date, else the first numeric date, else
   * today (`today` is the day number of the current UTC date).
   */
  function ExtractMainDate(text: string, currentYear: int, today: int): (r: string)
    ensures |r| > 0
  {
    match TextDateFrom(text, 0)
    case Some(m) => TextDateString(text, m, currentYear)
    case None =>
      match NumericFrom(text, 0)
      case Some(n) => NumericDateString(n)
      case None => FormatDay(today)
  }

  /** The lowered, accent-free spelling of each month alternative. */
  const MONTH_KEYS: seq<string> := [
    "janvier", "fevrier", "fevrier", "mars", "avril", "mai", "juin", "juillet",
    "aout", "aout", "septembre", "octobre", "novembre", "decembre", "decembre"]

  lemma MonthKeys(k: nat)
    requires k < |MONTH_NAMES|
    ensures StripAccents(Lower(MONTH_NAMES[k])) == MONTH_KEYS[k]
  {
    if k == 1 {
      AccentedKey("février", "fevrier", 1);
    } else if k == 8 {
      AccentedKey("août", "aout", 2);
    } else if k == 13 {
      AccentedKey("décembre", "decembre", 1);
    } else {
      PlainMonthKeys(k);
    }
  }

  lemma PlainMonthKeys(k: nat)
    requires k < |MONTH_NAMES| && k != 1 && k != 8 && k != 13
    ensures StripAccents(Lower(MONTH_NAMES[k])) == MONTH_KEYS[k]
  {
    if k == 0 { PlainKey("janvier"); }
    else if k == 2 { PlainKey("fevrier"); }
    else if k == 3 { PlainKey("mars"); }
    else if k == 4 { PlainKey("avril"); }
    else if k == 5 { PlainKey("mai"); }
    else if k == 6 { PlainKey("juin"); }
    else if k == 7 { PlainKey("juillet"); }
    else if k == 9 { PlainKey("aout"); }
    else if k == 10 { PlainKey("septembre"); }
    else if k == 11 { PlainKey("octobre"); }
    else if k == 12 { PlainKey("novembre"); }
    else { PlainKey("decembre"); }
  }

  /** A word of plain lower-case letters is its own key. */
  lemma PlainKey(s: string)
    requires forall j :: 0 <= j < |s| ==> 'a' <= s[j] <= 'z'
    ensures StripAccents(Lower(s)) == s
  {
    assert forall j :: 0 <= j < |s| ==> StripAccentChar(LowerChar(s[j])) == s[j];
  }

  /** A lower-case word with one accented letter at `p` has that letter's base in its key. */
  lemma AccentedKey(s: string, key: string, p: nat)
    requires |s| == |key| && p < |s|
    requires forall j :: 0 <= j < |s| && j != p ==> 'a' <= s[j] <= 'z' && key[j] == s[j]
    requires LowerChar(s[p]) == s[p] && StripAccentChar(s[p]) == key[p]
    ensures StripAccents(Lower(s)) == key
  {
    assert forall j :: 0 <= j < |s| ==> StripAccentChar(LowerChar(s[j])) == key[j];
  }

  /**
   * Whatever the case of the matched month name, its accent-free lower-case
   * form is a key of `MONTHS_FR`: the '01' fallback is never taken.
   */
  lemma MonthLookupNeverFallsBack(s: string, p: int, k: nat)
    requires k < |MONTH_NAMES| && MatchesAt(s, p, MONTH_NAMES[k])
    ensures StripAccents(Lower(s[p..p + |MONTH_NAMES[k]|])) in MONTHS_FR
    ensures MonthNumber(s[p..p + |MONTH_NAMES[k]|]) == MONTH_NUMBERS[k]
  {
    var t := s[p..p + |MONTH_NAMES[k]|];
    LowerOfUpper(t);
    LowerOfUpper(MONTH_NAMES[k]);
    assert Lower(t) == Lower(MONTH_NAMES[k]);
    MonthKeys(k);
    MonthTable(k);
  }

  lemma MonthTable(k: nat)
    requires k < |MONTH_KEYS|
    ensures MONTH_KEYS[k] in MONTHS_FR && MONTHS_FR[MONTH_KEYS[k]] == MONTH_NUMBERS[k]
  {
    if k < 5 {
      assert k == 0 || k == 1 || k == 2 || k == 3 || k == 4;
    } else if k < 10 {
      assert k == 5 || k == 6 || k == 7 || k == 8 || k == 9;
    } else {
      assert k == 10 || k == 11 || k == 12 || k == 13 || k == 14;
    }
  }

  /**
   * A text date gives `year-MM-DD`: the year written in the text or else the
   * current year, the month number of the matched name, the day zero-padded
   * to two digits.
   */
  lemma MainDateFromText(text: string, currentYear: int, today: int)
    requires TextDateFrom(text, 0).Some?
    ensures var m := TextDateFrom(text, 0).value;
      var day := PadZero(m.day, 2);
      ExtractMainDate(text, currentYear, today) ==
        Dashed(m.year.GetOr(IntToString(currentYear)), MONTH_NUMBERS[m.monthIndex], day)
      && |day| == 2 && day[2 - |m.day|..] == m.day && (|m.day| == 1 ==> day[0] == '0')
  {
    var m := TextDateFrom(text, 0).value;
    assert ExtractMainDate(text, currentYear, today) == TextDateString(text, m, currentYear);
    TextDateStringIs(text, m, currentYear);
  }

  /** A text date's string uses the month number of the matched alternative. */
  lemma TextDateStringIs(s: string, m: TextDate, currentYear: int)
    requires TextDateIn(s, m)
    ensures TextDateString(s, m, currentYear) ==
      Dashed(m.year.GetOr(IntToString(currentYear)), MONTH_NUMBERS[m.monthIndex], PadZero(m.day, 2))
  {
    MonthLookupNeverFallsBack(s, m.monthStart, m.monthIndex);
  }

  /**
   * Without a text date, a numeric date gives `year-MM-DD` with a two-digit
   * year prefixed by "20" and the day and month zero-padded.
   */
  lemma MainDateFromNumbers(text: string, currentYear: int, today: int)
    requires TextDateFrom(text, 0).None? && NumericFrom(text, 0).Some?
    ensures var n := NumericFrom(text, 0).value;
      ExtractMainDate(text, currentYear, today) == NumericDateString(n) && NumericDateShape(n)
  {
    NumericDateStringShape(NumericFrom(text, 0).value);
  }

  /**
   * The shape of a numeric date string: the year (a two-digit one prefixed by
   * "20"), a dash, the month on two digits, a dash, the day on two digits.
   */
  predicate NumericDateShape(n: NumericDate)
  {
    var r := NumericDateString(n);
    var y := if |n.year| == 2 then 4 else |n.year|;
    |r| == y + 6 && r[y] == '-' && r[y + 3] == '-'
    && r[..y] == (if |n.year| == 2 then "20" + n.year else n.year)
    && r[y + 1..y + 3] == PadZero(n.month, 2) && r[y + 4..] == PadZero(n.day, 2)
  }

  lemma NumericDateStringShape(n: NumericDate)
    requires NumericDateIn(n)
    ensures NumericDateShape(n)
  {
    var yearPart := if |n.year| == 2 then "20" + n.year else n.year;
    var mm, dd := PadZero(n.month, 2), PadZero(n.day, 2);
    assert NumericDateString(n) == Dashed(yearPart, mm, dd);
    assert |yearPart| == if |n.year| == 2 then 4 else |n.year|;
    DashedParts(yearPart, mm, dd);
  }

  lemma DashedParts(y: string, m: string, d: string)
    requires |m| == 2 && |d| == 2
    ensures var r := Dashed(y, m, d);
      |r| == |y| + 6 && r[|y|] == '-' && r[|y| + 3] == '-'
      && r[..|y|] == y && r[|y| + 1..|y| + 3] == m && r[|y| + 4..] == d
  {
    var r := Dashed(y, m, d);
    assert r == y + ("-" + m + "-" + d);
    assert r[..|y|] == y;
  }

  /** With no date in the text, today's date is used. */
  lemma MainDateDefault(text: string, currentYear: int, today: int)
    requires TextDateFrom(text, 0).None? && NumericFrom(text, 0).None?
    ensures ExtractMainDate(text, currentYear, today) == FormatDay(today)
  {
  }

  // ---------------------------------------------------------------------------
  // Proximity map

  /** `subjects.filter(s => upperLine.includes(s))`. */
  function LineSubjects(upperLine: string, subjects: seq<string>): seq<string>
  {
    if |subjects| == 0 then []
    else
      var last := subjects[|subjects| - 1];
      LineSubjects(upperLine, subjects[..|subjects| - 1]) + if Contains(upperLine, last) then [last] else []
  }

  lemma {:induction false} LineSubjectsMembers(upperLine: string, subjects: seq<string>)
    ensures forall x :: x in LineSubjects(upperLine, subjects) <==> x in subjects && Contains(upperLine, x)
  {
    if |subjects| > 0 {
      var prefix := subjects[..|subjects| - 1];
      LineSubjectsMembers(upperLine, prefix);
      assert subjects == prefix + [subjects[|subjects| - 1]];
    }
  }

  /** The upper-cased class matches of one line: the keys it contributes. */
  function LineKeys(line: string): seq<string>
  {
    Map(ClassMatches(line), Upper)
  }

  /** One class occurrence on a line, with the subjects of that line. */
  datatype Link = Link(key: string, subjects: seq<string>)

  function LinkKey(l: Link): string
  {
    l.key
  }

  /** The links of one line: each of its class keys, in order, with the same subjects. */
  function LinksOf(keys: seq<string>, subjects: seq<string>): (r: seq<Link>)
    ensures |r| == |keys|
    ensures forall i :: 0 <= i < |keys| ==> r[i] == Link(keys[i], subjects)
  {
    seq(|keys|, i requires 0 <= i < |keys| => Link(keys[i], subjects))
  }

  /** All links of the lines, line after line. */
  function AllLinks(lines: seq<string>, subjects: seq<string>): seq<Link>
  {
    if |lines| == 0 then []
    else
      var last := lines[|lines| - 1];
      AllLinks(lines[..|lines| - 1], subjects) + LinksOf(LineKeys(last), LineSubjects(Upper(last), subjects))
  }

  /** The subjects linked to `k`, with repetitions, in the order they were added. */
  function LinkedTo(links: seq<Link>, k: string): seq<string>
  {
    if |links| == 0 then []
    else
      var last := links[|links| - 1];
      LinkedTo(links[..|links| - 1], k) + if last.key == k then last.subjects else []
  }

  /**
   * The proximity map after the links `links`: the keys in order of first
   * appearance, and for each key its linked subjects without repetition (a
   * JavaScript Set keeps the order of first insertion).
   */
  ghost predicate Proximity(keys: seq<string>, m: map<string, seq<string>>, links: seq<Link>)
  {
    keys == Distinct(Map(links, LinkKey)) && SameKeys(m, keys) && LinkedValues(m, links)
  }

  ghost predicate SameKeys(m: map<string, seq<string>>, keys: seq<string>)
  {
    forall k :: k in m <==> k in keys
  }

  ghost predicate LinkedValues(m: map<string, seq<string>>, links: seq<Link>)
  {
    forall k :: k in m ==> m[k] == Distinct(LinkedTo(links, k))
  }

  /** `lineSubjects.forEach(s => set.add(s))`. */
  method AddSubjects(d: seq<string>, ghost prior: seq<string>, subjects: seq<string>) returns (r: seq<string>)
    requires d == Distinct(prior)
    ensures r == Distinct(prior + subjects)
  {
    r := d;
    assert prior + subjects[..0] == prior;
    for i := 0 to |subjects|
      invariant r == Distinct(prior + subjects[..i])
    {
      var x := subjects[i];
      AddSubjectStep(prior, subjects, i, r);
      if x !in r {
        r := r + [x];
      }
    }
    assert subjects[..|subjects|] == subjects;
  }

  lemma AddSubjectStep(prior: seq<string>, subjects: seq<string>, i: nat, r: seq<string>)
    requires i < |subjects| && r == Distinct(prior + subjects[..i])
    ensures (if subjects[i] in r then r else r + [subjects[i]]) == Distinct(prior + subjects[..i + 1])
  {
    var x := subjects[i];
    assert prior + subjects[..i + 1] == (prior + subjects[..i]) + [x];
    DistinctSnoc(prior + subjects[..i], x);
    DistinctMembers(prior + subjects[..i]);
  }

  lemma {:induction false} LinkedToAbsent(links: seq<Link>, k: string)
    requires k !in Map(links, LinkKey)
    ensures LinkedTo(links, k) == []
  {
    if |links| > 0 {
      var prefix := links[..|links| - 1];
      assert links[|links| - 1].key == Map(links, LinkKey)[|links| - 1];
      assert forall i :: 0 <= i < |prefix| ==> Map(prefix, LinkKey)[i] == Map(links, LinkKey)[i];
      LinkedToAbsent(prefix, k);
    }
  }

  /** One class occurrence: create the key's set if needed, then add the line's subjects to it. */
  method AddLink(keys: seq<string>, m: map<string, seq<string>>, ghost links: seq<Link>, link: Link)
    returns (keys': seq<string>, m': map<string, seq<string>>)
    requires Proximity(keys, m, links)
    ensures Proximity(keys', m', links + [link])
  {
    var k := link.key;
    var current := if k in m then m[k] else [];
    ghost var before := LinkedTo(links, k);
    if k !in m {
      DistinctMembers(Map(links, LinkKey));
      LinkedToAbsent(links, k);
    }
    var updated := AddSubjects(current, before, link.subjects);
    m' := m[k := updated];
    keys' := if k in m then keys else keys + [k];
    ProximityStep(keys, m, links, link, updated);
  }

  lemma ProximityStep(keys: seq<string>, m: map<string, seq<string>>, links: seq<Link>, link: Link, updated: seq<string>)
    requires Proximity(keys, m, links)
    requires updated == Distinct(LinkedTo(links, link.key) + link.subjects)
    ensures Proximity(if link.key in m then keys else keys + [link.key], m[link.key := updated], links + [link])
  {
    KeysStep(keys, m, links, link, updated);
    LinkedValuesStep(m, links, link, updated);
  }

  lemma KeysStep(keys: seq<string>, m: map<string, seq<string>>, links: seq<Link>, link: Link, updated: seq<string>)
    requires keys == Distinct(Map(links, LinkKey)) && SameKeys(m, keys)
    ensures var keys' := if link.key in m then keys else keys + [link.key];
      keys' == Distinct(Map(links + [link], LinkKey)) && SameKeys(m[link.key := updated], keys')
  {
    var k := link.key;
    MapSnoc(links, link, LinkKey);
    DistinctSnoc(Map(links, LinkKey), k);
    DistinctMembers(Map(links, LinkKey));
  }

  lemma LinkedValuesStep(m: map<string, seq<string>>, links: seq<Link>, link: Link, updated: seq<string>)
    requires LinkedValues(m, links)
    requires updated == Distinct(LinkedTo(links, link.key) + link.subjects)
    ensures LinkedValues(m[link.key := updated], links + [link])
  {
    var k := link.key;
    var m' := m[k := updated];
    var after := links + [link];
    assert after[..|links|] == links;
    forall j | j in m'
      ensures m'[j] == Distinct(LinkedTo(after, j))
    {
      assert LinkedTo(after, j) == LinkedTo(links, j) + if j == k then link.subjects else [];
      if j != k {
        assert LinkedTo(after, j) == LinkedTo(links, j);
      }
    }
  }

  lemma LinksOfSnoc(keys: seq<string>, x: string, subjects: seq<string>)
    ensures LinksOf(keys + [x], subjects) == LinksOf(keys, subjects) + [Link(x, subjects)]
  {
  }

  /** The class occurrences of one line, in order. */
  method AddLine(keys: seq<string>, m: map<string, seq<string>>, ghost done: seq<Link>,
                 lineKeys: seq<string>, lineSubjects: seq<string>)
    returns (keys': seq<string>, m': map<string, seq<string>>)
    requires Proximity(keys, m, done)
    ensures Proximity(keys', m', done + LinksOf(lineKeys, lineSubjects))
  {
    keys', m' := keys, m;
    ghost var links := done;
    LinksOfPrefix(done, lineKeys, lineSubjects, 0);
    for j := 0 to |lineKeys|
      invariant links == done + LinksOf(lineKeys[..j], lineSubjects)
      invariant Proximity(keys', m', links)
    {
      keys', m' := AddLink(keys', m', links, Link(lineKeys[j], lineSubjects));
      LinksOfPrefix(done, lineKeys, lineSubjects, j);
      links := links + [Link(lineKeys[j], lineSubjects)];
    }
    assert lineKeys[..|lineKeys|] == lineKeys;
  }

  lemma LinksOfPrefix(done: seq<Link>, keys: seq<string>, subjects: seq<string>, j: nat)
    requires j <= |keys|
    ensures j == 0 ==> done + LinksOf(keys[..j], subjects) == done
    ensures j < |keys| ==>
      done + LinksOf(keys[..j + 1], subjects) == done + LinksOf(keys[..j], subjects) + [Link(keys[j], subjects)]
  {
    if j < |keys| {
      assert keys[..j + 1] == keys[..j] + [keys[j]];
      LinksOfSnoc(keys[..j], keys[j], subjects);
    }
  }

  /** `buildProximityMap`: the keys in insertion order and the map itself. */
  method BuildProximityMap(lines: seq<string>, subjects: seq<string>)
    returns (keys: seq<string>, m: map<string, seq<string>>)
    ensures Proximity(keys, m, AllLinks(lines, subjects))
  {
    keys, m := [], map[];
    for i := 0 to |lines|
      invariant Proximity(keys, m, AllLinks(lines[..i], subjects))
    {
      var line := lines[i];
      keys, m := AddLine(keys, m, AllLinks(lines[..i], subjects), LineKeys(line), LineSubjects(Upper(line), subjects));
      assert lines[..i + 1][..i] == lines[..i];
    }
    assert lines[..|lines|] == lines;
  }

  lemma LinkedToAppend(a: seq<Link>, b: seq<Link>, k: string)
    ensures LinkedTo(a + b, k) == LinkedTo(a, k) + LinkedTo(b, k)
    decreases |b|
  {
    if |b| == 0 {
      assert a + b == a;
    } else {
      var last := b[|b| - 1];
      assert (a + b)[..|a + b| - 1] == a + b[..|b| - 1];
      LinkedToAppend(a, b[..|b| - 1], k);
    }
  }

  lemma {:induction false} LinkedToLine(keys: seq<string>, subjects: seq<string>, k: string)
    ensures forall x :: x in LinkedTo(LinksOf(keys, subjects), k) <==> k in keys && x in subjects
  {
    if |keys| > 0 {
      var prefix := keys[..|keys| - 1];
      LinkedToLine(prefix, subjects, k);
      assert LinksOf(keys, subjects)[..|keys| - 1] == LinksOf(prefix, subjects);
      assert keys == prefix + [keys[|keys| - 1]];
    }
  }

  /** `k` is a class key of some line. */
  ghost predicate KeyOnSomeLine(lines: seq<string>, k: string)
  {
    exists i :: 0 <= i < |lines| && k in LineKeys(lines[i])
  }

  /** `x` is one of the subjects and appears on some line that mentions class `k`. */
  ghost predicate NearSomeLine(lines: seq<string>, subjects: seq<string>, k: string, x: string)
  {
    exists i :: 0 <= i < |lines| && k in LineKeys(lines[i]) && x in subjects && Contains(Upper(lines[i]), x)
  }

  lemma AllLinksMeaning(lines: seq<string>, subjects: seq<string>)
    ensures forall k :: k in Map(AllLinks(lines, subjects), LinkKey) <==> KeyOnSomeLine(lines, k)
    ensures forall k, x :: x in LinkedTo(AllLinks(lines, subjects), k) <==> NearSomeLine(lines, subjects, k, x)
  {
    AllLinksKeys(lines, subjects);
    AllLinksNear(lines, subjects);
  }

  lemma {:induction false} AllLinksKeys(lines: seq<string>, subjects: seq<string>)
    ensures forall k :: k in Map(AllLinks(lines, subjects), LinkKey) <==> KeyOnSomeLine(lines, k)
  {
    if |lines| > 0 {
      var prefix := lines[..|lines| - 1];
      var last := lines[|lines| - 1];
      var before := AllLinks(prefix, subjects);
      var here := LinksOf(LineKeys(last), LineSubjects(Upper(last), subjects));
      AllLinksKeys(prefix, subjects);
      assert Map(AllLinks(lines, subjects), LinkKey) == Map(before, LinkKey) + LineKeys(last);
      forall k
        ensures k in Map(AllLinks(lines, subjects), LinkKey) <==> KeyOnSomeLine(lines, k)
      {
        if KeyOnSomeLine(lines, k) {
          var i :| 0 <= i < |lines| && k in LineKeys(lines[i]);
          if i < |prefix| {
            assert prefix[i] == lines[i];
            assert KeyOnSomeLine(prefix, k);
          }
        }
        if KeyOnSomeLine(prefix, k) {
          var i :| 0 <= i < |prefix| && k in LineKeys(prefix[i]);
          assert lines[i] == prefix[i];
        }
      }
    }
  }

  lemma {:induction false} AllLinksNear(lines: seq<string>, subjects: seq<string>)
    ensures forall k, x :: x in LinkedTo(AllLinks(lines, subjects), k) <==> NearSomeLine(lines, subjects, k, x)
  {
    if |lines| > 0 {
      AllLinksNear(lines[..|lines| - 1], subjects);
      forall k, x
        ensures x in LinkedTo(AllLinks(lines, subjects), k) <==> NearSomeLine(lines, subjects, k, x)
      {
        NearStep(lines, subjects, k, x);
      }
    }
  }

  /** One more line links `k` to `x` exactly when that line mentions both. */
  lemma NearStep(lines: seq<string>, subjects: seq<string>, k: string, x: string)
    requires |lines| > 0
    requires x in LinkedTo(AllLinks(lines[..|lines| - 1], subjects), k) <==> NearSomeLine(lines[..|lines| - 1], subjects, k, x)
    ensures x in LinkedTo(AllLinks(lines, subjects), k) <==> NearSomeLine(lines, subjects, k, x)
  {
    LinkedToSnoc(lines, subjects, k, x);
    NearSomeLineSnoc(lines, subjects, k, x);
  }

  lemma LinkedToSnoc(lines: seq<string>, subjects: seq<string>, k: string, x: string)
    requires |lines| > 0
    ensures var last := lines[|lines| - 1];
      x in LinkedTo(AllLinks(lines, subjects), k) <==>
      x in LinkedTo(AllLinks(lines[..|lines| - 1], subjects), k) || (k in LineKeys(last) && x in subjects && Contains(Upper(last), x))
  {
    var last := lines[|lines| - 1];
    var before := AllLinks(lines[..|lines| - 1], subjects);
    var lineSubjects := LineSubjects(Upper(last), subjects);
    var here := LinksOf(LineKeys(last), lineSubjects);
    assert AllLinks(lines, subjects) == before + here;
    LinkedToAppend(before, here, k);
    LinkedToLine(LineKeys(last), lineSubjects, k);
    LineSubjectsMembers(Upper(last), subjects);
  }

  lemma NearSomeLineSnoc(lines: seq<string>, subjects: seq<string>, k: string, x: string)
    requires |lines| > 0
    ensures var last := lines[|lines| - 1];
      NearSomeLine(lines, subjects, k, x) <==>
      NearSomeLine(lines[..|lines| - 1], subjects, k, x) || (k in LineKeys(last) && x in subjects && Contains(Upper(last), x))
  {
    var prefix := lines[..|lines| - 1];
    var last := lines[|lines| - 1];
    if NearSomeLine(lines, subjects, k, x) {
      var i :| 0 <= i < |lines| && k in LineKeys(lines[i]) && x in subjects && Contains(Upper(lines[i]), x);
      if i < |prefix| {
        assert prefix[i] == lines[i];
        assert NearSomeLine(prefix, subjects, k, x);
      }
    }
    if NearSomeLine(prefix, subjects, k, x) {
      var i :| 0 <= i < |prefix| && k in LineKeys(prefix[i]) && x in subjects && Contains(Upper(prefix[i]), x);
      assert lines[i] == prefix[i];
    }
  }

  /**
   * The proximity map built from the lines: its keys are the upper-cased
   * classes of the lines, each once, and each key maps to the duplicate-free
   * subjects that appear on some line mentioning that class.
   */
  lemma ProximityMeaning(lines: seq<string>, subjects: seq<string>, keys: seq<string>, m: map<string, seq<string>>)
    requires Proximity(keys, m, AllLinks(lines, subjects))
    ensures NoDuplicates(keys)
    ensures forall k :: k in keys <==> KeyOnSomeLine(lines, k)
    ensures forall k :: k in m ==> NoDuplicates(m[k])
    ensures forall k, x :: k in m ==> (x in m[k] <==> NearSomeLine(lines, subjects, k, x))
  {
    AllLinksMeaning(lines, subjects);
    DistinctMembers(Map(AllLinks(lines, subjects), LinkKey));
    forall k | k in m
      ensures forall x :: x in m[k] <==> x in LinkedTo(AllLinks(lines, subjects), k)
    {
      DistinctMembers(LinkedTo(AllLinks(lines, subjects), k));
    }
  }

  // ---------------------------------------------------------------------------
  // Room: /\b(salle\s*)?([A-Z]?\d{2,3}[A-Z]?)\b/gi

  /** The end of `\d{2,3}[A-Z]?\b` from `q`, trying three digits before two and the letter before none. */
  function RoomDigitsEnd(s: string, q: nat): (r: Option<nat>)
    ensures r.Some? ==> q + 2 <= r.value <= |s| && DigitRun(s, q, r.value)
  {
    var three := if DigitsAt(s, q, 3) then RoomSuffixEnd(s, q + 3) else None;
    if three.Some? then three
    else if DigitsAt(s, q, 2) then RoomSuffixEnd(s, q + 2)
    else None
  }

  /** `s[q..e]` is two or three digits, then possibly one letter. */
  predicate DigitRun(s: string, q: nat, e: nat)
    requires q + 2 <= e <= |s|
  {
    var z := if IsAsciiLetter(s[e - 1]) then 1 else 0;
    2 <= e - z - q <= 3 && forall j :: q <= j < e - z ==> IsDigit(s[j])
  }

  /** `[A-Z]?\b` from `d`. */
  function RoomSuffixEnd(s: string, d: nat): (r: Option<nat>)
    requires d <= |s|
    ensures r.Some? ==> d <= r.value <= d + 1 && r.value <= |s| && BoundaryAt(s, r.value)
    ensures r.Some? && r.value == d + 1 ==> IsAsciiLetter(s[d])
  {
    if d < |s| && IsAsciiLetter(s[d]) && BoundaryAt(s, d + 1) then Some(d + 1)
    else if BoundaryAt(s, d) then Some(d)
    else None
  }

  /** A room code: an optional letter, two or three digits, an optional letter. */
  predicate IsRoomCode(c: string)
  {
    var a := if |c| > 0 && IsAsciiLetter(c[0]) then 1 else 0;
    var z := if |c| > a && IsAsciiLetter(c[|c| - 1]) then 1 else 0;
    2 <= |c| - a - z <= 3 && forall j :: a <= j < |c| - z ==> IsDigit(c[j])
  }

  /** The end of a room code `[A-Z]?\d{2,3}[A-Z]?\b` starting at `p`. */
  function RoomCodeEnd(s: string, p: nat): (r: Option<nat>)
    ensures r.Some? ==> p + 2 <= r.value <= |s| && IsRoomCode(s[p..r.value])
  {
    var lettered := if p < |s| && IsAsciiLetter(s[p]) then RoomDigitsEnd(s, p + 1) else None;
    if lettered.Some? then lettered else RoomDigitsEnd(s, p)
  }

  /** A room match at `i`: where its code starts and where the match ends. */
  datatype RoomMatch = RoomMatch(codeStart: nat, end: nat)

  function RoomAt(s: string, i: nat): (r: Option<RoomMatch>)
    ensures r.Some? ==> i <= r.value.codeStart && r.value.codeStart + 2 <= r.value.end <= |s|
    ensures r.Some? ==> IsRoomCode(s[r.value.codeStart..r.value.end])
  {
    if i > |s| || !BoundaryAt(s, i) then None
    else
      var afterWord :=
        if MatchesAt(s, i, "salle") then
          var q := SpaceRunEnd(s, i + 5);
          match RoomCodeEnd(s, q)
          case Some(e) => Some(RoomMatch(q, e))
          case None => None
        else None;
      if afterWord.Some? then afterWord
      else
        match RoomCodeEnd(s, i)
        case Some(e) => Some(RoomMatch(i, e))
        case None => None
  }

  /** No room match starts at a position from `i` up to, not including, `k`. */
  predicate NoRoomBetween(s: string, i: nat, k: nat)
  {
    forall j :: i <= j < k ==> RoomAt(s, j).None?
  }

  /** The first room match from position `i` on: the one `String.prototype.match` lists first. */
  function RoomFrom(s: string, i: nat): (r: Option<RoomMatch>)
    ensures r.Some? ==> r.value.codeStart + 2 <= r.value.end <= |s| && IsRoomCode(s[r.value.codeStart..r.value.end])
    ensures r.None? <==> NoRoomBetween(s, i, |s|)
    ensures r.Some? ==> exists k :: i <= k < |s| && RoomAt(s, k) == r && NoRoomBetween(s, i, k)
    decreases |s| - i
  {
    if i >= |s| then None
    else if RoomAt(s, i).Some? then RoomAt(s, i)
    else
      var r := RoomFrom(s, i + 1);
      NoRoomBefore(s, i, |s|);
      if r.Some? then
        var k :| i + 1 <= k < |s| && RoomAt(s, k) == r && NoRoomBetween(s, i + 1, k);
        NoRoomBefore(s, i, k);
        r
      else r
  }

  /** A position without a match extends a stretch without one. */
  lemma NoRoomBefore(s: string, i: nat, k: nat)
    requires RoomAt(s, i).None?
    ensures NoRoomBetween(s, i, k) <==> NoRoomBetween(s, i + 1, k)
  {
  }

  /**
   * `extractRoomNear`: the code of the first room match, without its
   * "salle" prefix and the white space after it, or '' when there is none.
   * The class and the subject it is given play no part in the search, so
   * every entry gets the same room.
   */
  function ExtractRoom(text: string): (r: string)
    ensures r == "" || IsRoomCode(r)
    ensures r == "" <==> NoRoomBetween(text, 0, |text|)
    ensures r != "" ==>
      exists k :: 0 <= k < |text| && NoRoomBetween(text, 0, k) && RoomAt(text, k).Some?
                  && r == text[RoomAt(text, k).value.codeStart..RoomAt(text, k).value.end]
  {
    match RoomFrom(text, 0)
    case Some(m) => text[m.codeStart..m.end]
    case None => ""
  }

  // ---------------------------------------------------------------------------
  // DST entries

  /**
   * One parsed DST.  `populationDetails` is `None` where the object has no
   * such property (the fallback entries); the random `id` is not modelled.
   */
  datatype DstEntry = DstEntry(
    dstDate: string,
    startTime: string,
    endTime: string,
    className: string,
    subject: string,
    professor: string,
    roomDetails: string,
    populationType: string,
    populationDetails: Option<string>,
    source: string)

  /** The fields shared by all entries of the proximity strategy. */
  function ProximityTemplate(date: string, slot: Slot, room: string): DstEntry
  {
    DstEntry(date, slot.start, slot.end, "", "", "", room, "ENTIERE", Some(""), "smart_import")
  }

  /** The fields shared by all entries of the cross-product fallback. */
  function FallbackTemplate(date: string): DstEntry
  {
    DstEntry(date, "08:00", "12:00", "", "", "", "", "ENTIERE", None, "smart_import")
  }

  /** The entry for one class and one subject. */
  function Stamp(template: DstEntry, cls: string, subject: string): DstEntry
  {
    template.(className := Upper(cls), subject := subject)
  }

  /** The entries of one class, one per subject in order. */
  function ClassEntries(cls: string, subjects: seq<string>, template: DstEntry): (r: seq<DstEntry>)
    ensures |r| == |subjects|
    ensures forall i :: 0 <= i < |subjects| ==> r[i] == Stamp(template, cls, subjects[i])
  {
    seq(|subjects|, i requires 0 <= i < |subjects| => Stamp(template, cls, subjects[i]))
  }

  /** The proximity entries: class after class in key order, each with its linked subjects. */
  function ProximityEntries(keys: seq<string>, links: seq<Link>, template: DstEntry): seq<DstEntry>
  {
    if |keys| == 0 then []
    else
      var k := keys[|keys| - 1];
      ProximityEntries(keys[..|keys| - 1], links, template) + ClassEntries(k, Distinct(LinkedTo(links, k)), template)
  }

  /** Every class with every subject. */
  function CrossProduct(classes: seq<string>, subjects: seq<string>, template: DstEntry): seq<DstEntry>
  {
    if |classes| == 0 then []
    else
      CrossProduct(classes[..|classes| - 1], subjects, template) + ClassEntries(classes[|classes| - 1], subjects, template)
  }

  predicate NotBlank(line: string)
  {
    !IsBlank(line)
  }

  /** `rawText.split(/\n/).filter(l => l.trim())`. */
  function TextLines(rawText: string): seq<string>
  {
    Filter(Split(rawText, '\n'), NotBlank)
  }

  /** The first slot `extractTimeSlots` returns. */
  function FirstSlot(text: string): Slot
  {
    var times := TimesFrom(text, 0);
    if |times| >= 2 then Slot(times[0], times[1]) else DEFAULT_SLOT
  }

  /** The subjects `extractSubjects` finds. */
  function FoundSubjectsOf(text: string): seq<string>
  {
    Distinct(Mentioned(Upper(text), KNOWN_SUBJECTS))
  }

  /** The entries of the proximity strategy for a whole text. */
  function ProximityEntriesOf(rawText: string, currentYear: int, today: int): seq<DstEntry>
  {
    var links := AllLinks(TextLines(rawText), FoundSubjectsOf(rawText));
    var date := ExtractMainDate(rawText, currentYear, today);
    ProximityEntries(Distinct(Map(links, LinkKey)), links, ProximityTemplate(date, FirstSlot(rawText), ExtractRoom(rawText)))
  }

  /** Emits the entries of one class. */
  method EmitClass(results: seq<DstEntry>, cls: string, subjects: seq<string>, template: DstEntry)
    returns (r: seq<DstEntry>)
    ensures r == results + ClassEntries(cls, subjects, template)
  {
    r := results;
    for j := 0 to |subjects|
      invariant r == results + ClassEntries(cls, subjects[..j], template)
    {
      r := r + [Stamp(template, cls, subjects[j])];
    }
    assert subjects[..|subjects|] == subjects;
  }

  /** `for (const [cls, subjects] of Object.entries(proximityMap)) for (const subject of subjects) results.push(…)`. */
  method EmitProximity(keys: seq<string>, m: map<string, seq<string>>, ghost links: seq<Link>, template: DstEntry)
    returns (results: seq<DstEntry>)
    requires forall i :: 0 <= i < |keys| ==> keys[i] in m && m[keys[i]] == Distinct(LinkedTo(links, keys[i]))
    ensures results == ProximityEntries(keys, links, template)
  {
    results := [];
    for i := 0 to |keys|
      invariant results == ProximityEntries(keys[..i], links, template)
    {
      results := EmitClass(results, keys[i], m[keys[i]], template);
      assert keys[..i + 1][..i] == keys[..i];
    }
    assert keys[..|keys|] == keys;
  }

  /** The fallback: `for (const cls of allClasses) for (const subject of allSubjects) results.push(…)`. */
  method EmitCrossProduct(classes: seq<string>, subjects: seq<string>, template: DstEntry)
    returns (results: seq<DstEntry>)
    ensures results == CrossProduct(classes, subjects, template)
  {
    results := [];
    for i := 0 to |classes|
      invariant results == CrossProduct(classes[..i], subjects, template)
    {
      results := EmitClass(results, classes[i], subjects, template);
      assert classes[..i + 1][..i] == classes[..i];
    }
    assert classes[..|classes|] == classes;
  }

  lemma ProximityLookup(keys: seq<string>, m: map<string, seq<string>>, links: seq<Link>)
    requires Proximity(keys, m, links)
    ensures forall i :: 0 <= i < |keys| ==> keys[i] in m && m[keys[i]] == Distinct(LinkedTo(links, keys[i]))
  {
  }

  /**
   * `parseSmartDST`: no entry without a class; otherwise one entry per
   * (class, subject) pair of the proximity map, and only when that yields
   * nothing and some subject was found, every class with every subject.
   * `currentYear` and `today` stand for the clock.
   */
  method ParseSmartDst(rawText: string, currentYear: int, today: int) returns (results: seq<DstEntry>)
    ensures ExtractClasses(rawText) == [] ==> results == []
    ensures ExtractClasses(rawText) != [] && ProximityEntriesOf(rawText, currentYear, today) != [] ==>
      results == ProximityEntriesOf(rawText, currentYear, today)
    ensures ExtractClasses(rawText) != [] && ProximityEntriesOf(rawText, currentYear, today) == [] ==>
      results == CrossProduct(ExtractClasses(rawText), FoundSubjectsOf(rawText),
                              FallbackTemplate(ExtractMainDate(rawText, currentYear, today)))
  {
    var lines := TextLines(rawText);
    // never empty, so `mainDate || today` is always `mainDate`
    var mainDate := ExtractMainDate(rawText, currentYear, today);
    var allClasses := ExtractClasses(rawText);
    var allSubjects := ExtractSubjects(rawText);
    // never empty, so `timeSlots[0]?.start || '08:00'` is always the first slot's start
    var timeSlots := ExtractTimeSlots(rawText);
    if |allClasses| == 0 {
      return [];
    }
    var keys, m := BuildProximityMap(lines, allSubjects);
    ghost var links := AllLinks(lines, allSubjects);
    ProximityLookup(keys, m, links);
    var template := ProximityTemplate(mainDate, timeSlots[0], ExtractRoom(rawText));
    results := EmitProximity(keys, m, links, template);
    if |results| == 0 && |allClasses| > 0 && |allSubjects| > 0 {
      results := EmitCrossProduct(allClasses, allSubjects, FallbackTemplate(mainDate));
    } else if |results| == 0 {
      CrossProductWithoutSubjects(allClasses, FallbackTemplate(mainDate));
    }
  }

  lemma {:induction false} CrossProductWithoutSubjects(classes: seq<string>, template: DstEntry)
    ensures CrossProduct(classes, [], template) == []
  {
    if |classes| > 0 {
      CrossProductWithoutSubjects(classes[..|classes| - 1], template);
    }
  }

  // ---------------------------------------------------------------------------
  // What the entries say

  /** `e` is the entry of class `k`, one of `keys`, and of a subject linked to `k`. */
  ghost predicate ProximityEntryOf(e: DstEntry, keys: seq<string>, links: seq<Link>, template: DstEntry)
  {
    exists k, x :: k in keys && x in LinkedTo(links, k) && e == Stamp(template, k, x)
  }

  /** The proximity entries are exactly the (class, linked subject) pairs of the map. */
  lemma {:induction false} ProximityEntriesMembers(keys: seq<string>, links: seq<Link>, template: DstEntry)
    ensures forall e :: e in ProximityEntries(keys, links, template) <==> ProximityEntryOf(e, keys, links, template)
  {
    if |keys| > 0 {
      var prefix := keys[..|keys| - 1];
      var k := keys[|keys| - 1];
      var d := Distinct(LinkedTo(links, k));
      ProximityEntriesMembers(prefix, links, template);
      DistinctMembers(LinkedTo(links, k));
      assert keys == prefix + [k];
      forall e
        ensures e in ProximityEntries(keys, links, template) <==> ProximityEntryOf(e, keys, links, template)
      {
        if e in ClassEntries(k, d, template) {
          var i :| 0 <= i < |d| && ClassEntries(k, d, template)[i] == e;
          assert d[i] in LinkedTo(links, k);
        }
        if ProximityEntryOf(e, keys, links, template) {
          var k', x :| k' in keys && x in LinkedTo(links, k') && e == Stamp(template, k', x);
          if k' == k {
            var i :| 0 <= i < |d| && d[i] == x;
            assert ClassEntries(k, d, template)[i] == e;
          } else {
            assert ProximityEntryOf(e, prefix, links, template);
          }
        }
      }
    }
  }

  /** Keys that are already upper case are told apart by their upper-cased names. */
  predicate UpperKeys(keys: seq<string>)
  {
    forall i :: 0 <= i < |keys| ==> Upper(keys[i]) == keys[i]
  }

  /** With distinct upper-case keys, no (class, subject) pair is emitted twice. */
  lemma {:induction false} ProximityEntriesDistinct(keys: seq<string>, links: seq<Link>, template: DstEntry)
    requires NoDuplicates(keys) && UpperKeys(keys)
    ensures NoDuplicates(ProximityEntries(keys, links, template))
  {
    if |keys| > 0 {
      var prefix := keys[..|keys| - 1];
      var k := keys[|keys| - 1];
      var d := Distinct(LinkedTo(links, k));
      var before := ProximityEntries(prefix, links, template);
      var here := ClassEntries(k, d, template);
      ProximityEntriesDistinct(prefix, links, template);
      ProximityEntriesMembers(prefix, links, template);
      forall i, j | 0 <= i < |before| && 0 <= j < |here|
        ensures before[i] != here[j]
      {
        assert ProximityEntryOf(before[i], prefix, links, template);
        var k', x :| k' in prefix && x in LinkedTo(links, k') && before[i] == Stamp(template, k', x);
        var n :| 0 <= n < |prefix| && prefix[n] == k';
        assert keys[n] == k';
      }
      assert NoDuplicates(here);
      NoDuplicatesConcat(before, here);
    }
  }

  lemma NoDuplicatesConcat<T>(a: seq<T>, b: seq<T>)
    requires NoDuplicates(a) && NoDuplicates(b)
    requires forall i, j :: 0 <= i < |a| && 0 <= j < |b| ==> a[i] != b[j]
    ensures NoDuplicates(a + b)
  {
    forall i, j | 0 <= i < j < |a + b|
      ensures (a + b)[i] != (a + b)[j]
    {
      if j < |a| {
      } else if i >= |a| {
        assert (a + b)[i] == b[i - |a|] && (a + b)[j] == b[j - |a|];
      } else {
        assert (a + b)[j] == b[j - |a|];
      }
    }
  }

  /** Every class with every subject, and nothing else. */
  lemma {:induction false} CrossProductMembers(classes: seq<string>, subjects: seq<string>, template: DstEntry)
    ensures forall e :: e in CrossProduct(classes, subjects, template) <==>
      exists c, x :: c in classes && x in subjects && e == Stamp(template, c, x)
  {
    if |classes| > 0 {
      var prefix := classes[..|classes| - 1];
      var c := classes[|classes| - 1];
      CrossProductMembers(prefix, subjects, template);
      assert classes == prefix + [c];
      forall e | exists c', x :: c' in classes && x in subjects && e == Stamp(template, c', x)
        ensures e in CrossProduct(classes, subjects, template)
      {
        var c', x :| c' in classes && x in subjects && e == Stamp(template, c', x);
        if c' == c {
          var i :| 0 <= i < |subjects| && subjects[i] == x;
          assert ClassEntries(c, subjects, template)[i] == e;
        }
      }
    }
  }

  /** An upper-cased class match is a class name. */
  lemma ClassMatchName(s: string, m: string)
    requires m in ClassMatches(s)
    ensures IsClassName(Upper(m)) && Upper(Upper(m)) == Upper(m)
  {
    ClassMatchesSound(s, 0);
    var k :| 0 <= k < |ClassMatches(s)| && ClassMatches(s)[k] == m;
    assert OccursFrom(s, 0, m);
    UpperIdempotent(m);
  }

  /** The keys of the proximity map are class names, already upper case. */
  lemma LinkKeysAreClassNames(lines: seq<string>, subjects: seq<string>)
    ensures forall k :: k in Map(AllLinks(lines, subjects), LinkKey) ==> IsClassName(k) && Upper(k) == k
  {
    AllLinksMeaning(lines, subjects);
    forall k | k in Map(AllLinks(lines, subjects), LinkKey)
      ensures IsClassName(k) && Upper(k) == k
    {
      assert KeyOnSomeLine(lines, k);
      var i :| 0 <= i < |lines| && k in LineKeys(lines[i]);
      var j :| 0 <= j < |LineKeys(lines[i])| && LineKeys(lines[i])[j] == k;
      ClassMatchName(lines[i], ClassMatches(lines[i])[j]);
    }
  }

  /** What every parsed entry says, whichever strategy produced it. */
  ghost predicate WellFormedEntry(e: DstEntry, date: string, subjects: seq<string>)
  {
    e.source == "smart_import" && e.populationType == "ENTIERE" && e.professor == ""
    && e.dstDate == date && |date| > 0
    && IsClassName(e.className) && e.subject in subjects
    && IsClockTime(e.startTime) && IsClockTime(e.endTime)
  }

  /**
   * The proximity entries of a text are one per (class, linked subject)
   * pair, never repeated, and each has an upper-case class name, a found
   * subject, the main date and the source 'smart_import'.
   */
  lemma ProximityEntriesOfText(rawText: string, currentYear: int, today: int)
    ensures var links := AllLinks(TextLines(rawText), FoundSubjectsOf(rawText));
      var keys := Distinct(Map(links, LinkKey));
      var template := ProximityTemplate(ExtractMainDate(rawText, currentYear, today), FirstSlot(rawText), ExtractRoom(rawText));
      NoDuplicates(ProximityEntriesOf(rawText, currentYear, today))
      && forall e :: e in ProximityEntriesOf(rawText, currentYear, today) <==> ProximityEntryOf(e, keys, links, template)
    ensures forall e :: e in ProximityEntriesOf(rawText, currentYear, today) ==>
      WellFormedEntry(e, ExtractMainDate(rawText, currentYear, today), FoundSubjectsOf(rawText))
  {
    var lines := TextLines(rawText);
    var subjects := FoundSubjectsOf(rawText);
    var template := ProximityTemplate(ExtractMainDate(rawText, currentYear, today), FirstSlot(rawText), ExtractRoom(rawText));
    ProximityEntriesOfLines(lines, subjects, template);
  }

  /** The same for any lines, subjects and shared fields. */
  lemma ProximityEntriesOfLines(lines: seq<string>, subjects: seq<string>, template: DstEntry)
    requires template.source == "smart_import" && template.populationType == "ENTIERE" && template.professor == ""
    requires |template.dstDate| > 0 && IsClockTime(template.startTime) && IsClockTime(template.endTime)
    ensures var links := AllLinks(lines, subjects);
      var keys := Distinct(Map(links, LinkKey));
      NoDuplicates(ProximityEntries(keys, links, template))
      && (forall e :: e in ProximityEntries(keys, links, template) <==> ProximityEntryOf(e, keys, links, template))
      && forall e :: e in ProximityEntries(keys, links, template) ==> WellFormedEntry(e, template.dstDate, subjects)
  {
    var links := AllLinks(lines, subjects);
    var keys := Distinct(Map(links, LinkKey));
    LinkKeysAreClassNames(lines, subjects);
    DistinctMembers(Map(links, LinkKey));
    AllLinksNear(lines, subjects);
    ProximityEntriesDistinct(keys, links, template);
    ProximityEntriesMembers(keys, links, template);
    forall e | e in ProximityEntries(keys, links, template)
      ensures WellFormedEntry(e, template.dstDate, subjects)
    {
      var k, x :| k in keys && x in LinkedTo(links, k) && e == Stamp(template, k, x);
      assert NearSomeLine(lines, subjects, k, x);
    }
  }

  lemma ClassNameIsUpper(c: string)
    requires IsClassName(c)
    ensures Upper(c) == c
  {
    assert Upper(c)[0] == c[0] && Upper(c)[1] == c[1];
  }

  /** The fallback entries carry the found classes and subjects and the fixed 08:00–12:00 slot. */
  lemma CrossProductOfText(rawText: string, currentYear: int, today: int)
    ensures var date := ExtractMainDate(rawText, currentYear, today);
      forall e :: e in CrossProduct(ExtractClasses(rawText), FoundSubjectsOf(rawText), FallbackTemplate(date)) ==>
        WellFormedEntry(e, date, FoundSubjectsOf(rawText)) && e.startTime == "08:00" && e.endTime == "12:00"
        && e.className in ExtractClasses(rawText)
  {
    var date := ExtractMainDate(rawText, currentYear, today);
    var classes := ExtractClasses(rawText);
    ExtractedClasses(rawText);
    FallbackEntries(classes, FoundSubjectsOf(rawText), date);
  }

  lemma FallbackEntries(classes: seq<string>, subjects: seq<string>, date: string)
    requires |date| > 0
    requires forall k :: 0 <= k < |classes| ==> IsClassName(classes[k])
    ensures forall e :: e in CrossProduct(classes, subjects, FallbackTemplate(date)) ==>
      WellFormedEntry(e, date, subjects) && e.startTime == "08:00" && e.endTime == "12:00" && e.className in classes
  {
    CrossProductMembers(classes, subjects, FallbackTemplate(date));
    forall e | e in CrossProduct(classes, subjects, FallbackTemplate(date))
      ensures WellFormedEntry(e, date, subjects) && e.className in classes
    {
      var c, x :| c in classes && x in subjects && e == Stamp(FallbackTemplate(date), c, x);
      var i :| 0 <= i < |classes| && classes[i] == c;
      ClassNameIsUpper(c);
    }
  }
}
