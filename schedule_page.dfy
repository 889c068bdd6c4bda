/**
 * The timetable page (`src/pages/SchedulePage.jsx`): the colour of each
 * subject, the day a course belongs to, its place on the day grid, the
 * columns given to courses that overlap, the break shown between two
 * courses, the dates of the displayed week and the week navigation.
 *
 * Dates are day numbers (see `Dates`).  The clock time of a course
 * (`getHours() * 60 + getMinutes()` of `new Date(start)`) and its
 * `toLocaleTimeString` text are given as functions, since they depend on the
 * platform's date parser and locale.
 */
module SchedulePage {
  import opened Wrappers
  import opened Text
  import opened Collections
  import opened Dates
  import WorkloadCalculator
  import EcoleDirecte

  // ---------------------------------------------------------------------------
  // Subject colours

  /** The colour table in the order of its keys; the first key found in the subject wins. */
  const SUBJECT_COLORS_AS_WRITTEN: seq<(string, string)> := [
    ("MATHS", "blue"), ("MATHEMATIQUES", "blue"), ("FRANCAIS", "pink"), ("FRAN\U{C7}AIS", "pink"),
    ("ANGLAIS", "pink"), ("LV1", "pink"), ("ITALIEN", "yellow"), ("ESPAGNOL", "orange"),
    ("LV2", "orange"), ("LV3", "orange"), ("ALLEMAND", "yellow"), ("ARABE", "orange"),
    ("HISTOIRE", "green"), ("HISTOIRE-GEO", "green"), ("HG", "green"), ("GEOGRAPHIE", "green"),
    ("SVT", "green"), ("SCIENCES VIE", "green"), ("PHYSIQUE", "cyan"), ("PHYSIQUE-CHIMIE", "cyan"),
    ("PC", "cyan"), ("CHIMIE", "cyan"), ("EPS", "red"), ("ED.PHYSIQUE", "red"),
    ("SPORT", "red"), ("TECHNOLOGIE", "purple"), ("TECHNO", "purple"), ("ARTS", "purple"),
    ("ARTS PLASTIQUES", "purple"), ("MUSIQUE", "purple"), ("PHILOSOPHIE", "gray"), ("PHILO", "gray"),
    ("SES", "yellow"), ("SC. ECONO", "yellow"), ("NSI", "teal"), ("SNT", "teal"),
    ("SC.NUMERIQ", "teal"), ("EMC", "orange"), ("HUMANITES", "purple"), ("LCA", "yellow"),
    ("LATIN", "yellow"), ("SECTION EURO", "orange")]

  /**
   * The table as intended: "ED.PHYSIQUE" is looked up before "PHYSIQUE",
   * which it contains, so physical education gets its own colour.  The page
   * itself uses the table as written.
   */
  const SUBJECT_COLORS: seq<(string, string)> := [("ED.PHYSIQUE", "red")] + SUBJECT_COLORS_AS_WRITTEN

  const DEFAULT_COLOR := "gray"

  /** Index of the first key of `table` found in `u`, or `|table|` when none is. */
  function FirstKeyIn(u: string, table: seq<(string, string)>): (i: nat)
    ensures i <= |table|
    ensures forall j :: 0 <= j < i ==> !Contains(u, table[j].0)
    ensures i < |table| ==> Contains(u, table[i].0)
  {
    FirstKeyFrom(u, table, 0)
  }

  /** Index of the first key of `table` at or after `k` found in `u`, or `|table|` when none is. */
  function FirstKeyFrom(u: string, table: seq<(string, string)>, k: nat): (i: nat)
    requires k <= |table|
    ensures k <= i <= |table|
    ensures forall j :: k <= j < i ==> !Contains(u, table[j].0)
    ensures i < |table| ==> Contains(u, table[i].0)
    decreases |table| - k
  {
    if k == |table| then k
    else if Contains(u, table[k].0) then k
    else FirstKeyFrom(u, table, k + 1)
  }

  /** The colour `getSubjectColorClass` gives `subject` with the colour table `table`. */
  function ColorIn(subject: string, table: seq<(string, string)>): (r: string)
    ensures subject == "" ==> r == DEFAULT_COLOR
    ensures subject != "" && FirstKeyIn(Upper(subject), table) < |table| ==> r == table[FirstKeyIn(Upper(subject), table)].1
    ensures (forall j :: 0 <= j < |table| ==> !Contains(Upper(subject), table[j].0)) ==> r == DEFAULT_COLOR
  {
    if subject == "" then DEFAULT_COLOR
    else
      var i := FirstKeyIn(Upper(subject), table);
      if i < |table| then table[i].1 else DEFAULT_COLOR
  }

  /**
   * `getSubjectColorClass(subject)`: 'gray' without a subject, else the
   * colour of the first key of the table found in the upper-cased subject,
   * else 'gray'.
   */
  method GetSubjectColorClass(subject: string, table: seq<(string, string)>) returns (color: string)
    ensures color == ColorIn(subject, table)
  {
    if subject == "" {
      return DEFAULT_COLOR;
    }
    var upperSubject := Upper(subject);
    var i := 0;
    while i < |table|
      invariant 0 <= i <= |table|
      invariant forall j :: 0 <= j < i ==> !Contains(upperSubject, table[j].0)
    {
      if Contains(upperSubject, table[i].0) {
        return table[i].1;
      }
      i := i + 1;
    }
    return DEFAULT_COLOR;
  }

  /** Every colour comes from the table or is the default. */
  lemma ColorFromTable(subject: string, table: seq<(string, string)>)
    ensures ColorIn(subject, table) == DEFAULT_COLOR || exists j :: 0 <= j < |table| && table[j].1 == ColorIn(subject, table)
  {
  }

  /** A subject naming physical education ("ED.PHYSIQUE & SPORT.") is coloured red. */
  lemma EdPhysiqueIsRed(subject: string)
    requires Contains(Upper(subject), "ED.PHYSIQUE")
    ensures ColorIn(subject, SUBJECT_COLORS) == "red"
  {
    assert |subject| > 0;
  }

  /** Upper-casing leaves a string without lower-case letters as it is. */
  lemma UpperOfUpperCase(s: string)
    requires forall i :: 0 <= i < |s| ==> UpperChar(s[i]) == s[i]
    ensures Upper(s) == s
  {
  }

  /**
   * With the table as written, the key "ED.PHYSIQUE" (entry 23) is never the
   * one used: any subject containing it also contains "PHYSIQUE" (entry 18),
   * which is met first, so physical education is never coloured red.
   */
  lemma EdPhysiqueAsWritten(subject: string)
    requires Contains(Upper(subject), "ED.PHYSIQUE")
    ensures SUBJECT_COLORS_AS_WRITTEN[23] == ("ED.PHYSIQUE", "red")
    ensures FirstKeyIn(Upper(subject), SUBJECT_COLORS_AS_WRITTEN) <= 18
    ensures ColorIn(subject, SUBJECT_COLORS_AS_WRITTEN) != "red"
  {
    var u := Upper(subject);
    AsWrittenEntries();
    ContainsPart(u, "ED.PHYSIQUE", 3, 11);
    PhysiqueInside();
    FirstKeyAtMost(u, SUBJECT_COLORS_AS_WRITTEN, 0, 18);
    assert |subject| > 0;
  }

  lemma PhysiqueInside()
    ensures "ED.PHYSIQUE"[3..11] == "PHYSIQUE"
  {
  }

  /** The entries of the table as written that decide an ED.PHYSIQUE subject's colour. */
  lemma AsWrittenEntries()
    ensures SUBJECT_COLORS_AS_WRITTEN[23] == ("ED.PHYSIQUE", "red")
    ensures SUBJECT_COLORS_AS_WRITTEN[18].0 == "PHYSIQUE"
    ensures forall j :: 0 <= j <= 18 ==> SUBJECT_COLORS_AS_WRITTEN[j].1 != "red"
  {
  }

  /** The first key found is never after a key the text contains. */
  lemma {:induction false} FirstKeyAtMost(u: string, table: seq<(string, string)>, k: nat, j: nat)
    requires k <= j < |table| && Contains(u, table[j].0)
    ensures FirstKeyFrom(u, table, k) <= j
    decreases j - k
  {
    if k < j && !Contains(u, table[k].0) {
      FirstKeyAtMost(u, table, k + 1, j);
    }
  }

  // ---------------------------------------------------------------------------
  // The day of a course

  /** `s.split(sep)[0]`: the text before the first `sep`, or all of `s`. */
  function Before(s: string, sep: char): (r: string)
    ensures StartsWith(s, r) && sep !in r
    ensures |r| < |s| ==> s[|r|] == sep
  {
    var i := IndexOfChar(s, sep);
    assert forall j :: 0 <= j < i ==> s[..i][j] == s[j];
    s[..i]
  }

  /**
   * The day key as written: `start.split(' ')[0] || start.split('T')[0]`.
   * The second split only runs when the first part is empty.
   */
  function DayKeyAsWritten(start: string): string
  {
    var beforeSpace := Before(start, ' ');
    if beforeSpace != "" then beforeSpace else Before(start, 'T')
  }

  /** The day key as intended: the text of a start time before the first space or 'T'. */
  function DayKey(start: string): (r: string)
    ensures StartsWith(start, r) && ' ' !in r && 'T' !in r
  {
    var b := Before(start, ' ');
    var r := Before(b, 'T');
    assert b[..|r|] == start[..|r|];
    r
  }

  /** The text before `sep` reaches at least past a prefix without `sep`. */
  lemma BeforePastPrefix(s: string, sep: char, pre: string)
    requires StartsWith(s, pre) && sep !in pre
    ensures |Before(s, sep)| >= |pre| && Before(s, sep)[..|pre|] == pre
  {
    assert forall j :: 0 <= j < |pre| ==> s[j] == pre[j];
  }

  /** A date followed by a space or a 'T' and a time has the date as its key. */
  lemma DayKeyOfTimestamp(date: string, sep: char, time: string)
    requires sep == ' ' || sep == 'T'
    requires ' ' !in date && 'T' !in date
    ensures DayKey(date + [sep] + time) == date
  {
    var s := date + [sep] + time;
    assert s[|date|] == sep;
    assert s[..|date|] == date;
    BeforePastPrefix(s, ' ', date);
    var b := Before(s, ' ');
    assert StartsWith(b, date);
    BeforePastPrefix(b, 'T', date);
  }

  /** An École Directe start, a date, a space and a time, is keyed by its date as written too. */
  lemma DayKeyAsWrittenOfSpaced(date: string, time: string)
    requires |date| > 0 && ' ' !in date
    ensures DayKeyAsWritten(date + " " + time) == date
  {
    BeforeOfSplit(date, ' ', time);
  }

  /** As written, a timestamp with a 'T' and no space keeps its time in the key. */
  lemma DayKeyAsWrittenKeepsTime(date: string, time: string)
    requires |date| > 0 && ' ' !in date + "T" + time
    ensures DayKeyAsWritten(date + "T" + time) == date + "T" + time
    ensures DayKeyAsWritten(date + "T" + time) != date
  {
    var s := date + "T" + time;
    assert s[0] == date[0];
    assert Before(s, ' ') == s;
  }

  // ---------------------------------------------------------------------------
  // Placement on the day grid

  /** Minutes since midnight, as a clock reads them. */
  type DayMinute = m: int | 0 <= m < 1440

  /** The grid starts at 8:00; one minute is one pixel. */
  const GRID_START := 8 * 60
  const MIN_HEIGHT := 30

  /** A course with its place on the grid (the fields `scheduleByDay` adds). */
  datatype Placed = Placed(
    course: EcoleDirecte.Course,
    startMinutes: int,
    endMinutes: int,
    topPx: int,
    heightPx: int,
    startTime: string,
    endTime: string,
    colorClass: string)

  /** `timeToMinutes(timeStr)`: 0 without a time, else the clock time of `new Date(timeStr)`. */
  function TimeToMinutes(s: string, clock: string -> DayMinute): (m: int)
    ensures 0 <= m < 1440
    ensures s == "" ==> m == 0
  {
    if s == "" then 0 else clock(s)
  }

  /** The text of a time (`toLocaleTimeString('fr-FR', …)`), or '' without a time. */
  function TimeText(s: string, timeText: string -> string): string
  {
    if s == "" then "" else timeText(s)
  }

  function Max(a: int, b: int): int
  {
    if a >= b then a else b
  }

  /**
   * The placed course: its top is its start less 8:00, no higher than the
   * grid, and its height is its duration, at least 30 pixels.
   */
  function Place(c: EcoleDirecte.Course, clock: string -> DayMinute, timeText: string -> string): (p: Placed)
    ensures p.course == c
    ensures p.startMinutes == TimeToMinutes(c.start, clock) && p.endMinutes == TimeToMinutes(c.end, clock)
    ensures p.topPx >= 0 && p.heightPx >= MIN_HEIGHT
    ensures p.startMinutes >= GRID_START ==> p.topPx == p.startMinutes - GRID_START
    ensures p.startMinutes < GRID_START ==> p.topPx == 0
    ensures p.endMinutes - p.startMinutes >= MIN_HEIGHT ==> p.heightPx == p.endMinutes - p.startMinutes
    ensures p.endMinutes - p.startMinutes < MIN_HEIGHT ==> p.heightPx == MIN_HEIGHT
    ensures p.colorClass == ColorIn(c.subject, SUBJECT_COLORS_AS_WRITTEN)
  {
    var startMinutes := TimeToMinutes(c.start, clock);
    var endMinutes := TimeToMinutes(c.end, clock);
    Placed(c, startMinutes, endMinutes, Max(0, startMinutes - GRID_START), Max(MIN_HEIGHT, endMinutes - startMinutes),
           TimeText(c.start, timeText), TimeText(c.end, timeText), ColorIn(c.subject, SUBJECT_COLORS_AS_WRITTEN))
  }

  /** The placed courses of `schedule` whose day key is `key`, in schedule order. */
  function DayEntries(schedule: seq<EcoleDirecte.Course>, key: string, clock: string -> DayMinute, timeText: string -> string): (r: seq<Placed>)
    ensures |r| <= |schedule|
  {
    if |schedule| == 0 then []
    else
      var c := schedule[|schedule| - 1];
      DayEntries(schedule[..|schedule| - 1], key, clock, timeText)
      + if DayKeyAsWritten(c.start) == key then [Place(c, clock, timeText)] else []
  }

  /** A day holds exactly the placed courses whose start falls on it. */
  lemma DayEntriesMeaning(schedule: seq<EcoleDirecte.Course>, key: string, clock: string -> DayMinute, timeText: string -> string)
    ensures forall p :: p in DayEntries(schedule, key, clock, timeText) <==>
      exists i :: 0 <= i < |schedule| && DayKeyAsWritten(schedule[i].start) == key && p == Place(schedule[i], clock, timeText)
  {
    DayEntriesSound(schedule, key, clock, timeText);
    DayEntriesComplete(schedule, key, clock, timeText);
  }

  lemma {:induction false} DayEntriesSound(schedule: seq<EcoleDirecte.Course>, key: string, clock: string -> DayMinute, timeText: string -> string)
    ensures forall p :: p in DayEntries(schedule, key, clock, timeText) ==>
      exists i :: 0 <= i < |schedule| && DayKeyAsWritten(schedule[i].start) == key && p == Place(schedule[i], clock, timeText)
    decreases |schedule|
  {
    if |schedule| > 0 {
      var prefix := schedule[..|schedule| - 1];
      var last := schedule[|schedule| - 1];
      DayEntriesSound(prefix, key, clock, timeText);
      assert DayEntries(schedule, key, clock, timeText) ==
        DayEntries(prefix, key, clock, timeText) + if DayKeyAsWritten(last.start) == key then [Place(last, clock, timeText)] else [];
      forall p | p in DayEntries(schedule, key, clock, timeText)
        ensures exists i :: 0 <= i < |schedule| && DayKeyAsWritten(schedule[i].start) == key && p == Place(schedule[i], clock, timeText)
      {
        if p in DayEntries(prefix, key, clock, timeText) {
          var i :| 0 <= i < |prefix| && DayKeyAsWritten(prefix[i].start) == key && p == Place(prefix[i], clock, timeText);
          assert schedule[i] == prefix[i];
        } else {
          assert DayKeyAsWritten(last.start) == key && p == Place(last, clock, timeText);
        }
      }
    }
  }

  lemma DayEntriesComplete(schedule: seq<EcoleDirecte.Course>, key: string, clock: string -> DayMinute, timeText: string -> string)
    ensures forall i :: 0 <= i < |schedule| && DayKeyAsWritten(schedule[i].start) == key ==> Place(schedule[i], clock, timeText) in DayEntries(schedule, key, clock, timeText)
  {
    forall i | 0 <= i < |schedule| && DayKeyAsWritten(schedule[i].start) == key
      ensures Place(schedule[i], clock, timeText) in DayEntries(schedule, key, clock, timeText)
    {
      DayEntriesHas(schedule, key, clock, timeText, i);
    }
  }

  lemma {:induction false} DayEntriesHas(schedule: seq<EcoleDirecte.Course>, key: string, clock: string -> DayMinute, timeText: string -> string, i: int)
    requires 0 <= i < |schedule| && DayKeyAsWritten(schedule[i].start) == key
    ensures Place(schedule[i], clock, timeText) in DayEntries(schedule, key, clock, timeText)
    decreases |schedule|
  {
    var prefix := schedule[..|schedule| - 1];
    var last := schedule[|schedule| - 1];
    var before := DayEntries(prefix, key, clock, timeText);
    var after := if DayKeyAsWritten(last.start) == key then [Place(last, clock, timeText)] else [];
    assert DayEntries(schedule, key, clock, timeText) == before + after;
    if i < |prefix| {
      assert schedule[i] == prefix[i];
      DayEntriesHas(prefix, key, clock, timeText, i);
    } else {
      assert schedule[i] == last;
    }
  }

  /** The first loop of `scheduleByDay` so far: each day holds its courses of `s`. */
  ghost predicate FiledByDay(grouped: map<string, seq<Placed>>, keys: set<string>, s: seq<EcoleDirecte.Course>, clock: string -> DayMinute, timeText: string -> string)
  {
    grouped.Keys == keys && forall k :: k in grouped ==> grouped[k] == DayEntries(s, k, clock, timeText)
  }

  /**
   * The first half of `scheduleByDay`: an empty list for each day of the
   * week, then each course placed and pushed onto the list of its day; a
   * course whose day is not shown is dropped.
   */
  method GroupByDay(schedule: seq<EcoleDirecte.Course>, dayKeys: seq<string>, clock: string -> DayMinute, timeText: string -> string)
    returns (grouped: map<string, seq<Placed>>)
    ensures FiledByDay(grouped, (set k | k in dayKeys), schedule, clock, timeText)
  {
    grouped := map[];
    var d := 0;
    while d < |dayKeys|
      invariant 0 <= d <= |dayKeys|
      invariant grouped.Keys == set k | k in dayKeys[..d]
      invariant forall k :: k in grouped ==> grouped[k] == []
    {
      grouped := grouped[dayKeys[d] := []];
      assert dayKeys[..d + 1] == dayKeys[..d] + [dayKeys[d]];
      d := d + 1;
    }
    assert dayKeys[..d] == dayKeys;
    var i := 0;
    while i < |schedule|
      invariant 0 <= i <= |schedule|
      invariant FiledByDay(grouped, (set k | k in dayKeys), schedule[..i], clock, timeText)
    {
      var entry := schedule[i];
      assert schedule[..i + 1][..i] == schedule[..i] && schedule[..i + 1][i] == entry;
      var dateStr := DayKeyAsWritten(entry.start);
      if dateStr in grouped {
        var color := GetSubjectColorClass(entry.subject, SUBJECT_COLORS_AS_WRITTEN);
        var startMinutes := TimeToMinutes(entry.start, clock);
        var endMinutes := TimeToMinutes(entry.end, clock);
        var topPx := startMinutes - GRID_START;
        var heightPx := endMinutes - startMinutes;
        var placed := Placed(entry, startMinutes, endMinutes, Max(0, topPx), Max(MIN_HEIGHT, heightPx),
                             TimeText(entry.start, timeText), TimeText(entry.end, timeText), color);
        grouped := grouped[dateStr := grouped[dateStr] + [placed]];
      }
      i := i + 1;
    }
    assert schedule[..i] == schedule;
  }

  // ---------------------------------------------------------------------------
  // Columns for overlapping courses

  /** The order of `entries.sort`: by start minute, then by subject. */
  predicate DayLe(a: Placed, b: Placed)
  {
    a.startMinutes < b.startMinutes || (a.startMinutes == b.startMinutes && LexLe(a.course.subject, b.course.subject))
  }

  lemma DayOrderIsTotal()
    ensures TotalPreorder(DayLe)
  {
    forall a: Placed, b: Placed
      ensures DayLe(a, b) || DayLe(b, a)
    {
      LexTotal(a.course.subject, b.course.subject);
    }
    forall a: Placed, b: Placed, c: Placed | DayLe(a, b) && DayLe(b, c)
      ensures DayLe(a, c)
    {
      if a.startMinutes == b.startMinutes == c.startMinutes {
        LexTrans(a.course.subject, b.course.subject, c.course.subject);
      }
    }
  }

  /** Two courses overlap when each starts before the other ends. */
  predicate Overlap(a: Placed, b: Placed)
  {
    a.startMinutes < b.endMinutes && a.endMinutes > b.startMinutes
  }

  /** The column fields `scheduleByDay` gives a course; `groupId` is `null` outside a group. */
  datatype Slot = Slot(column: nat, totalColumns: nat, groupId: Option<nat>)

  const ALONE := Slot(0, 1, None)

  /** `group.some(...)`: some course of the group overlaps `other`. */
  function OverlapsGroup(entries: seq<Placed>, group: seq<nat>, other: Placed): (b: bool)
    requires forall m :: 0 <= m < |group| ==> group[m] < |entries|
    ensures b <==> exists m :: 0 <= m < |group| && Overlap(entries[group[m]], other)
  {
    if |group| == 0 then false
    else
      var b := OverlapsGroup(entries, group[..|group| - 1], other) || Overlap(entries[group[|group| - 1]], other);
      assert forall m :: 0 <= m < |group| - 1 ==> group[..|group| - 1][m] == group[m];
      b
  }

  /** Column `c` of group `id` is held by some course. */
  ghost predicate ColumnHeld(slots: seq<Slot>, id: Option<nat>, c: int)
  {
    exists z :: 0 <= z < |slots| && slots[z].groupId == id && slots[z].column == c
  }

  /** Group `id` has a course. */
  ghost predicate GroupUsed(slots: seq<Slot>, id: nat)
  {
    exists y :: 0 <= y < |slots| && slots[y].groupId == Some(id)
  }

  /** Courses `y` and `z` belong to one group. */
  predicate SameGroup(slots: seq<Slot>, y: int, z: int)
    requires 0 <= y < |slots| && 0 <= z < |slots|
  {
    slots[y].groupId.Some? && slots[y].groupId == slots[z].groupId
  }

  /** Course `y` of a group overlaps a course of its group that comes before it. */
  ghost predicate JoinedEarlier(entries: seq<Placed>, slots: seq<Slot>, y: int)
    requires |slots| == |entries| && 0 <= y < |slots|
  {
    exists z :: 0 <= z < y && slots[z].groupId == slots[y].groupId && Overlap(entries[z], entries[y])
  }

  /**
   * The column fields of course `y`: column 0 of 1 outside a group; inside
   * one, an id from `first` up to `next`, a column below the group's size
   * (at least 2), and, after the first column, an overlap with an earlier
   * course of the group.
   */
  ghost predicate CourseLaid(entries: seq<Placed>, slots: seq<Slot>, first: nat, next: nat, y: int)
    requires |slots| == |entries| && 0 <= y < |slots|
  {
    (slots[y].groupId.None? ==> slots[y] == ALONE)
    && (slots[y].groupId.Some? ==>
          first <= slots[y].groupId.value < next && 2 <= slots[y].totalColumns && slots[y].column < slots[y].totalColumns
          && (slots[y].column > 0 ==> JoinedEarlier(entries, slots, y)))
  }

  /** Two courses of one group share its size and take columns in their order. */
  ghost predicate PairLaid(slots: seq<Slot>, y: int, z: int)
    requires 0 <= y < |slots| && 0 <= z < |slots|
  {
    y < z && SameGroup(slots, y, z) ==> slots[y].totalColumns == slots[z].totalColumns && slots[y].column < slots[z].column
  }

  /** Every column of the group of `y` is held. */
  ghost predicate ColumnsOfGroupHeld(slots: seq<Slot>, y: int, c: int)
    requires 0 <= y < |slots|
  {
    slots[y].groupId.Some? && 0 <= c < slots[y].totalColumns ==> ColumnHeld(slots, slots[y].groupId, c)
  }

  /**
   * The columns of one day, with group ids drawn from `first` up to `next`:
   * a course outside a group keeps column 0 of 1; the courses of a group
   * share its size, take its columns 0 .. size-1 once each in their order,
   * and each after the first overlaps an earlier one; every id is used.
   */
  ghost predicate ColumnsLaid(entries: seq<Placed>, slots: seq<Slot>, first: nat, next: nat)
  {
    |slots| == |entries|
    && first <= next
    && (forall y :: 0 <= y < |slots| ==> CourseLaid(entries, slots, first, next, y))
    && (forall y, z :: 0 <= y < |slots| && 0 <= z < |slots| ==> PairLaid(slots, y, z))
    && (forall y, c :: 0 <= y < |slots| ==> ColumnsOfGroupHeld(slots, y, c))
    && (forall g :: first <= g < next ==> GroupUsed(slots, g))
  }

  /** Course `group[k]` overlaps a course of the group before it. */
  ghost predicate JoinsEarlier(entries: seq<Placed>, group: seq<nat>, k: int)
    requires 0 <= k < |group| && forall m :: 0 <= m < |group| ==> group[m] < |entries|
  {
    exists m :: 0 <= m < k && Overlap(entries[group[m]], entries[group[k]])
  }

  /** A group being formed: increasing indices from its leader `i`, each after the first overlapping an earlier one. */
  ghost predicate GroupFrom(entries: seq<Placed>, group: seq<nat>, i: nat)
  {
    |group| > 0 && group[0] == i
    && (forall m, k :: 0 <= m < k < |group| ==> group[m] < group[k])
    && (forall k :: 0 <= k < |group| ==> group[k] < |entries|)
    && (forall k :: 0 < k < |group| ==> JoinsEarlier(entries, group, k))
  }

  /** A later course that overlaps a course of the group can join it. */
  lemma GroupGrows(entries: seq<Placed>, group: seq<nat>, i: nat, j: nat)
    requires GroupFrom(entries, group, i)
    requires j < |entries| && forall k :: 0 <= k < |group| ==> group[k] < j
    requires exists m :: 0 <= m < |group| && Overlap(entries[group[m]], entries[j])
    ensures GroupFrom(entries, group + [j], i)
    ensures forall k :: 0 <= k < |group| ==> (group + [j])[k] == group[k]
    ensures (group + [j])[|group|] == j
  {
    var g := group + [j];
    assert forall k :: 0 <= k < |group| ==> g[k] == group[k];
    forall k | 0 < k < |g|
      ensures JoinsEarlier(entries, g, k)
    {
      if k == |group| {
        var m :| 0 <= m < |group| && Overlap(entries[group[m]], entries[j]);
        assert g[m] == group[m];
      } else {
        assert JoinsEarlier(entries, group, k);
        var m :| 0 <= m < k && Overlap(entries[group[m]], entries[group[k]]);
        assert g[m] == group[m];
      }
    }
  }

  /** Giving a finished group of two or more the next id keeps the columns laid. */
  lemma LayGroup(entries: seq<Placed>, slots: seq<Slot>, slots': seq<Slot>, group: seq<nat>, i: nat, first: nat, next: nat)
    requires ColumnsLaid(entries, slots, first, next)
    requires GroupFrom(entries, group, i) && |group| >= 2
    requires forall k :: 0 <= k < |group| ==> slots[group[k]] == ALONE
    requires |slots'| == |slots|
    requires forall k :: 0 <= k < |group| ==> slots'[group[k]] == Slot(k, |group|, Some(next))
    requires forall y :: 0 <= y < |slots| && y !in group ==> slots'[y] == slots[y]
    ensures ColumnsLaid(entries, slots', first, next + 1)
  {
    LayCourses(entries, slots, slots', group, i, first, next, next + 1);
    forall y | 0 <= y < |slots| && slots[y].groupId.Some?
      ensures slots[y].groupId.value < next
    {
      assert CourseLaid(entries, slots, first, next, y);
    }
    LayPairs(slots, slots', group, next);
    LayHeld(slots, slots', group, next);
    forall g | first <= g < next + 1
      ensures GroupUsed(slots', g)
    {
      if g == next {
        assert slots'[group[0]].groupId == Some(next);
      } else {
        assert GroupUsed(slots, g);
        var y :| 0 <= y < |slots| && slots[y].groupId == Some(g);
        assert forall k :: 0 <= k < |group| ==> group[k] != y;
        assert slots'[y] == slots[y];
      }
    }
  }

  /** Where course `y` stands in an increasing group. */
  lemma PositionIn(group: seq<nat>, y: nat) returns (k: nat)
    requires forall m, k :: 0 <= m < k < |group| ==> group[m] < group[k]
    requires y in group
    ensures k < |group| && group[k] == y
  {
    k :| 0 <= k < |group| && group[k] == y;
  }

  lemma LayCourses(entries: seq<Placed>, slots: seq<Slot>, slots': seq<Slot>, group: seq<nat>, i: nat, first: nat, next: nat, after: nat)
    requires ColumnsLaid(entries, slots, first, next) && after == next + 1
    requires GroupFrom(entries, group, i) && |group| >= 2
    requires forall k :: 0 <= k < |group| ==> slots[group[k]] == ALONE
    requires |slots'| == |slots|
    requires forall k :: 0 <= k < |group| ==> slots'[group[k]] == Slot(k, |group|, Some(next))
    requires forall y :: 0 <= y < |slots| && y !in group ==> slots'[y] == slots[y]
    ensures forall y :: 0 <= y < |slots'| ==> CourseLaid(entries, slots', first, after, y)
  {
    forall y | 0 <= y < |slots'|
      ensures CourseLaid(entries, slots', first, after, y)
    {
      if y in group {
        var k := PositionIn(group, y);
        if k > 0 {
          assert JoinsEarlier(entries, group, k);
          var m :| 0 <= m < k && Overlap(entries[group[m]], entries[group[k]]);
          assert slots'[group[m]].groupId == Some(next);
          assert JoinedEarlier(entries, slots', y);
        }
      } else {
        assert CourseLaid(entries, slots, first, next, y);
        if slots[y].groupId.Some? && slots[y].column > 0 {
          var z :| 0 <= z < y && slots[z].groupId == slots[y].groupId && Overlap(entries[z], entries[y]);
          assert forall k :: 0 <= k < |group| ==> group[k] != z;
          assert slots'[z] == slots[z];
          assert JoinedEarlier(entries, slots', y);
        }
      }
    }
  }

  lemma LayPairs(slots: seq<Slot>, slots': seq<Slot>, group: seq<nat>, next: nat)
    requires forall y :: 0 <= y < |slots| && slots[y].groupId.Some? ==> slots[y].groupId.value < next
    requires forall y, z :: 0 <= y < |slots| && 0 <= z < |slots| ==> PairLaid(slots, y, z)
    requires forall m, k :: 0 <= m < k < |group| ==> group[m] < group[k]
    requires forall k :: 0 <= k < |group| ==> group[k] < |slots|
    requires |slots'| == |slots|
    requires forall k :: 0 <= k < |group| ==> slots'[group[k]] == Slot(k, |group|, Some(next))
    requires forall y :: 0 <= y < |slots| && y !in group ==> slots'[y] == slots[y]
    ensures forall y, z :: 0 <= y < |slots'| && 0 <= z < |slots'| ==> PairLaid(slots', y, z)
  {
    forall y, z | 0 <= y < |slots'| && 0 <= z < |slots'|
      ensures PairLaid(slots', y, z)
    {
      if y in group {
        var a := PositionIn(group, y);
        if z in group {
          var b := PositionIn(group, z);
          if y < z {
            assert a < b;
          }
        }
      } else if z !in group {
        assert PairLaid(slots, y, z);
      }
    }
  }

  lemma LayHeld(slots: seq<Slot>, slots': seq<Slot>, group: seq<nat>, next: nat)
    requires forall y :: 0 <= y < |slots| && slots[y].groupId.Some? ==> slots[y].groupId.value < next
    requires forall y, c :: 0 <= y < |slots| ==> ColumnsOfGroupHeld(slots, y, c)
    requires forall m, k :: 0 <= m < k < |group| ==> group[m] < group[k]
    requires forall k :: 0 <= k < |group| ==> group[k] < |slots| && slots[group[k]] == ALONE
    requires |slots'| == |slots|
    requires forall k :: 0 <= k < |group| ==> slots'[group[k]] == Slot(k, |group|, Some(next))
    requires forall y :: 0 <= y < |slots| && y !in group ==> slots'[y] == slots[y]
    ensures forall y, c :: 0 <= y < |slots'| ==> ColumnsOfGroupHeld(slots', y, c)
  {
    forall y, c | 0 <= y < |slots'|
      ensures ColumnsOfGroupHeld(slots', y, c)
    {
      if y in group {
        var a := PositionIn(group, y);
        if 0 <= c < |group| {
          assert slots'[group[c]].column == c;
        }
      } else if slots[y].groupId.Some? && 0 <= c < slots[y].totalColumns {
        assert ColumnsOfGroupHeld(slots, y, c);
        var z :| 0 <= z < |slots| && slots[z].groupId == slots[y].groupId && slots[z].column == c;
        assert forall k :: 0 <= k < |group| ==> group[k] != z;
        assert slots'[z] == slots[z];
      }
    }
  }

  /** Each free course after the leader `i` and before `j` that is not in the group overlaps no course of the group before it. */
  ghost predicate LeftOut(entries: seq<Placed>, taken: set<int>, group: seq<nat>, i: nat, j: int)
    requires forall k :: 0 <= k < |group| ==> group[k] < |entries|
  {
    forall y, k :: i < y < j && y < |entries| && y !in taken && y !in group && 0 <= k < |group| && group[k] < y ==>
      !Overlap(entries[group[k]], entries[y])
  }

  lemma LeftOutGrows(entries: seq<Placed>, taken: set<int>, group: seq<nat>, i: nat, j: nat)
    requires j < |entries| && forall k :: 0 <= k < |group| ==> group[k] < j
    requires LeftOut(entries, taken, group, i, j)
    ensures forall k :: 0 <= k < |group| + 1 ==> (group + [j])[k] < |entries|
    ensures LeftOut(entries, taken, group + [j], i, j + 1)
  {
    var g := group + [j];
    assert forall k :: 0 <= k < |group| ==> g[k] == group[k];
    forall y, k | i < y < j + 1 && y < |entries| && y !in taken && y !in g && 0 <= k < |g| && g[k] < y
      ensures !Overlap(entries[g[k]], entries[y])
    {
      assert y != j && k < |group|;
    }
  }

  lemma LeftOutSkips(entries: seq<Placed>, taken: set<int>, group: seq<nat>, i: nat, j: nat)
    requires j < |entries| && forall k :: 0 <= k < |group| ==> group[k] < j
    requires LeftOut(entries, taken, group, i, j)
    requires !(exists m :: 0 <= m < |group| && Overlap(entries[group[m]], entries[j]))
    ensures LeftOut(entries, taken, group, i, j + 1)
  {
  }

  /**
   * The inner loop of the column pass: course `i` leads a group, and every
   * later course not yet taken joins it when it overlaps a course already in
   * it.  A free course left out overlaps no course of the group before it.
   */
  method FormGroup(entries: seq<Placed>, taken: set<int>, i: nat) returns (group: seq<nat>, processed: set<int>)
    requires i < |entries| && i !in taken
    requires forall y :: y in taken ==> 0 <= y < |entries|
    ensures GroupFrom(entries, group, i)
    ensures forall y :: y in processed <==> y in taken || y in group
    ensures forall k :: 0 <= k < |group| ==> group[k] !in taken
    ensures LeftOut(entries, taken, group, i, |entries|)
  {
    group := [i];
    processed := taken + {i};
    for j := i + 1 to |entries|
      invariant GroupFrom(entries, group, i)
      invariant forall k :: 0 <= k < |group| ==> group[k] < j && group[k] !in taken
      invariant forall y :: y in processed <==> y in taken || y in group
      invariant LeftOut(entries, taken, group, i, j)
    {
      if j in processed {
        continue;
      }
      var other := entries[j];
      var overlaps := OverlapsGroup(entries, group, other);
      if overlaps {
        GroupGrows(entries, group, i, j);
        LeftOutGrows(entries, taken, group, i, j);
        group := group + [j];
        processed := processed + {j};
      } else {
        LeftOutSkips(entries, taken, group, i, j);
      }
    }
  }

  /** The `group.forEach` that gives the courses of a group their columns, its size and its id. */
  method LayOut(slots: seq<Slot>, group: seq<nat>, id: nat) returns (laid: seq<Slot>)
    requires forall m, k :: 0 <= m < k < |group| ==> group[m] < group[k]
    requires forall k :: 0 <= k < |group| ==> group[k] < |slots|
    ensures |laid| == |slots|
    ensures forall k :: 0 <= k < |group| ==> laid[group[k]] == Slot(k, |group|, Some(id))
    ensures forall y :: 0 <= y < |slots| && y !in group ==> laid[y] == slots[y]
  {
    laid := slots;
    for idx := 0 to |group|
      invariant |laid| == |slots|
      invariant forall k :: 0 <= k < idx ==> laid[group[k]] == Slot(k, |group|, Some(id))
      invariant forall y :: 0 <= y < |slots| && y !in group[..idx] ==> laid[y] == slots[y]
    {
      assert group[..idx + 1] == group[..idx] + [group[idx]];
      laid := laid[group[idx] := Slot(idx, |group|, Some(id))];
    }
    assert group[..|group|] == group;
  }

  /**
   * The column pass of `scheduleByDay` on one sorted day: each course not yet
   * taken leads a group (`FormGroup`); a group of two or more takes the next
   * id and gives its courses columns 0, 1, ... in order.
   */
  method AssignColumns(entries: seq<Placed>, first: nat) returns (slots: seq<Slot>, next: nat)
    ensures ColumnsLaid(entries, slots, first, next)
  {
    slots := seq(|entries|, _ => ALONE);
    next := first;
    var processed: set<int> := {};
    for i := 0 to |entries|
      invariant ColumnsLaid(entries, slots, first, next)
      invariant forall y :: y in processed ==> 0 <= y < |entries|
      invariant forall y :: 0 <= y < i ==> y in processed
      invariant forall y :: 0 <= y < |entries| && y !in processed ==> slots[y] == ALONE
    {
      if i in processed {
        continue;
      }
      var group;
      group, processed := FormGroup(entries, processed, i);
      if |group| > 1 {
        var id := next;
        next := next + 1;
        var laid := LayOut(slots, group, id);
        LayGroup(entries, slots, laid, group, i, first, id);
        slots := laid;
      }
    }
  }

  // ---------------------------------------------------------------------------
  // The timetable of a week

  /** The courses of a day in timetable order, and the column fields of each. */
  datatype Day = Day(courses: seq<Placed>, slots: seq<Slot>)

  /** The group ids of two different days come from ranges that do not meet. */
  ghost predicate Apart(ranges: map<string, (nat, nat)>)
  {
    forall a, b :: a in ranges && b in ranges && a != b ==> ranges[a].1 <= ranges[b].0 || ranges[b].1 <= ranges[a].0
  }

  /** What `scheduleByDay` gives for a day whose placed courses are `entries`: them in timetable order, with their columns. */
  ghost predicate DayLaidOut(d: Day, range: (nat, nat), entries: seq<Placed>)
  {
    d.courses == SortBy(entries, DayLe)
    && SortedBy(d.courses, DayLe)
    && ColumnsLaid(d.courses, d.slots, range.0, range.1)
  }

  lemma DaysStep(byDay: map<string, Day>, ranges: map<string, (nat, nat)>, grouped: map<string, seq<Placed>>,
                 key: string, day: Day, range: (nat, nat))
    requires ranges.Keys == byDay.Keys && byDay.Keys <= grouped.Keys && key in grouped
    requires forall k :: k in byDay ==> DayLaidOut(byDay[k], ranges[k], grouped[k])
    requires DayLaidOut(day, range, grouped[key])
    ensures forall k :: k in byDay[key := day] ==> DayLaidOut(byDay[key := day][k], ranges[key := range][k], grouped[k])
  {
    var ranges' := ranges[key := range];
    var byDay' := byDay[key := day];
    forall k | k in byDay'
      ensures DayLaidOut(byDay'[k], ranges'[k], grouped[k])
    {
      if k != key {
        assert byDay'[k] == byDay[k] && ranges'[k] == ranges[k];
      }
    }
  }

  lemma RangesStep(ranges: map<string, (nat, nat)>, counter: nat, key: string, next: nat)
    requires (forall k :: k in ranges ==> ranges[k].1 <= counter) && Apart(ranges)
    requires counter <= next
    ensures var ranges' := ranges[key := (counter, next)];
      (forall k :: k in ranges' ==> ranges'[k].1 <= next) && Apart(ranges')
  {
    var ranges' := ranges[key := (counter, next)];
    forall a, b | a in ranges' && b in ranges' && a != b
      ensures ranges'[a].1 <= ranges'[b].0 || ranges'[b].1 <= ranges'[a].0
    {
      if a != key && b != key {
        assert ranges'[a] == ranges[a] && ranges'[b] == ranges[b];
      }
    }
  }

  /**
   * One day of the column pass: its courses sorted by start then subject
   * (`entries.sort`), then given columns with ids from `counter` on.
   */
  method LayDay(entries: seq<Placed>, counter: nat) returns (day: Day, next: nat)
    ensures counter <= next && DayLaidOut(day, (counter, next), entries)
  {
    DayOrderIsTotal();
    SortBySorted(entries, DayLe);
    if |entries| == 0 {
      return Day([], []), counter;
    }
    var sorted := SortBy(entries, DayLe);
    var slots;
    slots, next := AssignColumns(sorted, counter);
    day := Day(sorted, slots);
  }

  /**
   * The column pass of `scheduleByDay` over the days in the order of
   * `Object.keys(grouped)`: group ids run on from day to day, so two days
   * never share one.
   */
  method LayWeek(grouped: map<string, seq<Placed>>, keys: seq<string>) returns (byDay: map<string, Day>, ghost ranges: map<string, (nat, nat)>)
    requires forall k :: k in keys ==> k in grouped
    ensures byDay.Keys == (set k | k in keys) && ranges.Keys == byDay.Keys
    ensures forall k :: k in byDay ==> DayLaidOut(byDay[k], ranges[k], grouped[k])
    ensures Apart(ranges)
  {
    byDay, ranges := map[], map[];
    var groupIdCounter: nat := 0;
    for d := 0 to |keys|
      invariant byDay.Keys == (set k | k in keys[..d]) && ranges.Keys == byDay.Keys
      invariant forall k :: k in byDay ==> DayLaidOut(byDay[k], ranges[k], grouped[k])
      invariant forall k :: k in ranges ==> ranges[k].1 <= groupIdCounter
      invariant Apart(ranges)
    {
      var dateStr := keys[d];
      assert keys[..d + 1] == keys[..d] + [dateStr];
      var day, next := LayDay(grouped[dateStr], groupIdCounter);
      DaysStep(byDay, ranges, grouped, dateStr, day, (groupIdCounter, next));
      RangesStep(ranges, groupIdCounter, dateStr, next);
      byDay := byDay[dateStr := day];
      ranges := ranges[dateStr := (groupIdCounter, next)];
      groupIdCounter := next;
    }
    assert keys[..|keys|] == keys;
  }

  /**
   * `scheduleByDay`: the courses of each shown day, placed, sorted by start
   * then subject, and given columns; two days never share a group id.
   */
  method ScheduleByDay(schedule: seq<EcoleDirecte.Course>, dayKeys: seq<string>, clock: string -> DayMinute, timeText: string -> string)
    returns (byDay: map<string, Day>, ghost ranges: map<string, (nat, nat)>)
    ensures byDay.Keys == (set k | k in dayKeys) && ranges.Keys == byDay.Keys
    ensures forall k :: k in byDay ==> DayLaidOut(byDay[k], ranges[k], DayEntries(schedule, k, clock, timeText))
    ensures Apart(ranges)
  {
    var grouped := GroupByDay(schedule, dayKeys, clock, timeText);
    var keys := Distinct(dayKeys);
    byDay, ranges := LayWeek(grouped, keys);
    assert (set k | k in keys) == (set k | k in dayKeys);
  }

  /** Two courses of a week that share a group id sit on the same day. */
  lemma GroupWithinDay(byDay: map<string, Day>, ranges: map<string, (nat, nat)>, schedule: seq<EcoleDirecte.Course>,
                       clock: string -> DayMinute, timeText: string -> string, a: string, b: string, y: nat, z: nat)
    requires ranges.Keys == byDay.Keys && Apart(ranges)
    requires forall k :: k in byDay ==> DayLaidOut(byDay[k], ranges[k], DayEntries(schedule, k, clock, timeText))
    requires a in byDay && b in byDay && y < |byDay[a].slots| && z < |byDay[b].slots|
    requires byDay[a].slots[y].groupId.Some? && byDay[a].slots[y].groupId == byDay[b].slots[z].groupId
    ensures a == b
  {
    assert DayLaidOut(byDay[a], ranges[a], DayEntries(schedule, a, clock, timeText));
    assert DayLaidOut(byDay[b], ranges[b], DayEntries(schedule, b, clock, timeText));
    assert CourseLaid(byDay[a].courses, byDay[a].slots, ranges[a].0, ranges[a].1, y);
    assert CourseLaid(byDay[b].courses, byDay[b].slots, ranges[b].0, ranges[b].1, z);
  }

  // ---------------------------------------------------------------------------
  // The break popup

  /** Where the popup is shown, the length of the break as text, and the times around it. */
  datatype BreakPopup = BreakPopup(x: int, y: int, duration: string, from: string, to: string)

  /** The order of `[...daySchedule].sort((a, b) => a.topPx - b.topPx)`. */
  predicate TopLe(a: Placed, b: Placed)
  {
    a.topPx <= b.topPx
  }

  lemma TopOrderIsTotal()
    ensures TotalPreorder(TopLe)
  {
  }

  /** Start and end of a course in minutes since midnight, read back from its box on the grid. */
  function StartOf(p: Placed): int
  {
    p.topPx + GRID_START
  }

  function EndOf(p: Placed): int
  {
    p.topPx + p.heightPx + GRID_START
  }

  /** The click falls after the end of course `i` and before the start of course `i + 1`. */
  predicate InGap(sorted: seq<Placed>, i: int, click: int)
    requires 0 <= i < |sorted| - 1
  {
    EndOf(sorted[i]) <= click < StartOf(sorted[i + 1])
  }

  /** The first gap from course `i` on that holds the click. */
  function FirstGap(sorted: seq<Placed>, click: int, i: nat): (r: Option<nat>)
    ensures r.Some? ==> i <= r.value < |sorted| - 1 && InGap(sorted, r.value, click)
    ensures r.Some? ==> forall k :: i <= k < r.value ==> !InGap(sorted, k, click)
    ensures r.None? ==> forall k :: i <= k < |sorted| - 1 ==> !InGap(sorted, k, click)
    decreases |sorted| - i
  {
    if i + 1 >= |sorted| then None
    else if InGap(sorted, i, click) then Some(i)
    else FirstGap(sorted, click, i + 1)
  }

  /** The length of a break: "1h", "1h05", or "45 min" under an hour. */
  function BreakText(d: nat): string
  {
    var hours := d / 60;
    var mins := d % 60;
    if hours > 0 then NatToString(hours) + "h" + (if mins > 0 then Pad2(mins) else "")
    else NatToString(mins) + " min"
  }

  /** Reads a break length back from its text. */
  function ReadBreakText(t: string): int
  {
    if |t| >= 4 && t[|t| - 1] == 'n' then DigitsValue(t[..|t| - 4])
    else
      var h := Before(t, 'h');
      60 * DigitsValue(h) + (if |h| < |t| then DigitsValue(t[|h| + 1..]) else 0)
  }

  /** The text of every break reads back as its length. */
  lemma BreakTextRoundTrip(d: nat)
    ensures ReadBreakText(BreakText(d)) == d
  {
    if d >= 60 {
      HoursRoundTrip(d);
    } else {
      MinutesRoundTrip(d);
    }
  }

  lemma HoursRoundTrip(d: nat)
    requires d >= 60
    ensures ReadBreakText(BreakText(d)) == d
  {
    var hs, ms := HoursShape(d);
    ComposeHours(BreakText(d), hs, ms, d / 60, d % 60);
  }

  /** An hour or more is written as its hours, an 'h', and the minutes over. */
  lemma HoursShape(d: nat) returns (hs: string, ms: string)
    requires d >= 60
    ensures BreakText(d) == hs + "h" + ms && AllDigits(hs) && AllDigits(ms)
    ensures DigitsValue(hs) == d / 60 && DigitsValue(ms) == d % 60
  {
    hs := NatToString(d / 60);
    ms := if d % 60 > 0 then Pad2(d % 60) else "";
    HoursText(d);
    NatToStringValue(d / 60);
    MinutesPart(d % 60, ms);
  }

  lemma HoursText(d: nat)
    requires d >= 60
    ensures BreakText(d) == NatToString(d / 60) + "h" + (if d % 60 > 0 then Pad2(d % 60) else "")
  {
  }

  lemma ComposeHours(t: string, hs: string, ms: string, hours: int, mins: int)
    requires t == hs + "h" + ms && AllDigits(hs) && AllDigits(ms)
    requires DigitsValue(hs) == hours && DigitsValue(ms) == mins
    ensures ReadBreakText(t) == 60 * hours + mins
  {
    ReadHoursText(hs, ms);
  }

  lemma MinutesPart(mins: nat, ms: string)
    requires ms == if mins > 0 then Pad2(mins) else ""
    ensures AllDigits(ms) && DigitsValue(ms) == mins
  {
    if mins > 0 {
      Pad2Value(mins);
    }
  }

  lemma MinutesRoundTrip(d: nat)
    requires d < 60
    ensures ReadBreakText(BreakText(d)) == d
  {
    MinutesText(d);
    ReadMinutesText(NatToString(d));
    NatToStringValue(d);
  }

  lemma MinutesText(d: nat)
    requires d < 60
    ensures BreakText(d) == NatToString(d) + " min"
  {
    assert d / 60 == 0 && d % 60 == d;
  }

  predicate AllDigits(s: string)
  {
    forall i :: 0 <= i < |s| ==> '0' <= s[i] <= '9'
  }

  /** Two-digit padding keeps the digits and their value. */
  lemma Pad2Value(n: nat)
    ensures AllDigits(Pad2(n)) && DigitsValue(Pad2(n)) == n
  {
    var s := NatToString(n);
    NatToStringValue(n);
    if |s| < 2 {
      assert Pad2(n) == "0" + s;
      LeadingZeroValue(s);
    }
  }

  lemma ReadHoursText(hs: string, ms: string)
    requires AllDigits(hs) && AllDigits(ms)
    ensures ReadBreakText(hs + "h" + ms) == 60 * DigitsValue(hs) + DigitsValue(ms)
  {
    var t := hs + "h" + ms;
    assert t[|t| - 1] != 'n' by {
      assert |ms| == 0 || t[|t| - 1] == ms[|ms| - 1];
    }
    assert 'h' !in hs;
    BeforeOfSplit(hs, 'h', ms);
    assert t[|hs| + 1..] == ms;
  }

  lemma ReadMinutesText(ms: string)
    ensures ReadBreakText(ms + " min") == DigitsValue(ms)
  {
    var t := ms + " min";
    assert t[|t| - 1] == 'n' && t[..|t| - 4] == ms;
  }

  /** The text before the first `sep` of `pre + [sep] + rest` is `pre` when `pre` has no `sep`. */
  lemma BeforeOfSplit(pre: string, sep: char, rest: string)
    requires sep !in pre
    ensures Before(pre + [sep] + rest, sep) == pre
  {
    var s := pre + [sep] + rest;
    assert s[..|pre|] == pre && s[|pre|] == sep;
    BeforePastPrefix(s, sep, pre);
    var r := Before(s, sep);
    assert forall j :: 0 <= j < |r| ==> r[j] == s[j];
  }

  /**
   * The popup of a click at minute `click` on a day whose courses are
   * `sorted`: nothing on an empty day, before the first course or after the
   * last; otherwise the first gap between two consecutive courses that holds
   * the click, with its length and the times around it.
   */
  function BreakAt(sorted: seq<Placed>, click: int, clientX: int, clientY: int): Option<BreakPopup>
  {
    if |sorted| == 0 || click < StartOf(sorted[0]) || click > EndOf(sorted[|sorted| - 1]) then None
    else match FirstGap(sorted, click, 0)
      case None => None
      case Some(i) => Some(PopupAt(sorted, i, clientX, clientY))
  }

  /** The popup for the gap after course `i`: its length and the times around it. */
  function PopupAt(sorted: seq<Placed>, i: nat, clientX: int, clientY: int): BreakPopup
    requires i + 1 < |sorted| && StartOf(sorted[i + 1]) - EndOf(sorted[i]) >= 0
  {
    BreakPopup(clientX, clientY, BreakText(StartOf(sorted[i + 1]) - EndOf(sorted[i])), sorted[i].endTime, sorted[i + 1].startTime)
  }

  /**
   * `handleDayBodyClick`: a click on a course shows nothing; otherwise the
   * courses are sorted by grid position and the popup is `BreakAt` the
   * clicked minute.  `clickY` is the click's height on the day column in
   * pixels, one pixel a minute from 8:00.
   */
  method HandleDayBodyClick(onEntry: bool, clickY: real, clientX: int, clientY: int, daySchedule: seq<Placed>)
    returns (popup: Option<BreakPopup>)
    ensures popup == if onEntry then None else BreakAt(SortBy(daySchedule, TopLe), clickY.Floor + GRID_START, clientX, clientY)
  {
    if onEntry {
      return None;
    }
    var clickMinutes := clickY.Floor + 8 * 60;
    var sortedCourses := SortBy(daySchedule, TopLe);
    if |sortedCourses| == 0 {
      return None;
    }
    var firstCourseStart := sortedCourses[0].topPx + 8 * 60;
    var lastCourseEnd := sortedCourses[|sortedCourses| - 1].topPx + sortedCourses[|sortedCourses| - 1].heightPx + 8 * 60;
    if clickMinutes < firstCourseStart || clickMinutes > lastCourseEnd {
      return None;
    }
    popup := FindBreak(sortedCourses, clickMinutes, clientX, clientY);
  }

  /** The scan of `handleDayBodyClick` over consecutive courses, once the click is known to lie within the day. */
  method FindBreak(sortedCourses: seq<Placed>, clickMinutes: int, clientX: int, clientY: int)
    returns (popup: Option<BreakPopup>)
    requires |sortedCourses| > 0
    requires StartOf(sortedCourses[0]) <= clickMinutes <= EndOf(sortedCourses[|sortedCourses| - 1])
    ensures popup == BreakAt(sortedCourses, clickMinutes, clientX, clientY)
  {
    for i := 0 to |sortedCourses| - 1
      invariant forall k :: 0 <= k < i ==> !InGap(sortedCourses, k, clickMinutes)
    {
      var currentEnd := sortedCourses[i].topPx + sortedCourses[i].heightPx + 8 * 60;
      var nextStart := sortedCourses[i + 1].topPx + 8 * 60;
      if clickMinutes >= currentEnd && clickMinutes < nextStart {
        var breakDuration := nextStart - currentEnd;
        if breakDuration > 0 {
          FirstGapFrom(sortedCourses, clickMinutes, 0, i);
          popup := GapPopup(sortedCourses, clickMinutes, clientX, clientY, i, breakDuration);
          return;
        }
      }
    }
    FirstGapFrom(sortedCourses, clickMinutes, 0, |sortedCourses| - 1);
    return None;
  }

  /** The popup for the break of `breakDuration` minutes after course `i`, the first gap holding the click. */
  method GapPopup(sorted: seq<Placed>, click: int, clientX: int, clientY: int, i: nat, breakDuration: int)
    returns (popup: Option<BreakPopup>)
    requires i + 1 < |sorted| && StartOf(sorted[0]) <= click <= EndOf(sorted[|sorted| - 1])
    requires FirstGap(sorted, click, 0) == Some(i)
    requires breakDuration == StartOf(sorted[i + 1]) - EndOf(sorted[i])
    ensures popup == BreakAt(sorted, click, clientX, clientY)
  {
    BreakAtGap(sorted, click, clientX, clientY, i);
    var formatted := BreakText(breakDuration);
    var shown := BreakPopup(clientX, clientY, formatted, sorted[i].endTime, sorted[i + 1].startTime);
    assert shown == PopupAt(sorted, i, clientX, clientY);
    popup := Some(shown);
  }

  lemma BreakAtGap(sorted: seq<Placed>, click: int, clientX: int, clientY: int, i: nat)
    requires i + 1 < |sorted| && StartOf(sorted[0]) <= click <= EndOf(sorted[|sorted| - 1])
    requires FirstGap(sorted, click, 0) == Some(i)
    ensures StartOf(sorted[i + 1]) - EndOf(sorted[i]) >= 0
    ensures BreakAt(sorted, click, clientX, clientY) == Some(PopupAt(sorted, i, clientX, clientY))
  {
  }

  /** With no gap before `i` holding the click, the first gap from the start is the first from `i`. */
  lemma {:induction false} FirstGapFrom(sorted: seq<Placed>, click: int, j: nat, i: nat)
    requires j <= i && (i < |sorted| || i + 1 >= |sorted|)
    requires forall k :: j <= k < i && k < |sorted| - 1 ==> !InGap(sorted, k, click)
    ensures FirstGap(sorted, click, j) == FirstGap(sorted, click, i)
    decreases i - j
  {
    if j < i && j + 1 < |sorted| {
      FirstGapFrom(sorted, click, j + 1, i);
    }
  }

  /**
   * A popup is shown exactly when a gap between consecutive courses holds
   * the click (within the day).
   */
  lemma BreakAtMeaning(sorted: seq<Placed>, click: int, clientX: int, clientY: int)
    ensures BreakAt(sorted, click, clientX, clientY).Some? <==>
      |sorted| > 0 && StartOf(sorted[0]) <= click <= EndOf(sorted[|sorted| - 1])
      && exists i :: 0 <= i < |sorted| - 1 && InGap(sorted, i, click)
  {
    if |sorted| > 0 && StartOf(sorted[0]) <= click <= EndOf(sorted[|sorted| - 1]) {
      var g := FirstGap(sorted, click, 0);
      if g.Some? {
        assert InGap(sorted, g.value, click);
      }
    }
  }

  /**
   * The popup shown is for the first gap holding the click; its break is
   * never empty and its text reads back as the gap's length.
   */
  lemma BreakAtShown(sorted: seq<Placed>, click: int, clientX: int, clientY: int)
    ensures var p := BreakAt(sorted, click, clientX, clientY);
      p.Some? ==> exists i :: 0 <= i < |sorted| - 1 && GapShown(sorted, click, i, p.value)
  {
    var p := BreakAt(sorted, click, clientX, clientY);
    if p.Some? {
      var i := FirstGap(sorted, click, 0).value;
      ShownGap(sorted, click, clientX, clientY);
      ReadBack(p.value.duration, StartOf(sorted[i + 1]) - EndOf(sorted[i]));
      FirstGapShown(sorted, click, i, p.value);
    }
  }

  lemma ReadBack(t: string, d: nat)
    requires t == BreakText(d)
    ensures ReadBreakText(t) == d
  {
    BreakTextRoundTrip(d);
  }

  lemma FirstGapShown(sorted: seq<Placed>, click: int, i: nat, p: BreakPopup)
    requires FirstGap(sorted, click, 0) == Some(i)
    requires StartOf(sorted[i + 1]) - EndOf(sorted[i]) > 0
    requires p.from == sorted[i].endTime && p.to == sorted[i + 1].startTime
    requires ReadBreakText(p.duration) == StartOf(sorted[i + 1]) - EndOf(sorted[i])
    ensures i < |sorted| - 1 && GapShown(sorted, click, i, p)
  {
  }

  /** The popup `p` is for gap `i`: the first holding the click, non-empty, with its times and its length. */
  predicate GapShown(sorted: seq<Placed>, click: int, i: nat, p: BreakPopup)
    requires i < |sorted| - 1
  {
    InGap(sorted, i, click)
    && (forall k :: 0 <= k < i ==> !InGap(sorted, k, click))
    && StartOf(sorted[i + 1]) - EndOf(sorted[i]) > 0
    && p.from == sorted[i].endTime
    && p.to == sorted[i + 1].startTime
    && ReadBreakText(p.duration) == StartOf(sorted[i + 1]) - EndOf(sorted[i])
  }

  lemma ShownGap(sorted: seq<Placed>, click: int, clientX: int, clientY: int)
    requires BreakAt(sorted, click, clientX, clientY).Some?
    ensures FirstGap(sorted, click, 0).Some?
    ensures var i := FirstGap(sorted, click, 0).value;
      i + 1 < |sorted| && StartOf(sorted[i + 1]) - EndOf(sorted[i]) > 0
      && BreakAt(sorted, click, clientX, clientY).value == PopupAt(sorted, i, clientX, clientY)
  {
  }

  /**
   * Where course boxes are at least as tall as they are long, the checks
   * against the first start and the last end never change the answer: a gap
   * holding the click lies between them.
   */
  lemma GapWithinDay(sorted: seq<Placed>, click: int)
    requires SortedBy(sorted, TopLe) && forall k :: 0 <= k < |sorted| ==> sorted[k].heightPx >= 0
    requires FirstGap(sorted, click, 0).Some?
    ensures StartOf(sorted[0]) <= click <= EndOf(sorted[|sorted| - 1])
  {
    var i := FirstGap(sorted, click, 0).value;
    assert TopLe(sorted[0], sorted[i]);
    if i + 1 < |sorted| - 1 {
      assert TopLe(sorted[i + 1], sorted[|sorted| - 1]);
    }
  }

  // ---------------------------------------------------------------------------
  // The displayed week

  /** `getWeekDates(date, includeSaturday)`: Monday of the week of `z` and the days after it, through Saturday or Friday. */
  method GetWeekDates(z: int, includeSaturday: bool) returns (dates: seq<int>)
    ensures |dates| == if includeSaturday then 6 else 5
    ensures forall i :: 0 <= i < |dates| ==> dates[i] == WorkloadCalculator.WeekStart(z) + i
    ensures forall i :: 0 <= i < |dates| ==> Weekday(dates[i]) == MONDAY + i
  {
    var day := Weekday(z);
    var diff := z - day + (if day == SUNDAY then -6 else 1);
    var monday := diff;
    dates := [];
    var daysCount := if includeSaturday then 6 else 5;
    for i := 0 to daysCount
      invariant |dates| == i
      invariant forall k :: 0 <= k < i ==> dates[k] == monday + k
    {
      dates := dates + [monday + i];
    }
    assert monday == WorkloadCalculator.WeekStart(z);
    forall i | 0 <= i < |dates|
      ensures Weekday(dates[i]) == MONDAY + i
    {
      WeekdayShift(monday, i);
    }
  }

  /** The day shown first: today's column from Monday (0) to Saturday (5); on Sunday, Monday. */
  function DefaultDayIndex(today: int): (r: nat)
    ensures r <= 5
  {
    var day := Weekday(today);
    if day == SUNDAY then 0 else if day - 1 < 5 then day - 1 else 5
  }

  /** Except on Sunday, the day shown first is today. */
  lemma DefaultDayIsToday(today: int)
    requires Weekday(today) != SUNDAY
    ensures WorkloadCalculator.WeekStart(today) + DefaultDayIndex(today) == today
  {
  }

  /** `goToPreviousWeek`, `goToNextWeek`: the week start moves by seven days. */
  function PreviousWeek(weekStart: int): (r: int)
    ensures Weekday(r) == Weekday(weekStart) && r < weekStart
  {
    weekStart - 7
  }

  function NextWeek(weekStart: int): (r: int)
    ensures Weekday(r) == Weekday(weekStart) && r > weekStart
  {
    weekStart + 7
  }

  /** Going forward then back returns to the same week. */
  lemma WeekNavigationRoundTrip(weekStart: int)
    ensures PreviousWeek(NextWeek(weekStart)) == weekStart && NextWeek(PreviousWeek(weekStart)) == weekStart
  {
  }

  /** `goToCurrentWeek` and the initial week: the Monday of today's week. */
  function CurrentWeek(today: int): (r: int)
    ensures Weekday(r) == MONDAY && r <= today < r + 7
  {
    var day := Weekday(today);
    today - day + (if day == SUNDAY then -6 else 1)
  }
}
