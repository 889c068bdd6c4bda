/**
 * The teacher's class-workload page: month navigation, the six-week
 * calendar, the lookup of a class's score for one day, the list of coming
 * days, and the detail modal that merges the assignments of every student
 * of a class on one day.  Dates are day numbers and months are 0-based, as
 * `getMonth()` reports them.
 */
module TeacherWorkload {
  import opened Wrappers
  import opened Collections
  import opened Dates
  import opened WorkloadService

  // ---------------------------------------------------------------------------
  // Month navigation

  /** `new Date(now.getFullYear(), now.getMonth(), 1)`: the month holding day `today`. */
  function MonthOf(today: int): (r: (int, int))
    ensures 0 <= r.1 <= 11
    ensures First(r.0, r.1) <= today < First(r.0, r.1) + DaysInMonth(r.0, r.1 + 1)
  {
    var c := CivilOf(today);
    (c.year, c.month - 1)
  }

  /** `dateRange`: the first and the last day of the shown month. */
  function DateRange(year: int, month: int): (r: (int, int))
    requires 0 <= month <= 11
    ensures r.0 <= r.1
    ensures CivilOf(r.0) == Civil(year, month + 1, 1)
    ensures CivilOf(r.1) == Civil(year, month + 1, DaysInMonth(year, month + 1))
  {
    var first := First(year, month);
    var last := first + DaysInMonth(year, month + 1) - 1;
    CivilAt(first, Civil(year, month + 1, 1));
    CivilAt(last, Civil(year, month + 1, DaysInMonth(year, month + 1)));
    (first, last)
  }

  // ---------------------------------------------------------------------------
  // Calendar

  /** One of the 42 cells of `calendarDays`. */
  datatype CalendarDay = CalendarDay(
    date: int,
    dayOfMonth: int,
    isToday: bool,
    isWeekend: bool,
    isSaturday: bool,
    month: int,
    isCurrentMonth: bool)

  const CALENDAR_DAYS := 42

  /** The Monday of the week holding day `z` (a Sunday goes back six days). */
  function MondayOnOrBefore(z: int): (m: int)
    ensures Weekday(m) == MONDAY && m <= z < m + 7
  {
    var dayOfWeek := Weekday(z);
    var diff := if dayOfWeek == 0 then -6 else 1 - dayOfWeek;
    WeekdayShift(z, diff);
    z + diff
  }

  /** The cell of day `date` in the calendar of month `month`. */
  function DayAt(date: int, month: int, today: int): CalendarDay
  {
    var c := CivilOf(date);
    var w := Weekday(date);
    CalendarDay(date, c.day, date == today, w == SUNDAY || w == SATURDAY, w == SATURDAY, c.month - 1, c.month - 1 == month)
  }

  /** `calendarDays`: six weeks of cells from the Monday on or before the 1st. */
  method CalendarDays(year: int, month: int, today: int) returns (days: seq<CalendarDay>)
    requires 0 <= month <= 11
    ensures |days| == CALENDAR_DAYS
    ensures Laid(days, MondayOnOrBefore(First(year, month)), month, today)
  {
    var firstDay := First(year, month);
    var startOfWeek := MondayOnOrBefore(firstDay);
    days := FillDays(startOfWeek, month, today);
  }

  /** Cell `k` is the cell of day `start + k`. */
  ghost predicate Laid(days: seq<CalendarDay>, start: int, month: int, today: int)
  {
    forall k :: 0 <= k < |days| ==> days[k].date == start + k && days[k] == DayAt(days[k].date, month, today)
  }

  /** The `for` loop of `calendarDays`. */
  method FillDays(start: int, month: int, today: int) returns (days: seq<CalendarDay>)
    ensures |days| == CALENDAR_DAYS && Laid(days, start, month, today)
  {
    days := [];
    for i := 0 to CALENDAR_DAYS
      invariant |days| == i && Laid(days, start, month, today)
    {
      var day := DayCell(start + i, month, today);
      LaidSnoc(days, start, month, today, day);
      days := days + [day];
    }
  }

  lemma LaidSnoc(days: seq<CalendarDay>, start: int, month: int, today: int, d: CalendarDay)
    requires Laid(days, start, month, today)
    requires d.date == start + |days| && d == DayAt(d.date, month, today)
    ensures Laid(days + [d], start, month, today)
  {
    forall k | 0 <= k < |days| + 1
      ensures (days + [d])[k].date == start + k && (days + [d])[k] == DayAt((days + [d])[k].date, month, today)
    {
      if k < |days| {
        assert (days + [d])[k] == days[k];
      }
    }
  }

  /** One cell, read off the date with the `Date` getters. */
  method DayCell(date: int, month: int, today: int) returns (d: CalendarDay)
    ensures d.date == date && d == DayAt(date, month, today)
  {
    var c := CivilOf(date);
    var w := Weekday(date);
    d := CalendarDay(date, c.day, date == today, w == SUNDAY || w == SATURDAY, w == SATURDAY, c.month - 1, c.month - 1 == month);
  }

  /**
   * The grid starts on a Monday and holds the whole month; a cell is of
   * the current month exactly when its date lies between the 1st and the
   * last of the month, and is then numbered from the 1st.
   */
  lemma CalendarSpan(year: int, month: int, today: int, z: int)
    requires 0 <= month <= 11
    requires var start := MondayOnOrBefore(First(year, month)); start <= z < start + CALENDAR_DAYS
    ensures var start := MondayOnOrBefore(First(year, month));
      Weekday(start) == MONDAY && start <= First(year, month) < start + 7
    ensures var start := MondayOnOrBefore(First(year, month));
      First(year, month) + DaysInMonth(year, month + 1) <= start + CALENDAR_DAYS
    ensures var first := First(year, month); var d := DayAt(z, month, today);
      d.isCurrentMonth <==> first <= z < first + DaysInMonth(year, month + 1)
    ensures var d := DayAt(z, month, today);
      d.isCurrentMonth ==> d.dayOfMonth == z - First(year, month) + 1
  {
    var first := First(year, month);
    var len := DaysInMonth(year, month + 1);
    if z < first {
      BeforeMonth(year, month, first - z, z);
    } else if z < first + len {
      InMonth(year, month, z - first, z);
    } else {
      AfterMonth(year, month, z - first - len, z);
    }
  }

  /** Day `k` (from 0) of the month is in the month. */
  lemma InMonth(year: int, month: int, k: int, z: int)
    requires 0 <= month <= 11 && 0 <= k < DaysInMonth(year, month + 1) && z == First(year, month) + k
    ensures CivilOf(z) == Civil(year, month + 1, k + 1)
  {
    CivilAt(z, Civil(year, month + 1, k + 1));
  }

  /** A day of the week before the 1st lies in the previous month. */
  lemma BeforeMonth(year: int, month: int, k: int, z: int)
    requires 0 <= month <= 11 && 1 <= k <= 6 && z == First(year, month) - k
    ensures CivilOf(z).month - 1 != month
  {
    var p := PrevMonth(year, month);
    var plen := PrevMonthLength(year, month);
    PrevFirst(year, month);
    InMonth(p.0, p.1, plen - k, z);
  }

  lemma PrevFirst(year: int, month: int)
    requires 0 <= month <= 11
    ensures var p := PrevMonth(year, month);
      First(year, month) == First(p.0, p.1) + PrevMonthLength(year, month) && 28 <= PrevMonthLength(year, month)
  {
    var p := PrevMonth(year, month);
    MonthNavigation(p.0, p.1);
    MonthNavigation(year, month);
  }

  /** A day within two weeks after the last of the month lies in the next month. */
  lemma AfterMonth(year: int, month: int, k: int, z: int)
    requires 0 <= month <= 11 && 0 <= k < 14 && z == First(year, month) + DaysInMonth(year, month + 1) + k
    ensures CivilOf(z).month - 1 != month
  {
    var n := NextMonth(year, month);
    MonthNavigation(year, month);
    InMonth(n.0, n.1, k, z);
  }

  // ---------------------------------------------------------------------------
  // Scores of a class

  /** `workloadData[className] || []`. */
  function ClassRows(data: map<string, seq<WorkloadRow>>, className: string): seq<WorkloadRow>
  {
    if className in data then data[className] else []
  }

  /** Row `i` is the first row of day `date`. */
  predicate FirstOfDay(rows: seq<WorkloadRow>, date: int, i: int)
  {
    0 <= i < |rows| && rows[i].scoreDate == date && forall j :: 0 <= j < i ==> rows[j].scoreDate != date
  }

  /** `getWorkloadForDate`: the first row of the class for that day, if any. */
  function WorkloadForDate(data: map<string, seq<WorkloadRow>>, className: string, date: int): (r: Option<WorkloadRow>)
    ensures className !in data ==> r == None
    ensures r.None? ==> forall i :: 0 <= i < |ClassRows(data, className)| ==> ClassRows(data, className)[i].scoreDate != date
    ensures r.Some? ==> exists i :: FirstOfDay(ClassRows(data, className), date, i) && ClassRows(data, className)[i] == r.value
  {
    var rows := ClassRows(data, className);
    var i := FirstWhere(rows, (d: WorkloadRow) => d.scoreDate == date);
    if i < |rows| then Some(rows[i]) else None
  }

  const LIST_DAYS := 14

  /** The list view of one class: its days from today on, at most 14, in stored order. */
  function ListedDays(data: map<string, seq<WorkloadRow>>, className: string, today: int): (r: seq<WorkloadRow>)
    ensures |r| <= LIST_DAYS
    ensures forall i :: 0 <= i < |r| ==> r[i].scoreDate >= today && r[i] in ClassRows(data, className)
    ensures |r| < LIST_DAYS ==> forall d :: d in ClassRows(data, className) && d.scoreDate >= today ==> d in r
  {
    Take(Filter(ClassRows(data, className), (d: WorkloadRow) => d.scoreDate >= today), LIST_DAYS)
  }

  // ---------------------------------------------------------------------------
  // Detail modal

  /** The `type` string stored with each assignment. */
  function TypeName(t: AssignmentType): string
  {
    if t == Test then "test" else "homework"
  }

  /** `a.content?.substring(0, 50) || a.title`. */
  function Excerpt(a: AssignmentDetail): string
  {
    if a.content == "" then a.title
    else if |a.content| <= 50 then a.content
    else a.content[..50]
  }

  /** The key assignments are merged under: subject, type and excerpt, joined by dashes. */
  function MergeKey(a: AssignmentDetail): string
  {
    a.subject + "-" + TypeName(a.kind) + "-" + Excerpt(a)
  }

  /** `{ ...a, count }`: the first assignment seen under a key and how many share it. */
  datatype Merged = Merged(first: AssignmentDetail, count: nat)

  /** Every student's assignments of the day, one student after the other. */
  function AllAssignments(details: seq<WorkloadRecord>): seq<AssignmentDetail>
  {
    if |details| == 0 then []
    else AllAssignments(details[..|details| - 1]) + details[|details| - 1].assignments
  }

  /**
   * The merge of the assignments `s`: `keys` lists each key once in order
   * of first sight, and each key's entry holds the first assignment of its
   * group and the group's size.
   */
  ghost predicate Merging(s: seq<AssignmentDetail>, keys: seq<string>, merged: map<string, Merged>)
  {
    keys == Distinct(Map(s, MergeKey)) && Summarises(GroupBy(s, MergeKey), merged)
  }

  /** Each group `g[k]` is summarised by its first element and its size. */
  ghost predicate Summarises(g: map<string, seq<AssignmentDetail>>, merged: map<string, Merged>)
  {
    && (forall k :: k in merged <==> k in g)
    && forall k :: k in g ==> |g[k]| > 0 && merged[k] == Merged(g[k][0], |g[k]|)
  }

  /** Sum of the counts of the listed entries. */
  function SumMerged(keys: seq<string>, merged: map<string, Merged>): nat
    requires forall i :: 0 <= i < |keys| ==> keys[i] in merged
  {
    if |keys| == 0 then 0 else merged[keys[0]].count + SumMerged(keys[1..], merged)
  }

  /** The aggregation of the detail modal; the counts add up to the number of assignments of the day. */
  method MergeAssignments(details: seq<WorkloadRecord>) returns (keys: seq<string>, merged: map<string, Merged>)
    ensures Merging(AllAssignments(details), keys, merged)
    ensures forall i :: 0 <= i < |keys| ==> keys[i] in merged
    ensures SumMerged(keys, merged) == |AllAssignments(details)|
  {
    keys, merged := [], map[];
    for i := 0 to |details|
      invariant Merging(AllAssignments(details[..i]), keys, merged)
    {
      keys, merged := MergeStudent(AllAssignments(details[..i]), keys, merged, details[i].assignments);
      assert details[..i + 1][..i] == details[..i];
    }
    assert details[..|details|] == details;
    MergedTotal(AllAssignments(details), keys, merged);
  }

  /** The inner `forEach` over one student's assignments. */
  method MergeStudent(ghost s: seq<AssignmentDetail>, keys: seq<string>, merged: map<string, Merged>,
                      xs: seq<AssignmentDetail>)
    returns (keys': seq<string>, merged': map<string, Merged>)
    requires Merging(s, keys, merged)
    ensures Merging(s + xs, keys', merged')
  {
    keys', merged' := keys, merged;
    ghost var seen := s;
    for j := 0 to |xs|
      invariant seen == s + xs[..j]
      invariant Merging(seen, keys', merged')
    {
      MergeStep(seen, xs[j], keys', merged');
      keys', merged' := MergeOne(keys', merged', xs[j]);
      SeenStep(s, xs, j);
      seen := seen + [xs[j]];
    }
    assert xs[..|xs|] == xs;
  }

  lemma SeenStep(s: seq<AssignmentDetail>, xs: seq<AssignmentDetail>, j: int)
    requires 0 <= j < |xs|
    ensures s + xs[..j + 1] == (s + xs[..j]) + [xs[j]]
  {
    assert xs[..j + 1] == xs[..j] + [xs[j]];
  }

  /** One assignment: open its entry with a zero count if needed, then count it. */
  method MergeOne(keys: seq<string>, merged: map<string, Merged>, a: AssignmentDetail)
    returns (keys': seq<string>, merged': map<string, Merged>)
    ensures keys' == if MergeKey(a) in merged then keys else keys + [MergeKey(a)]
    ensures merged' == merged[MergeKey(a) :=
      if MergeKey(a) in merged then merged[MergeKey(a)].(count := merged[MergeKey(a)].count + 1) else Merged(a, 1)]
  {
    var key := MergeKey(a);
    keys', merged' := keys, merged;
    if key !in merged' {
      merged' := merged'[key := Merged(a, 0)];
      keys' := keys' + [key];
    }
    merged' := merged'[key := merged'[key].(count := merged'[key].count + 1)];
  }

  lemma MergeStep(s: seq<AssignmentDetail>, a: AssignmentDetail, keys: seq<string>, merged: map<string, Merged>)
    requires Merging(s, keys, merged)
    ensures var key := MergeKey(a);
      Merging(s + [a], if key in merged then keys else keys + [key],
              merged[key := if key in merged then merged[key].(count := merged[key].count + 1) else Merged(a, 1)])
  {
    GroupBySnoc(s, a, MergeKey);
    DistinctKeysSnoc(s, a, MergeKey);
    SummarisesStep(GroupBy(s, MergeKey), merged, MergeKey(a), a);
  }

  /** Appending `a` to group `key` keeps the summary when the entry is counted once more (or opened at 1). */
  lemma SummarisesStep(g: map<string, seq<AssignmentDetail>>, merged: map<string, Merged>, key: string, a: AssignmentDetail)
    requires Summarises(g, merged)
    ensures Summarises(g[key := (if key in g then g[key] else []) + [a]],
                       merged[key := if key in merged then merged[key].(count := merged[key].count + 1) else Merged(a, 1)])
  {
  }

  /** Each assignment is counted under exactly one key, so the counts add up to the total. */
  lemma MergedTotal(s: seq<AssignmentDetail>, keys: seq<string>, merged: map<string, Merged>)
    requires Merging(s, keys, merged)
    ensures forall i :: 0 <= i < |keys| ==> keys[i] in merged
    ensures SumMerged(keys, merged) == |s|
  {
    GroupByKeys(s, MergeKey);
    GroupByMeaning(s, MergeKey);
    DistinctMembers(Map(s, MergeKey));
    forall i | 0 <= i < |keys|
      ensures keys[i] in merged
    {
      assert keys[i] in Map(s, MergeKey);
    }
    SumOfCounts(s, keys, merged);
    forall i | 0 <= i < |s|
      ensures MergeKey(s[i]) in keys
    {
      assert Map(s, MergeKey)[i] == MergeKey(s[i]);
    }
    PartitionCount(s, MergeKey, keys);
  }

  /** Each entry counts its key's assignments. */
  lemma {:induction false} SumOfCounts(s: seq<AssignmentDetail>, keys: seq<string>, merged: map<string, Merged>)
    requires forall i :: 0 <= i < |keys| ==> keys[i] in merged
    requires forall k :: k in merged ==> merged[k].count == CountKey(s, MergeKey, k)
    ensures SumMerged(keys, merged) == SumCounts(s, MergeKey, keys)
    decreases |keys|
  {
    if |keys| > 0 {
      SumOfCounts(s, keys[1..], merged);
    }
  }
}
