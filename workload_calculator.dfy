/**
 * The workload engine: per-assignment weights, daily and weekly scores and
 * their classification, Monday weeks and ISO 8601 week numbers (section 4.1.4
 * of ISO 8601:2004), the Saturday-DST rules, DST date suggestions, conflict
 * projection for a new assignment and the statistics over a date range.
 *
 * Dates are day numbers (see module Dates); a due date that is missing or not
 * a date is `None`, exactly the assignments whose `formatDate` is `null`.
 */
module WorkloadCalculator {
  import opened Wrappers
  import opened Dates
  import opened Collections
  import opened Assignments

  // Thresholds of the classification (THRESHOLDS).
  const DAILY_LIGHT := 2
  const DAILY_MEDIUM := 4
  const DAILY_HEAVY := 6
  const WEEKLY_LIGHT := 8
  const WEEKLY_MEDIUM := 15
  const WEEKLY_HEAVY := 20

  datatype LoadStatus = Light | Medium | Heavy | Critical

  /** Position of a status on the light → critical scale. */
  function Rank(s: LoadStatus): nat
  {
    match s
    case Light => 0
    case Medium => 1
    case Heavy => 2
    case Critical => 3
  }

  // ---------------------------------------------------------------------------
  // Weights and scores

  /** `getAssignmentWeight`: a test weighs 3, anything else 1. */
  function AssignmentWeight(a: Assignment): (w: int)
    ensures w == 1 || w == 3
    ensures w == 3 <==> IsTest(a)
  {
    if IsTest(a) then 3 else 1
  }

  /** Sum of the weights of a list (`reduce((sum, a) => sum + getAssignmentWeight(a), 0)`). */
  function WeightSum(s: seq<Assignment>): int
  {
    if |s| == 0 then 0 else AssignmentWeight(s[0]) + WeightSum(s[1..])
  }

  /** A score is one point per assignment plus two more per test. */
  lemma {:induction false} WeightSumCounts(s: seq<Assignment>)
    ensures WeightSum(s) == |s| + 2 * TestCount(s)
  {
    if |s| > 0 {
      WeightSumCounts(s[1..]);
    }
  }

  /** The assignments whose due date is `target`, in their original order. */
  function DueOn(s: seq<Assignment>, target: Option<int>): (r: seq<Assignment>)
    ensures |r| <= |s|
  {
    if |s| == 0 then []
    else
      var rest := DueOn(s[1..], target);
      if s[0].dueDate == target then [s[0]] + rest else rest
  }

  /** The assignments due in the closed day range [lo, hi], in their original order. */
  function DueBetween(s: seq<Assignment>, lo: int, hi: int): (r: seq<Assignment>)
    ensures |r| <= |s|
  {
    if |s| == 0 then []
    else
      var rest := DueBetween(s[1..], lo, hi);
      if s[0].dueDate.Some? && lo <= s[0].dueDate.value <= hi then [s[0]] + rest else rest
  }

  /** `DueOn` keeps exactly the assignments due on the target. */
  lemma {:induction false} DueOnMembers(s: seq<Assignment>, target: Option<int>)
    ensures forall x :: x in DueOn(s, target) <==> x in s && x.dueDate == target
  {
    if |s| > 0 {
      DueOnMembers(s[1..], target);
      assert s == [s[0]] + s[1..];
    }
  }

  /** `DueBetween` keeps exactly the assignments due inside the range. */
  lemma {:induction false} DueBetweenMembers(s: seq<Assignment>, lo: int, hi: int)
    ensures forall x :: x in DueBetween(s, lo, hi) <==> x in s && x.dueDate.Some? && lo <= x.dueDate.value <= hi
  {
    if |s| > 0 {
      DueBetweenMembers(s[1..], lo, hi);
      assert s == [s[0]] + s[1..];
    }
  }

  /** An empty range holds nothing. */
  lemma {:induction false} DueBetweenEmpty(s: seq<Assignment>, lo: int, hi: int)
    requires hi < lo
    ensures DueBetween(s, lo, hi) == []
  {
    if |s| > 0 {
      DueBetweenEmpty(s[1..], lo, hi);
    }
  }

  /** Extending a range by its last day adds exactly that day's assignments to the score. */
  lemma {:induction false} DueBetweenSplit(s: seq<Assignment>, lo: int, hi: int)
    requires lo <= hi
    ensures WeightSum(DueBetween(s, lo, hi)) == WeightSum(DueBetween(s, lo, hi - 1)) + WeightSum(DueOn(s, Some(hi)))
    ensures |DueBetween(s, lo, hi)| == |DueBetween(s, lo, hi - 1)| + |DueOn(s, Some(hi))|
  {
    if |s| > 0 {
      DueBetweenSplit(s[1..], lo, hi);
      var x := s[0];
      var a, b, c := DueBetween(s[1..], lo, hi), DueBetween(s[1..], lo, hi - 1), DueOn(s[1..], Some(hi));
      if x.dueDate.Some? && lo <= x.dueDate.value <= hi {
        assert WeightSum([x] + a) == AssignmentWeight(x) + WeightSum(a) by { assert ([x] + a)[1..] == a; }
        if x.dueDate.value == hi {
          assert WeightSum([x] + c) == AssignmentWeight(x) + WeightSum(c) by { assert ([x] + c)[1..] == c; }
        } else {
          assert WeightSum([x] + b) == AssignmentWeight(x) + WeightSum(b) by { assert ([x] + b)[1..] == b; }
        }
      }
    }
  }

  // ---------------------------------------------------------------------------
  // Classification

  /** Classification of a score against three increasing thresholds. */
  function Classify(score: int, light: int, medium: int, heavy: int): (r: LoadStatus)
    requires light <= medium <= heavy
    ensures r == Light <==> score <= light
    ensures r == Medium <==> light < score <= medium
    ensures r == Heavy <==> medium < score <= heavy
    ensures r == Critical <==> heavy < score
  {
    if score <= light then Light
    else if score <= medium then Medium
    else if score <= heavy then Heavy
    else Critical
  }

  /** `getDailyLoadStatus`. */
  function DailyStatus(score: int): LoadStatus
  {
    Classify(score, DAILY_LIGHT, DAILY_MEDIUM, DAILY_HEAVY)
  }

  /** `getWeeklyLoadStatus`. */
  function WeeklyStatus(score: int): LoadStatus
  {
    Classify(score, WEEKLY_LIGHT, WEEKLY_MEDIUM, WEEKLY_HEAVY)
  }

  /** A higher score never gives a lighter status. */
  lemma ClassifyMonotone(s: int, t: int, light: int, medium: int, heavy: int)
    requires light <= medium <= heavy
    requires s <= t
    ensures Rank(Classify(s, light, medium, heavy)) <= Rank(Classify(t, light, medium, heavy))
  {
  }

  lemma DailyStatusMonotone(s: int, t: int)
    requires s <= t
    ensures Rank(DailyStatus(s)) <= Rank(DailyStatus(t))
  {
    ClassifyMonotone(s, t, DAILY_LIGHT, DAILY_MEDIUM, DAILY_HEAVY);
  }

  lemma WeeklyStatusMonotone(s: int, t: int)
    requires s <= t
    ensures Rank(WeeklyStatus(s)) <= Rank(WeeklyStatus(t))
  {
    ClassifyMonotone(s, t, WEEKLY_LIGHT, WEEKLY_MEDIUM, WEEKLY_HEAVY);
  }

  // ---------------------------------------------------------------------------
  // Daily workload

  /** Result of `calculateDailyWorkload`. */
  datatype DayLoad = DayLoad(date: Option<int>, score: int, status: LoadStatus, assignments: seq<Assignment>, count: nat)

  /**
   * `calculateDailyWorkload(assignments, date)`: the assignments whose
   * formatted due date equals the formatted target.  With a missing target
   * both sides format to `null`, so the undated assignments are the ones kept.
   */
  function DailyWorkload(assignments: seq<Assignment>, target: Option<int>): (r: DayLoad)
    ensures r.date == target
    ensures r.assignments == DueOn(assignments, target)
    ensures r.count == |r.assignments|
    ensures r.score == r.count + 2 * TestCount(r.assignments)
    ensures r.status == DailyStatus(r.score)
  {
    var due := DueOn(assignments, target);
    WeightSumCounts(due);
    DayLoad(target, WeightSum(due), DailyStatus(WeightSum(due)), due, |due|)
  }

  // ---------------------------------------------------------------------------
  // Weeks

  /** `getWeekStart`: the Monday on or before `z` (a Sunday goes back six days). */
  function WeekStart(z: int): (r: int)
    ensures Weekday(r) == MONDAY
    ensures r <= z < r + 7
  {
    var day := Weekday(z);
    z - day + (if day == SUNDAY then -6 else 1)
  }

  /** `getWeekEnd`: six days after the week start, a Sunday on or after `z`. */
  function WeekEnd(z: int): (r: int)
    ensures Weekday(r) == SUNDAY
    ensures z <= r < z + 7
    ensures r - 6 == WeekStart(z)
  {
    WeekStart(z) + 6
  }

  /** `isSaturday`. */
  predicate IsSaturday(z: int)
  {
    Weekday(z) == SATURDAY
  }

  /** The Thursday of the Monday week of `z` (`d.setDate(d.getDate() + 3 - (d.getDay() + 6) % 7)`). */
  function ThursdayOf(z: int): (t: int)
    ensures t == WeekStart(z) + 3
    ensures Weekday(t) == THURSDAY
  {
    z + 3 - (Weekday(z) + 6) % 7
  }

  /** `Math.round(x / 7)` for an integer `x`: halves go up. */
  function RoundDiv7(x: int): int
  {
    (2 * x + 7) / 14
  }

  lemma RoundExact(k: int)
    ensures RoundDiv7(7 * k) == k
  {
  }

  /** `x - (x.getDay() + 6) % 7`: the same Monday as `getWeekStart`, written the other way. */
  function MondayOf(x: int): (m: int)
    ensures m == WeekStart(x)
  {
    x - (Weekday(x) + 6) % 7
  }

  /** The Monday of the week holding 4 January of year `y`. */
  function FirstMonday(y: int): (m: int)
    ensures Weekday(m) == MONDAY
    ensures m == WeekStart(DayNumber(Civil(y, 1, 4)))
  {
    MondayOf(DayNumber(Civil(y, 1, 4)))
  }

  /**
   * `getWeekNumber`: the week of the year that owns the Thursday of the week,
   * counted from the week holding 4 January of that year.
   */
  function WeekNumber(z: int): int
  {
    WeekNumberOfThursday(ThursdayOf(z))
  }

  /** The rest of `getWeekNumber` once the Thursday `t` of the week is known. */
  function WeekNumberOfThursday(t: int): int
  {
    var j4 := DayNumber(Civil(YearOf(t), 1, 4));
    1 + RoundDiv7(t - j4 - 3 + (Weekday(j4) + 6) % 7)
  }

  /** The ISO year of `z`: the calendar year of the Thursday of its week. */
  function WeekYear(z: int): int
  {
    YearOf(ThursdayOf(z))
  }

  /** The week number counts whole weeks from the first Monday of the ISO year. */
  lemma WeekNumberCounts(z: int)
    ensures 7 * (WeekNumber(z) - 1) == WeekStart(z) - FirstMonday(WeekYear(z))
  {
    ThursdayCounts(ThursdayOf(z), WeekStart(z));
  }

  lemma ThursdayCounts(t: int, start: int)
    requires Weekday(start) == MONDAY && t == start + 3
    ensures 7 * (WeekNumberOfThursday(t) - 1) == start - FirstMonday(YearOf(t))
  {
    var j4 := DayNumber(Civil(YearOf(t), 1, 4));
    CountedFromMonday(t, j4, start);
  }

  /** The arithmetic of `getWeekNumber`: from the Monday before `j4` to the Monday `start`. */
  lemma CountedFromMonday(t: int, j4: int, start: int)
    requires Weekday(start) == MONDAY && t == start + 3
    ensures 7 * RoundDiv7(t - j4 - 3 + (Weekday(j4) + 6) % 7) == start - (j4 - (Weekday(j4) + 6) % 7)
  {
    var m := j4 - (Weekday(j4) + 6) % 7;
    var d := start - m;
    assert Weekday(m) == MONDAY;
    MondaysApart(start, m);
    RoundExact(d / 7);
  }

  /** Two Mondays are a whole number of weeks apart. */
  lemma MondaysApart(a: int, b: int)
    requires Weekday(a) == MONDAY && Weekday(b) == MONDAY
    ensures a - b == 7 * ((a - b) / 7)
  {
    var qa, qb := (a + 4) / 7, (b + 4) / 7;
    assert a - b == 7 * (qa - qb);
  }

  /** The first Monday of a year lies between 29 December and 4 January. */
  lemma FirstMondayRange(y: int)
    ensures DaysBeforeYear(y) - 3 <= FirstMonday(y) <= DaysBeforeYear(y) + 3
  {
  }

  /** `getWeekNumber` lies in 1..53. */
  lemma WeekNumberRange(z: int)
    ensures 1 <= WeekNumber(z) <= 53
  {
    WeekNumberCounts(z);
    var t := ThursdayOf(z);
    var y := YearOf(t);
    FirstMondayRange(y);
    YearLength(y);
  }

  /** Days of one Monday week share their week number. */
  lemma SameWeekSameNumber(z1: int, z2: int)
    requires WeekStart(z1) == WeekStart(z2)
    ensures WeekNumber(z1) == WeekNumber(z2)
  {
    assert ThursdayOf(z1) == ThursdayOf(z2);
  }

  /** The week holding 4 January is week 1 of that year. */
  lemma FourthOfJanuaryIsWeekOne(y: int)
    ensures WeekYear(DayNumber(Civil(y, 1, 4))) == y
    ensures WeekNumber(DayNumber(Civil(y, 1, 4))) == 1
  {
    var j4 := DayNumber(Civil(y, 1, 4));
    YearLength(y);
    YearUnique(ThursdayOf(j4), y);
    WeekNumberCounts(j4);
  }

  /** Within one ISO year, the next week has the next number. */
  lemma NextWeekNextNumber(z: int)
    requires WeekYear(z + 7) == WeekYear(z)
    ensures WeekNumber(z + 7) == WeekNumber(z) + 1
  {
    WeekNumberCounts(z);
    WeekNumberCounts(z + 7);
    assert WeekStart(z + 7) == WeekStart(z) + 7;
  }

  // ---------------------------------------------------------------------------
  // Weekly workload

  /** Result of `calculateWeeklyWorkload`. */
  datatype WeekLoad = WeekLoad(
    weekNumber: int,
    weekStart: int,
    weekEnd: int,
    score: int,
    status: LoadStatus,
    assignments: seq<Assignment>,
    count: nat,
    dailyBreakdown: seq<DayLoad>,
    dstCount: nat)

  /** An assignment that counts as a DST (`type === 'dst' || weight === 'DST'`). */
  predicate IsDst(a: Assignment)
  {
    a.kind == "dst" || a.weight == "DST"
  }

  /** Sum of the scores of a list of days. */
  function DayScores(loads: seq<DayLoad>): int
  {
    if |loads| == 0 then 0 else DayScores(loads[..|loads| - 1]) + loads[|loads| - 1].score
  }

  lemma DayScoresAppend(loads: seq<DayLoad>, day: DayLoad)
    ensures DayScores(loads + [day]) == DayScores(loads) + day.score
  {
    assert (loads + [day])[..|loads|] == loads;
  }

  /** Score of the Monday week of `date`; a missing date gives an empty week. */
  function WeekScore(assignments: seq<Assignment>, date: Option<int>): int
  {
    if date.None? then 0 else WeightSum(DueBetween(assignments, WeekStart(date.value), WeekEnd(date.value)))
  }

  /** The daily loads of the `n` days from `first` on. */
  function PeriodDays(assignments: seq<Assignment>, first: int, n: nat): (r: seq<DayLoad>)
    ensures |r| == n
    ensures forall i :: 0 <= i < n ==> r[i].date == Some(first + i) && r[i].assignments == DueOn(assignments, Some(first + i))
  {
    var r := seq(n, i requires 0 <= i < n => DailyWorkload(assignments, Some(first + i)));
    assert forall i :: 0 <= i < n ==> r[i] == DailyWorkload(assignments, Some(first + i));
    r
  }

  /**
   * The day loads of `n` consecutive days from `first`: the 7-step loop of
   * `calculateWeeklyWorkload` and the date-stepping loop of
   * `generateWorkloadStats`.
   */
  method DayLoadsFrom(assignments: seq<Assignment>, first: int, n: nat) returns (loads: seq<DayLoad>)
    ensures |loads| == n
    ensures forall i :: 0 <= i < n ==> loads[i] == DailyWorkload(assignments, Some(first + i))
    ensures loads == PeriodDays(assignments, first, n)
    ensures DayScores(loads) == WeightSum(DueBetween(assignments, first, first + n - 1))
  {
    loads := [];
    DueBetweenEmpty(assignments, first, first - 1);
    assert WeightSum(DueBetween(assignments, first, first - 1)) == 0;
    var i := 0;
    while i < n
      invariant 0 <= i <= n
      invariant |loads| == i
      invariant forall k :: 0 <= k < i ==> loads[k] == DailyWorkload(assignments, Some(first + k))
      invariant DayScores(loads) == WeightSum(DueBetween(assignments, first, first + i - 1))
    {
      var dayLoad := DailyWorkload(assignments, Some(first + i));
      DayLoadStep(assignments, first, i, loads);
      assert forall k :: 0 <= k < i ==> (loads + [dayLoad])[k] == loads[k];
      loads := loads + [dayLoad];
      i := i + 1;
    }
  }

  /** One more day's load adds that day's weight to the range's. */
  lemma DayLoadStep(assignments: seq<Assignment>, first: int, i: nat, loads: seq<DayLoad>)
    requires DayScores(loads) == WeightSum(DueBetween(assignments, first, first + i - 1))
    ensures DayScores(loads + [DailyWorkload(assignments, Some(first + i))]) == WeightSum(DueBetween(assignments, first, first + i))
  {
    var dayLoad := DailyWorkload(assignments, Some(first + i));
    assert dayLoad.score == WeightSum(DueOn(assignments, Some(first + i)));
    DueBetweenSplit(assignments, first, first + i);
    DayScoresAppend(loads, dayLoad);
  }

  /**
   * `calculateWeeklyWorkload(assignments, date)`: the assignments due in the
   * Monday week of `date`, their score and status, the seven daily loads of
   * that week and the number of DSTs.
   */
  method WeeklyWorkload(assignments: seq<Assignment>, date: int) returns (r: WeekLoad)
    ensures r.weekNumber == WeekNumber(date)
    ensures WeekDescribed(r, assignments, date)
  {
    r := WeekLoadNumbered(assignments, date, WeekNumber(date));
  }

  /** What `calculateWeeklyWorkload` reports about the Monday week of `date`, its number aside. */
  ghost predicate WeekDescribed(r: WeekLoad, assignments: seq<Assignment>, date: int)
  {
    && r.weekStart == WeekStart(date) && r.weekEnd == WeekEnd(date)
    && r.assignments == DueBetween(assignments, r.weekStart, r.weekEnd)
    && r.count == |r.assignments|
    && r.score == r.count + 2 * TestCount(r.assignments)
    && r.score == WeekScore(assignments, Some(date))
    && r.status == WeeklyStatus(r.score)
    && |r.dailyBreakdown| == 7
    && (forall i :: 0 <= i < 7 ==> r.dailyBreakdown[i] == DailyWorkload(assignments, Some(r.weekStart + i)))
    && DayScores(r.dailyBreakdown) == r.score
    && r.dstCount == Count(r.assignments, IsDst) && r.dstCount <= r.count
  }

  /** The body of `calculateWeeklyWorkload` once the week number is known. */
  method WeekLoadNumbered(assignments: seq<Assignment>, date: int, weekNumber: int) returns (r: WeekLoad)
    ensures r.weekNumber == weekNumber
    ensures WeekDescribed(r, assignments, date)
  {
    var weekStart := WeekStart(date);
    var weekEnd := weekStart + 6;
    assert weekEnd == WeekEnd(date);
    var weekAssignments := DueBetween(assignments, weekStart, weekEnd);
    var score := WeightSum(weekAssignments);
    var dailyBreakdown := DayLoadsFrom(assignments, weekStart, 7);
    assert DayScores(dailyBreakdown) == score == WeekScore(assignments, Some(date));
    WeightSumCounts(weekAssignments);
    r := WeekLoad(weekNumber, weekStart, weekEnd, score, WeeklyStatus(score),
                  weekAssignments, |weekAssignments|, dailyBreakdown, Count(weekAssignments, IsDst));
  }

  // ---------------------------------------------------------------------------
  // Saturday DSTs

  /**
   * A DST record.  `date` is its day; `fields` is how the same object reads
   * when it is handed to the assignment functions (its `dueDate`, `type` and
   * `weight` properties, which DST records normally lack).
   */
  datatype Dst = Dst(date: int, subject: string, fields: Assignment)

  datatype Severity = Info | Low | MediumSeverity | High | CriticalSeverity

  /** Warnings of `analyzeDSTSchedule`; TOO_MANY_PER_WEEK carries its year-week key. */
  datatype DstWarning =
    | NotSaturday(dst: Dst)
    | ConsecutiveSaturdays(saturdays: nat, previous: int, current: int)
    | TooClose(dst: Dst)
    | TooManyPerWeek(year: int, week: int)

  function DstSeverity(w: DstWarning): Severity
  {
    match w
    case NotSaturday(_) => Info
    case ConsecutiveSaturdays(_, _, _) => High
    case TooClose(_) => MediumSeverity
    case TooManyPerWeek(_, _) => High
  }

  const DST_MAX_PER_WEEK := 1
  const DST_MIN_WEEKS_BETWEEN := 2
  const DST_MAX_CONSECUTIVE_SATURDAYS := 2

  /** The comparator `new Date(a.date) - new Date(b.date)` as an order. */
  predicate DstBefore(a: Dst, b: Dst)
  {
    a.date <= b.date
  }

  lemma DstOrderIsTotal()
    ensures TotalPreorder(DstBefore)
  {
  }

  /** State of the first loop: the run of consecutive Saturdays, the last Saturday seen, the warnings so far. */
  datatype SaturdayScan = SaturdayScan(consecutive: nat, lastSaturday: Option<int>, warnings: seq<DstWarning>)

  /** One iteration of the first loop of `analyzeDSTSchedule`. */
  function ScanStep(st: SaturdayScan, dst: Dst): SaturdayScan
  {
    if !IsSaturday(dst.date) then
      st.(warnings := st.warnings + [NotSaturday(dst)])
    else
      var next :=
        if st.lastSaturday.None? then st
        else
          var daysDiff := dst.date - st.lastSaturday.value;
          if daysDiff == 7 then
            var run := st.consecutive + 1;
            st.(consecutive := run,
                warnings := st.warnings + if run >= DST_MAX_CONSECUTIVE_SATURDAYS
                                          then [ConsecutiveSaturdays(run + 1, st.lastSaturday.value, dst.date)]
                                          else [])
          else if daysDiff < 7 * DST_MIN_WEEKS_BETWEEN then
            st.(consecutive := 0, warnings := st.warnings + [TooClose(dst)])
          else
            st.(consecutive := 0);
      next.(lastSaturday := Some(dst.date))
  }

  /** The first loop run over a whole list. */
  function Scan(dsts: seq<Dst>): SaturdayScan
  {
    if |dsts| == 0 then SaturdayScan(0, None, [])
    else ScanStep(Scan(dsts[..|dsts| - 1]), dsts[|dsts| - 1])
  }

  /** A DST off a Saturday only adds one 'info' warning and leaves the run and the last Saturday alone. */
  lemma NotSaturdayOnlyInforms(st: SaturdayScan, dst: Dst)
    requires !IsSaturday(dst.date)
    ensures ScanStep(st, dst).consecutive == st.consecutive
    ensures ScanStep(st, dst).lastSaturday == st.lastSaturday
    ensures ScanStep(st, dst).warnings == st.warnings + [NotSaturday(dst)]
    ensures DstSeverity(NotSaturday(dst)) == Info
  {
  }

  /** The remembered last Saturday is always a Saturday. */
  lemma {:induction false} LastSaturdayIsSaturday(dsts: seq<Dst>)
    ensures Scan(dsts).lastSaturday.Some? ==> IsSaturday(Scan(dsts).lastSaturday.value)
    decreases |dsts|
  {
    if |dsts| > 0 {
      LastSaturdayIsSaturday(dsts[..|dsts| - 1]);
    }
  }

  /** A consecutive-Saturdays warning is only raised for two Saturdays one week apart, from the third in a row on. */
  lemma {:induction false} ConsecutiveWarningsAreWeekApart(dsts: seq<Dst>)
    ensures forall i :: 0 <= i < |Scan(dsts).warnings| && Scan(dsts).warnings[i].ConsecutiveSaturdays? ==>
      Scan(dsts).warnings[i].current - Scan(dsts).warnings[i].previous == 7
      && Scan(dsts).warnings[i].saturdays >= DST_MAX_CONSECUTIVE_SATURDAYS + 1
      && IsSaturday(Scan(dsts).warnings[i].current)
    decreases |dsts|
  {
    if |dsts| > 0 {
      ConsecutiveWarningsAreWeekApart(dsts[..|dsts| - 1]);
    }
  }

  /** Key of `dstByWeek`: the calendar year of the date and its ISO week number. */
  function WeekKey(date: int): (int, int)
  {
    (YearOf(date), WeekNumber(date))
  }

  /** The first loop of `analyzeDSTSchedule`, over the sorted DSTs. */
  method ScanSaturdays(sortedDsts: seq<Dst>) returns (warnings: seq<DstWarning>)
    ensures warnings == Scan(sortedDsts).warnings
  {
    var consecutiveCount: nat := 0;
    var lastSaturday: Option<int> := None;
    warnings := [];
    var i := 0;
    while i < |sortedDsts|
      invariant 0 <= i <= |sortedDsts|
      invariant SaturdayScan(consecutiveCount, lastSaturday, warnings) == Scan(sortedDsts[..i])
    {
      assert sortedDsts[..i + 1][..i] == sortedDsts[..i];
      var dst := sortedDsts[i];
      if !IsSaturday(dst.date) {
        warnings := warnings + [NotSaturday(dst)];
      } else {
        if lastSaturday.Some? {
          var daysDiff := dst.date - lastSaturday.value;
          if daysDiff == 7 {
            consecutiveCount := consecutiveCount + 1;
            if consecutiveCount >= DST_MAX_CONSECUTIVE_SATURDAYS {
              warnings := warnings + [ConsecutiveSaturdays(consecutiveCount + 1, lastSaturday.value, dst.date)];
            }
          } else if daysDiff < 7 * DST_MIN_WEEKS_BETWEEN {
            warnings := warnings + [TooClose(dst)];
            consecutiveCount := 0;
          } else {
            consecutiveCount := 0;
          }
        }
        lastSaturday := Some(dst.date);
      }
      i := i + 1;
    }
    assert sortedDsts[..|sortedDsts|] == sortedDsts;
  }

  /** The DSTs of `s` whose key is `k`, in list order: what `dstByWeek[k]` holds after the loop. */
  function InWeek(s: seq<Dst>, weekKey: int -> (int, int), k: (int, int)): (r: seq<Dst>)
    ensures |r| <= |s|
  {
    if |s| == 0 then []
    else InWeek(s[..|s| - 1], weekKey, k) + if weekKey(s[|s| - 1].date) == k then [s[|s| - 1]] else []
  }

  /** The keys of `dstByWeek` after the loop over `s`. */
  function WeekKeys(s: seq<Dst>, weekKey: int -> (int, int)): set<(int, int)>
  {
    if |s| == 0 then {} else WeekKeys(s[..|s| - 1], weekKey) + {weekKey(s[|s| - 1].date)}
  }

  /** The TOO_MANY_PER_WEEK warnings the loop over `s` pushes: one each time a bucket grows past the limit. */
  function WeekWarnings(s: seq<Dst>, weekKey: int -> (int, int)): seq<DstWarning>
  {
    if |s| == 0 then []
    else
      var key := weekKey(s[|s| - 1].date);
      WeekWarnings(s[..|s| - 1], weekKey)
      + if |InWeek(s, weekKey, key)| > DST_MAX_PER_WEEK then [TooManyPerWeek(key.0, key.1)] else []
  }

  lemma PrefixSnoc(s: seq<Dst>, i: int)
    requires 0 <= i < |s|
    ensures s[..i + 1][..i] == s[..i] && s[..i + 1][i] == s[i] && |s[..i + 1]| == i + 1
  {
  }

  /** A key no DST has holds no DST. */
  lemma {:induction false} InWeekOfAbsentKey(s: seq<Dst>, weekKey: int -> (int, int), k: (int, int))
    requires k !in WeekKeys(s, weekKey)
    ensures InWeek(s, weekKey, k) == []
    decreases |s|
  {
    if |s| > 0 {
      InWeekOfAbsentKey(s[..|s| - 1], weekKey, k);
    }
  }

  /** `dstByWeek[key].push(dst)`, creating the bucket when it is missing. */
  function FileDst(byWeek: map<(int, int), seq<Dst>>, key: (int, int), dst: Dst): (r: map<(int, int), seq<Dst>>)
    ensures r.Keys == byWeek.Keys + {key}
    ensures forall k :: k in byWeek && k != key ==> r[k] == byWeek[k]
    ensures r[key] == (if key in byWeek then byWeek[key] else []) + [dst]
  {
    byWeek[key := (if key in byWeek then byWeek[key] else []) + [dst]]
  }

  /** After the loop over `s`: `byWeek` holds the buckets and `warnings` those of the scan followed by the ones pushed so far. */
  ghost predicate GroupedAs(s: seq<Dst>, weekKey: int -> (int, int), scanned: seq<DstWarning>, warnings: seq<DstWarning>, byWeek: map<(int, int), seq<Dst>>)
  {
    warnings == scanned + WeekWarnings(s, weekKey)
    && byWeek.Keys == WeekKeys(s, weekKey)
    && forall k :: k in byWeek ==> byWeek[k] == InWeek(s, weekKey, k)
  }

  /** One turn of the grouping loop keeps `GroupedAs`. */
  lemma GroupStep(s: seq<Dst>, i: int, weekKey: int -> (int, int), scanned: seq<DstWarning>, warnings: seq<DstWarning>, byWeek: map<(int, int), seq<Dst>>)
    requires 0 <= i < |s|
    requires GroupedAs(s[..i], weekKey, scanned, warnings, byWeek)
    ensures var key := weekKey(s[i].date);
      var next := FileDst(byWeek, key, s[i]);
      GroupedAs(s[..i + 1], weekKey, scanned, warnings + (if |next[key]| > DST_MAX_PER_WEEK then [TooManyPerWeek(key.0, key.1)] else []), next)
  {
    var key := weekKey(s[i].date);
    var next := FileDst(byWeek, key, s[i]);
    BucketsStep(s, i, weekKey, byWeek);
    var more := if |next[key]| > DST_MAX_PER_WEEK then [TooManyPerWeek(key.0, key.1)] else [];
    WarningsStep(s, i, weekKey, next, more);
    ConcatAssoc(scanned, WeekWarnings(s[..i], weekKey), more);
  }

  lemma ConcatAssoc(a: seq<DstWarning>, b: seq<DstWarning>, c: seq<DstWarning>)
    ensures (a + b) + c == a + (b + c)
  {
  }

  /** Filing the next DST keeps every bucket equal to its week's DSTs so far. */
  lemma BucketsStep(s: seq<Dst>, i: int, weekKey: int -> (int, int), byWeek: map<(int, int), seq<Dst>>)
    requires 0 <= i < |s|
    requires byWeek.Keys == WeekKeys(s[..i], weekKey)
    requires forall k :: k in byWeek ==> byWeek[k] == InWeek(s[..i], weekKey, k)
    ensures var next := FileDst(byWeek, weekKey(s[i].date), s[i]);
      next.Keys == WeekKeys(s[..i + 1], weekKey)
      && forall k :: k in next ==> next[k] == InWeek(s[..i + 1], weekKey, k)
  {
    PrefixSnoc(s, i);
    var key := weekKey(s[i].date);
    if key !in byWeek {
      InWeekOfAbsentKey(s[..i], weekKey, key);
    }
  }

  /** The warning pushed at this turn is the next one of `WeekWarnings`. */
  lemma WarningsStep(s: seq<Dst>, i: int, weekKey: int -> (int, int), next: map<(int, int), seq<Dst>>, more: seq<DstWarning>)
    requires 0 <= i < |s|
    requires weekKey(s[i].date) in next && next[weekKey(s[i].date)] == InWeek(s[..i + 1], weekKey, weekKey(s[i].date))
    requires var key := weekKey(s[i].date);
      more == if |next[key]| > DST_MAX_PER_WEEK then [TooManyPerWeek(key.0, key.1)] else []
    ensures WeekWarnings(s[..i + 1], weekKey) == WeekWarnings(s[..i], weekKey) + more
  {
    PrefixSnoc(s, i);
  }

  /**
   * The second loop of `analyzeDSTSchedule`: files each DST under its
   * year-week key (`weekKey`, the key function, is `WeekKey`) and appends a
   * TOO_MANY_PER_WEEK warning to `scanned` each time a week's bucket grows past
   * the limit.
   */
  method GroupByWeek(sortedDsts: seq<Dst>, scanned: seq<DstWarning>, weekKey: int -> (int, int)) returns (warnings: seq<DstWarning>, byWeek: map<(int, int), seq<Dst>>)
    ensures warnings == scanned + WeekWarnings(sortedDsts, weekKey)
    ensures byWeek.Keys == WeekKeys(sortedDsts, weekKey)
    ensures forall k :: k in byWeek ==> byWeek[k] == InWeek(sortedDsts, weekKey, k)
  {
    warnings := scanned;
    byWeek := map[];
    var i := 0;
    while i < |sortedDsts|
      invariant 0 <= i <= |sortedDsts|
      invariant GroupedAs(sortedDsts[..i], weekKey, scanned, warnings, byWeek)
    {
      var dst := sortedDsts[i];
      var key := weekKey(dst.date);
      var next := FileDst(byWeek, key, dst);
      var more := if |next[key]| > DST_MAX_PER_WEEK then [TooManyPerWeek(key.0, key.1)] else [];
      GroupStep(sortedDsts, i, weekKey, scanned, warnings, byWeek);
      byWeek := next;
      warnings := warnings + more;
      i := i + 1;
    }
    assert sortedDsts[..|sortedDsts|] == sortedDsts;
  }

  /**
   * A bucket holds exactly the DSTs of its week, in the order of the list,
   * so in date order when the list is sorted; its keys are the weeks of the DSTs.
   */
  lemma InWeekMeaning(s: seq<Dst>, weekKey: int -> (int, int), k: (int, int))
    ensures forall x :: x in InWeek(s, weekKey, k) <==> x in s && weekKey(x.date) == k
    ensures SortedBy(s, DstBefore) ==> SortedBy(InWeek(s, weekKey, k), DstBefore)
    ensures k in WeekKeys(s, weekKey) <==> exists j :: 0 <= j < |s| && weekKey(s[j].date) == k
  {
    InWeekMembers(s, weekKey, k);
    if SortedBy(s, DstBefore) {
      InWeekSorted(s, weekKey, k);
    }
  }

  lemma {:induction false} InWeekMembers(s: seq<Dst>, weekKey: int -> (int, int), k: (int, int))
    ensures forall x :: x in InWeek(s, weekKey, k) <==> x in s && weekKey(x.date) == k
    ensures k in WeekKeys(s, weekKey) <==> exists j :: 0 <= j < |s| && weekKey(s[j].date) == k
    decreases |s|
  {
    if |s| > 0 {
      var p, x := s[..|s| - 1], s[|s| - 1];
      assert s == p + [x];
      InWeekMembers(p, weekKey, k);
      if k in WeekKeys(s, weekKey) && weekKey(x.date) != k {
        var j :| 0 <= j < |p| && weekKey(p[j].date) == k;
        assert s[j] == p[j];
      }
      if exists j :: 0 <= j < |s| && weekKey(s[j].date) == k {
        var j :| 0 <= j < |s| && weekKey(s[j].date) == k;
        if j < |p| {
          assert p[j] == s[j];
        }
      }
    }
  }

  lemma {:induction false} InWeekSorted(s: seq<Dst>, weekKey: int -> (int, int), k: (int, int))
    requires SortedBy(s, DstBefore)
    ensures SortedBy(InWeek(s, weekKey, k), DstBefore)
    decreases |s|
  {
    if |s| > 0 {
      var p, x := s[..|s| - 1], s[|s| - 1];
      assert s == p + [x];
      assert SortedBy(p, DstBefore);
      InWeekSorted(p, weekKey, k);
      InWeekMembers(p, weekKey, k);
      var b := InWeek(p, weekKey, k);
      if weekKey(x.date) == k {
        forall i, j | 0 <= i < j < |b + [x]|
          ensures DstBefore((b + [x])[i], (b + [x])[j])
        {
          if j == |b| {
            assert b[i] in p;
            var m :| 0 <= m < |p| && p[m] == b[i];
            assert s[m] == b[i];
          } else {
            assert (b + [x])[i] == b[i] && (b + [x])[j] == b[j];
          }
        }
      }
    }
  }

  /** Buckets only grow as the list grows. */
  lemma {:induction false} InWeekGrows(s: seq<Dst>, weekKey: int -> (int, int), k: (int, int), n: nat)
    requires n <= |s|
    ensures |InWeek(s[..n], weekKey, k)| <= |InWeek(s, weekKey, k)|
    decreases |s|
  {
    if n < |s| {
      assert s[..|s| - 1][..n] == s[..n];
      InWeekGrows(s[..|s| - 1], weekKey, k, n);
    } else {
      assert s[..n] == s;
    }
  }

  /**
   * Each TOO_MANY_PER_WEEK warning names a week whose final bucket is over
   * the limit, and every such week is named, once per DST beyond the limit.
   */
  lemma {:induction false} WeekWarningsMeaning(s: seq<Dst>, weekKey: int -> (int, int))
    ensures forall i :: 0 <= i < |WeekWarnings(s, weekKey)| ==>
      WeekWarnings(s, weekKey)[i].TooManyPerWeek?
      && |InWeek(s, weekKey, (WeekWarnings(s, weekKey)[i].year, WeekWarnings(s, weekKey)[i].week))| > DST_MAX_PER_WEEK
    ensures forall k :: |InWeek(s, weekKey, k)| > DST_MAX_PER_WEEK ==> TooManyPerWeek(k.0, k.1) in WeekWarnings(s, weekKey)
    decreases |s|
  {
    if |s| > 0 {
      var p, x := s[..|s| - 1], s[|s| - 1];
      WeekWarningsMeaning(p, weekKey);
      var w := WeekWarnings(s, weekKey);
      var wp := WeekWarnings(p, weekKey);
      forall i | 0 <= i < |w|
        ensures w[i].TooManyPerWeek? && |InWeek(s, weekKey, (w[i].year, w[i].week))| > DST_MAX_PER_WEEK
      {
        if i < |wp| {
          assert w[i] == wp[i];
          InWeekGrows(s, weekKey, (w[i].year, w[i].week), |s| - 1);
        }
      }
      forall k | |InWeek(s, weekKey, k)| > DST_MAX_PER_WEEK
        ensures TooManyPerWeek(k.0, k.1) in w
      {
        if weekKey(x.date) == k {
          assert w[|w| - 1] == TooManyPerWeek(k.0, k.1);
        } else {
          assert InWeek(s, weekKey, k) == InWeek(p, weekKey, k);
          assert TooManyPerWeek(k.0, k.1) in wp;
        }
      }
    }
  }

  /** Result of `analyzeDSTSchedule`. */
  datatype DstAnalysis = DstAnalysis(total: nat, warnings: seq<DstWarning>, byWeek: map<(int, int), seq<Dst>>, hasHighSeverity: bool)

  /**
   * `byWeek` files the DSTs of `dstList` by week: its keys are the weeks that
   * have a DST, and each bucket holds exactly the DSTs of its week, in date order.
   */
  ghost predicate FiledByWeek(dstList: seq<Dst>, weekKey: int -> (int, int), byWeek: map<(int, int), seq<Dst>>)
  {
    (forall k :: k in byWeek <==> exists i :: 0 <= i < |dstList| && weekKey(dstList[i].date) == k)
    && (forall k, x :: k in byWeek ==> (x in byWeek[k] <==> x in dstList && weekKey(x.date) == k))
    && (forall k :: k in byWeek ==> SortedBy(byWeek[k], DstBefore))
  }

  /**
   * From index `from` on, `warnings` are TOO_MANY_PER_WEEK warnings naming
   * weeks whose bucket is over the limit, and every such week is named.
   */
  ghost predicate OverfullWeeksWarned(from: nat, warnings: seq<DstWarning>, byWeek: map<(int, int), seq<Dst>>)
  {
    (forall i :: from <= i < |warnings| ==>
      warnings[i].TooManyPerWeek? && (warnings[i].year, warnings[i].week) in byWeek
      && |byWeek[(warnings[i].year, warnings[i].week)]| > DST_MAX_PER_WEEK)
    && (forall k :: k in byWeek && |byWeek[k]| > DST_MAX_PER_WEEK ==> TooManyPerWeek(k.0, k.1) in warnings)
  }

  /**
   * `analyzeDSTSchedule(dstList)`: scans a date-sorted copy for DSTs off a
   * Saturday, runs of consecutive Saturdays and DSTs too close together, then
   * groups the DSTs by year-week key and warns each time a week's bucket grows
   * past the limit.
   */
  method AnalyzeDstSchedule(dstList: seq<Dst>) returns (r: DstAnalysis)
    ensures r.total == |dstList|
    ensures r.warnings == Scan(SortBy(dstList, DstBefore)).warnings + WeekWarnings(SortBy(dstList, DstBefore), WeekKey)
    ensures FiledByWeek(dstList, WeekKey, r.byWeek)
    ensures OverfullWeeksWarned(|Scan(SortBy(dstList, DstBefore)).warnings|, r.warnings, r.byWeek)
    ensures r.hasHighSeverity <==> exists i :: 0 <= i < |r.warnings| && DstSeverity(r.warnings[i]) == High
  {
    r := AnalyzeByWeekKey(dstList, WeekKey);
  }

  /** The body of `analyzeDSTSchedule`, with the year-week key function as a parameter. */
  method AnalyzeByWeekKey(dstList: seq<Dst>, weekKey: int -> (int, int)) returns (r: DstAnalysis)
    ensures r.total == |dstList|
    ensures r.warnings == Scan(SortBy(dstList, DstBefore)).warnings + WeekWarnings(SortBy(dstList, DstBefore), weekKey)
    ensures FiledByWeek(dstList, weekKey, r.byWeek)
    ensures OverfullWeeksWarned(|Scan(SortBy(dstList, DstBefore)).warnings|, r.warnings, r.byWeek)
    ensures r.hasHighSeverity <==> exists i :: 0 <= i < |r.warnings| && DstSeverity(r.warnings[i]) == High
  {
    var sortedDsts := SortBy(dstList, DstBefore);
    var scanned := ScanSaturdays(sortedDsts);
    var warnings, byWeek := GroupByWeek(sortedDsts, scanned, weekKey);
    GroupingMeaning(dstList, sortedDsts, weekKey, scanned, warnings, byWeek);
    r := DstAnalysis(|dstList|, warnings, byWeek, exists j :: 0 <= j < |warnings| && DstSeverity(warnings[j]) == High);
  }

  /** What the grouping loop's result means for the unsorted list. */
  lemma GroupingMeaning(dstList: seq<Dst>, sortedDsts: seq<Dst>, weekKey: int -> (int, int), scanned: seq<DstWarning>, warnings: seq<DstWarning>, byWeek: map<(int, int), seq<Dst>>)
    requires sortedDsts == SortBy(dstList, DstBefore)
    requires warnings == scanned + WeekWarnings(sortedDsts, weekKey)
    requires byWeek.Keys == WeekKeys(sortedDsts, weekKey)
    requires forall k :: k in byWeek ==> byWeek[k] == InWeek(sortedDsts, weekKey, k)
    ensures FiledByWeek(dstList, weekKey, byWeek)
    ensures OverfullWeeksWarned(|scanned|, warnings, byWeek)
  {
    ByWeekMeaning(dstList, sortedDsts, weekKey, byWeek);
    WarningsOfByWeek(sortedDsts, weekKey, scanned, warnings, byWeek);
  }

  /** Sorting keeps the same elements. */
  lemma SameElements(dstList: seq<Dst>, sortedDsts: seq<Dst>)
    requires multiset(sortedDsts) == multiset(dstList)
    ensures forall x :: x in sortedDsts <==> x in dstList
  {
    forall x ensures x in sortedDsts <==> x in dstList {
      assert x in sortedDsts <==> x in multiset(sortedDsts);
      assert x in dstList <==> x in multiset(dstList);
    }
  }

  /** The buckets built from the sorted copy hold the DSTs of the original list, in date order. */
  lemma ByWeekMeaning(dstList: seq<Dst>, sortedDsts: seq<Dst>, weekKey: int -> (int, int), byWeek: map<(int, int), seq<Dst>>)
    requires sortedDsts == SortBy(dstList, DstBefore)
    requires byWeek.Keys == WeekKeys(sortedDsts, weekKey)
    requires forall k :: k in byWeek ==> byWeek[k] == InWeek(sortedDsts, weekKey, k)
    ensures FiledByWeek(dstList, weekKey, byWeek)
  {
    SameElements(dstList, sortedDsts);
    KeysOfSortedCopy(dstList, sortedDsts, weekKey, byWeek);
    BucketsOfSortedCopy(dstList, sortedDsts, weekKey, byWeek);
  }

  lemma KeysOfSortedCopy(dstList: seq<Dst>, sortedDsts: seq<Dst>, weekKey: int -> (int, int), byWeek: map<(int, int), seq<Dst>>)
    requires forall x :: x in sortedDsts <==> x in dstList
    requires byWeek.Keys == WeekKeys(sortedDsts, weekKey)
    ensures forall k :: k in byWeek <==> exists i :: 0 <= i < |dstList| && weekKey(dstList[i].date) == k
  {
    forall k
      ensures k in byWeek <==> exists i :: 0 <= i < |dstList| && weekKey(dstList[i].date) == k
    {
      KeyOfSortedCopy(dstList, sortedDsts, weekKey, byWeek, k);
    }
  }

  lemma BucketsOfSortedCopy(dstList: seq<Dst>, sortedDsts: seq<Dst>, weekKey: int -> (int, int), byWeek: map<(int, int), seq<Dst>>)
    requires sortedDsts == SortBy(dstList, DstBefore)
    requires forall x :: x in sortedDsts <==> x in dstList
    requires forall k :: k in byWeek ==> byWeek[k] == InWeek(sortedDsts, weekKey, k)
    ensures forall k, x :: k in byWeek ==> (x in byWeek[k] <==> x in dstList && weekKey(x.date) == k)
    ensures forall k :: k in byWeek ==> SortedBy(byWeek[k], DstBefore)
  {
    DstOrderIsTotal();
    SortBySorted(dstList, DstBefore);
    forall k | k in byWeek
      ensures forall x :: x in byWeek[k] <==> x in dstList && weekKey(x.date) == k
      ensures SortedBy(byWeek[k], DstBefore)
    {
      InWeekMeaning(sortedDsts, weekKey, k);
    }
  }

  lemma KeyOfSortedCopy(dstList: seq<Dst>, sortedDsts: seq<Dst>, weekKey: int -> (int, int), byWeek: map<(int, int), seq<Dst>>, k: (int, int))
    requires forall x :: x in sortedDsts <==> x in dstList
    requires byWeek.Keys == WeekKeys(sortedDsts, weekKey)
    ensures k in byWeek <==> exists i :: 0 <= i < |dstList| && weekKey(dstList[i].date) == k
  {
    InWeekMeaning(sortedDsts, weekKey, k);
    if exists i :: 0 <= i < |dstList| && weekKey(dstList[i].date) == k {
      var i :| 0 <= i < |dstList| && weekKey(dstList[i].date) == k;
      assert dstList[i] in sortedDsts;
      var j :| 0 <= j < |sortedDsts| && sortedDsts[j] == dstList[i];
    }
    if k in byWeek {
      var j :| 0 <= j < |sortedDsts| && weekKey(sortedDsts[j].date) == k;
      assert sortedDsts[j] in dstList;
      var i :| 0 <= i < |dstList| && dstList[i] == sortedDsts[j];
    }
  }

  /** The pushed warnings name exactly the overfull weeks. */
  lemma WarningsOfByWeek(sortedDsts: seq<Dst>, weekKey: int -> (int, int), scanned: seq<DstWarning>, warnings: seq<DstWarning>, byWeek: map<(int, int), seq<Dst>>)
    requires warnings == scanned + WeekWarnings(sortedDsts, weekKey)
    requires byWeek.Keys == WeekKeys(sortedDsts, weekKey)
    requires forall k :: k in byWeek ==> byWeek[k] == InWeek(sortedDsts, weekKey, k)
    ensures OverfullWeeksWarned(|scanned|, warnings, byWeek)
  {
    WeekWarningsMeaning(sortedDsts, weekKey);
    var ww := WeekWarnings(sortedDsts, weekKey);
    forall i | |scanned| <= i < |warnings|
      ensures warnings[i].TooManyPerWeek? && (warnings[i].year, warnings[i].week) in byWeek
      ensures |byWeek[(warnings[i].year, warnings[i].week)]| > DST_MAX_PER_WEEK
    {
      var w := ww[i - |scanned|];
      assert warnings[i] == w;
      var k := (w.year, w.week);
      if k !in byWeek {
        InWeekOfAbsentKey(sortedDsts, weekKey, k);
      }
    }
    forall k | k in byWeek && |byWeek[k]| > DST_MAX_PER_WEEK
      ensures TooManyPerWeek(k.0, k.1) in warnings
    {
      var j :| 0 <= j < |ww| && ww[j] == TooManyPerWeek(k.0, k.1);
      assert warnings[|scanned| + j] == ww[j];
    }
  }

  // ---------------------------------------------------------------------------
  // DST date suggestions

  /** The Saturday on or after `x` (`if (day !== 6) setDate(getDate() + (6 - day))`). */
  function SaturdayOnOrAfter(x: int): (r: int)
    ensures IsSaturday(r)
    ensures x <= r < x + 7
  {
    var dayOfWeek := Weekday(x);
    if dayOfWeek != SATURDAY then x + (SATURDAY - dayOfWeek) else x
  }

  /** The candidate date for a week offset. */
  function Candidate(preferred: int, weekOffset: int): int
  {
    SaturdayOnOrAfter(preferred + weekOffset * 7)
  }

  datatype Suggestion = Suggestion(date: int, weekNumber: int, existingLoad: LoadStatus, score: int, recommended: bool)

  /** The comparator of `suggestDSTDates` as an order: recommended first, then by ascending score. */
  predicate SuggestionBefore(a: Suggestion, b: Suggestion)
  {
    (a.recommended && !b.recommended) || (a.recommended == b.recommended && a.score <= b.score)
  }

  lemma SuggestionOrderIsTotal()
    ensures TotalPreorder(SuggestionBefore)
  {
  }

  /** Some existing DST falls on `day` (`formatDate(dst.date) === formatDate(candidate)`). */
  predicate HasDstOn(existing: seq<Dst>, day: int)
  {
    exists j :: 0 <= j < |existing| && existing[j].date == day
  }

  /** The DST records read as assignments. */
  function DstFields(existing: seq<Dst>): (r: seq<Assignment>)
    ensures |r| == |existing|
    ensures forall j :: 0 <= j < |existing| ==> r[j] == existing[j].fields
  {
    seq(|existing|, j requires 0 <= j < |existing| => existing[j].fields)
  }

  /** `sg` is the suggestion built for week offset `k`. */
  predicate SuggestionAt(existing: seq<Dst>, preferred: int, k: int, sg: Suggestion)
  {
    sg.date == Candidate(preferred, k)
    && !HasDstOn(existing, sg.date)
    && sg.weekNumber == WeekNumber(sg.date)
    && sg.score == WeekScore(DstFields(existing), Some(sg.date))
    && sg.existingLoad == WeeklyStatus(sg.score)
    && sg.recommended == (sg.existingLoad == Light)
  }

  /** What every suggestion satisfies: a Saturday built for a non-zero offset within the range. */
  predicate ValidSuggestion(existing: seq<Dst>, preferred: int, range: int, sg: Suggestion)
  {
    IsSaturday(sg.date)
    && exists k :: -range <= k <= range && k != 0 && SuggestionAt(existing, preferred, k, sg)
  }

  /** One iteration of the loop of `suggestDSTDates`: the suggestion for a week offset, if its Saturday is free. */
  method SuggestionFor(existing: seq<Dst>, fields: seq<Assignment>, preferred: int, weekOffset: int) returns (o: Option<Suggestion>)
    requires fields == DstFields(existing)
    ensures o.None? <==> HasDstOn(existing, Candidate(preferred, weekOffset))
    ensures o.Some? ==> SuggestionAt(existing, preferred, weekOffset, o.value) && IsSaturday(o.value.date)
  {
    var candidate := preferred + weekOffset * 7;
    var dayOfWeek := Weekday(candidate);
    if dayOfWeek != SATURDAY {
      candidate := candidate + (SATURDAY - dayOfWeek);
    }
    assert candidate == Candidate(preferred, weekOffset);
    var hasConflict := exists j :: 0 <= j < |existing| && existing[j].date == candidate;
    if hasConflict {
      o := None;
    } else {
      var weekLoad := WeeklyWorkload(fields, candidate);
      o := Some(Suggestion(candidate, WeekNumber(candidate), weekLoad.status, weekLoad.score, weekLoad.status == Light));
    }
  }

  /**
   * `suggestDSTDates(existingDSTs, preferredDate, range)`: for each week
   * offset in [-range, range] other than 0, the Saturday on or after the
   * shifted date, unless a DST already falls on it; each is scored with the
   * weekly workload of the DST records themselves.
   */
  method SuggestDstDates(existing: seq<Dst>, preferred: int, range: int) returns (r: seq<Suggestion>)
    ensures range >= 0 ==> |r| <= 2 * range
    ensures range < 0 ==> r == []
    ensures forall i :: 0 <= i < |r| ==> ValidSuggestion(existing, preferred, range, r[i])
    ensures forall k :: -range <= k <= range && k != 0 && !HasDstOn(existing, Candidate(preferred, k)) ==>
      SuggestedFor(r, existing, preferred, k)
    ensures forall i, j :: 0 <= i < j < |r| ==> r[i].date != r[j].date
    ensures SortedBy(r, SuggestionBefore)
  {
    var suggestions := CollectSuggestions(existing, preferred, range);
    r := SortBy(suggestions, SuggestionBefore);
    SuggestionOrderIsTotal();
    SortBySorted(suggestions, SuggestionBefore);
    SortedKeepsSuggestions(existing, preferred, range, suggestions, r);
    DatesStayDistinct(suggestions, r);
  }

  /** A reordering of the collected suggestions is valid and complete as they are. */
  lemma SortedKeepsSuggestions(existing: seq<Dst>, preferred: int, range: int, s: seq<Suggestion>, r: seq<Suggestion>)
    requires multiset(r) == multiset(s)
    requires forall i :: 0 <= i < |s| ==> ValidSuggestion(existing, preferred, range, s[i])
    requires forall k :: -range <= k <= range && k != 0 && !HasDstOn(existing, Candidate(preferred, k)) ==>
      SuggestedFor(s, existing, preferred, k)
    ensures forall i :: 0 <= i < |r| ==> ValidSuggestion(existing, preferred, range, r[i])
    ensures forall k :: -range <= k <= range && k != 0 && !HasDstOn(existing, Candidate(preferred, k)) ==>
      SuggestedFor(r, existing, preferred, k)
  {
    forall i | 0 <= i < |r|
      ensures ValidSuggestion(existing, preferred, range, r[i])
    {
      InPermutation(r, s, i);
    }
    forall k | -range <= k <= range && k != 0 && !HasDstOn(existing, Candidate(preferred, k))
      ensures SuggestedFor(r, existing, preferred, k)
    {
      SuggestedForPermutation(existing, preferred, k, s, r);
    }
  }

  lemma SuggestedForPermutation(existing: seq<Dst>, preferred: int, k: int, s: seq<Suggestion>, r: seq<Suggestion>)
    requires multiset(r) == multiset(s)
    requires SuggestedFor(s, existing, preferred, k)
    ensures SuggestedFor(r, existing, preferred, k)
  {
    var i :| 0 <= i < |s| && SuggestionAt(existing, preferred, k, s[i]);
    InPermutation(s, r, i);
    var j :| 0 <= j < |r| && r[j] == s[i];
  }

  /** Some suggestion of `s` is the one built for week offset `k`. */
  ghost predicate SuggestedFor(s: seq<Suggestion>, existing: seq<Dst>, preferred: int, k: int)
  {
    exists i :: 0 <= i < |s| && SuggestionAt(existing, preferred, k, s[i])
  }

  /** Reordering suggestions with distinct dates keeps the dates distinct. */
  lemma DatesStayDistinct(s: seq<Suggestion>, r: seq<Suggestion>)
    requires forall i, j :: 0 <= i < j < |s| ==> s[i].date < s[j].date
    requires multiset(r) == multiset(s)
    ensures forall i, j :: 0 <= i < j < |r| ==> r[i].date != r[j].date
  {
    assert NoDuplicates(s) by {
      forall i, j | 0 <= i < j < |s| ensures s[i] != s[j] { assert s[i].date < s[j].date; }
    }
    PermutationKeepsDistinct(s, r);
    forall i, j | 0 <= i < j < |r|
      ensures r[i].date != r[j].date
    {
      assert r[i] in multiset(s) && r[j] in multiset(s);
      var a :| 0 <= a < |s| && s[a] == r[i];
      var b :| 0 <= b < |s| && s[b] == r[j];
      assert a != b;
      if a < b { assert s[a].date < s[b].date; } else { assert s[b].date < s[a].date; }
    }
  }

  /**
   * The loop of `suggestDSTDates`, before the final sort: one suggestion for
   * each non-zero offset in the range whose Saturday is free, in ascending
   * offset order, hence ascending date order.
   */
  method CollectSuggestions(existing: seq<Dst>, preferred: int, range: int) returns (suggestions: seq<Suggestion>)
    ensures range >= 0 ==> |suggestions| <= 2 * range
    ensures range < 0 ==> suggestions == []
    ensures forall i :: 0 <= i < |suggestions| ==> ValidSuggestion(existing, preferred, range, suggestions[i])
    ensures forall k :: -range <= k <= range && k != 0 && !HasDstOn(existing, Candidate(preferred, k)) ==>
      SuggestedFor(suggestions, existing, preferred, k)
    ensures forall i, j :: 0 <= i < j < |suggestions| ==> suggestions[i].date < suggestions[j].date
  {
    suggestions := [];
    var fields := DstFields(existing);
    var weekOffset := -range;
    while weekOffset <= range
      invariant weekOffset == -range || -range <= weekOffset <= range + 1
      invariant range >= 0 ==> |suggestions| <= weekOffset + range - (if weekOffset > 0 then 1 else 0)
      invariant range < 0 ==> suggestions == []
      invariant CollectedBelow(existing, preferred, range, weekOffset, suggestions)
    {
      suggestions := CollectStep(existing, fields, preferred, range, weekOffset, suggestions);
      weekOffset := weekOffset + 1;
    }
  }

  /** One turn of the loop of `suggestDSTDates`: the suggestion for `weekOffset` is pushed when there is one. */
  method CollectStep(existing: seq<Dst>, fields: seq<Assignment>, preferred: int, range: int, weekOffset: int,
                     suggestions: seq<Suggestion>) returns (next: seq<Suggestion>)
    requires fields == DstFields(existing) && -range <= weekOffset <= range
    requires CollectedBelow(existing, preferred, range, weekOffset, suggestions)
    ensures CollectedBelow(existing, preferred, range, weekOffset + 1, next)
    ensures |next| <= |suggestions| + (if weekOffset != 0 then 1 else 0)
  {
    next := suggestions;
    if weekOffset != 0 {
      var o := SuggestionFor(existing, fields, preferred, weekOffset);
      if o.Some? {
        AddStep(existing, preferred, range, weekOffset, suggestions, o.value);
        next := suggestions + [o.value];
      } else {
        SkipStep(existing, preferred, range, weekOffset, suggestions);
      }
    } else {
      SkipStep(existing, preferred, range, weekOffset, suggestions);
    }
  }

  /** The suggestions collected before offset `wo`: valid, complete below `wo`, in ascending date order, dated before the week of `wo`. */
  ghost predicate CollectedBelow(existing: seq<Dst>, preferred: int, range: int, wo: int, s: seq<Suggestion>)
  {
    (forall i :: 0 <= i < |s| ==> ValidSuggestion(existing, preferred, range, s[i]))
    && (forall k :: -range <= k < wo && k != 0 && !HasDstOn(existing, Candidate(preferred, k)) ==>
         SuggestedFor(s, existing, preferred, k))
    && (forall i, j :: 0 <= i < j < |s| ==> s[i].date < s[j].date)
    && (forall i :: 0 <= i < |s| ==> s[i].date < preferred + wo * 7)
  }

  /** An offset that yields nothing (0, or a Saturday already taken) leaves the collection complete one offset further. */
  lemma SkipStep(existing: seq<Dst>, preferred: int, range: int, wo: int, s: seq<Suggestion>)
    requires CollectedBelow(existing, preferred, range, wo, s)
    requires wo == 0 || HasDstOn(existing, Candidate(preferred, wo))
    ensures CollectedBelow(existing, preferred, range, wo + 1, s)
  {
  }

  /** The suggestion for a free offset extends the collection one offset further. */
  lemma AddStep(existing: seq<Dst>, preferred: int, range: int, wo: int, s: seq<Suggestion>, sg: Suggestion)
    requires CollectedBelow(existing, preferred, range, wo, s)
    requires -range <= wo <= range && wo != 0
    requires SuggestionAt(existing, preferred, wo, sg) && IsSaturday(sg.date)
    ensures CollectedBelow(existing, preferred, range, wo + 1, s + [sg])
  {
    ValidSnoc(existing, preferred, range, wo, s, sg);
    SuggestedSnoc(existing, preferred, range, wo, s, sg);
  }

  /** Appending the suggestion for offset `k` keeps every earlier offset suggested, adds `k`, and keeps dates ascending. */
  lemma SuggestedSnoc(existing: seq<Dst>, preferred: int, range: int, k: int, s: seq<Suggestion>, sg: Suggestion)
    requires SuggestionAt(existing, preferred, k, sg)
    requires forall i :: 0 <= i < |s| ==> s[i].date < preferred + k * 7
    requires forall i, j :: 0 <= i < j < |s| ==> s[i].date < s[j].date
    requires forall k' :: -range <= k' < k && k' != 0 && !HasDstOn(existing, Candidate(preferred, k')) ==>
      SuggestedFor(s, existing, preferred, k')
    ensures forall k' :: -range <= k' <= k && k' != 0 && !HasDstOn(existing, Candidate(preferred, k')) ==>
      SuggestedFor(s + [sg], existing, preferred, k')
    ensures forall i, j :: 0 <= i < j < |s + [sg]| ==> (s + [sg])[i].date < (s + [sg])[j].date
    ensures forall i :: 0 <= i < |s + [sg]| ==> (s + [sg])[i].date < preferred + (k + 1) * 7
  {
    var t := s + [sg];
    forall k' | -range <= k' <= k && k' != 0 && !HasDstOn(existing, Candidate(preferred, k'))
      ensures SuggestedFor(t, existing, preferred, k')
    {
      if k' == k {
        assert SuggestionAt(existing, preferred, k', t[|s|]);
      } else {
        var i :| 0 <= i < |s| && SuggestionAt(existing, preferred, k', s[i]);
        assert t[i] == s[i];
      }
    }
    DatesSnoc(preferred, k, s, sg);
  }

  lemma DatesSnoc(preferred: int, k: int, s: seq<Suggestion>, sg: Suggestion)
    requires sg.date == Candidate(preferred, k)
    requires forall i :: 0 <= i < |s| ==> s[i].date < preferred + k * 7
    requires forall i, j :: 0 <= i < j < |s| ==> s[i].date < s[j].date
    ensures forall i, j :: 0 <= i < j < |s + [sg]| ==> (s + [sg])[i].date < (s + [sg])[j].date
    ensures forall i :: 0 <= i < |s + [sg]| ==> (s + [sg])[i].date < preferred + (k + 1) * 7
  {
    var t := s + [sg];
    assert preferred + k * 7 <= sg.date < preferred + (k + 1) * 7;
    forall i | 0 <= i < |t|
      ensures t[i].date < preferred + (k + 1) * 7
    {
      if i < |s| { assert t[i] == s[i]; }
    }
  }

  /** A suggestion built for an offset in the range may join the valid ones. */
  lemma ValidSnoc(existing: seq<Dst>, preferred: int, range: int, k: int, s: seq<Suggestion>, sg: Suggestion)
    requires -range <= k <= range && k != 0 && SuggestionAt(existing, preferred, k, sg) && IsSaturday(sg.date)
    requires forall i :: 0 <= i < |s| ==> ValidSuggestion(existing, preferred, range, s[i])
    ensures forall i :: 0 <= i < |s + [sg]| ==> ValidSuggestion(existing, preferred, range, (s + [sg])[i])
  {
    assert ValidSuggestion(existing, preferred, range, sg);
    forall i | 0 <= i < |s + [sg]|
      ensures ValidSuggestion(existing, preferred, range, (s + [sg])[i])
    {
      if i < |s| { assert (s + [sg])[i] == s[i]; }
    }
  }

  /** Every assignment without a due date is outside every range. */
  lemma {:induction false} UndatedOutsideRanges(s: seq<Assignment>, lo: int, hi: int)
    requires forall j :: 0 <= j < |s| ==> s[j].dueDate.None?
    ensures DueBetween(s, lo, hi) == []
  {
    if |s| > 0 {
      UndatedOutsideRanges(s[1..], lo, hi);
    }
  }

  /**
   * DST records carry `date`, not `dueDate`: when none has a `dueDate`, every
   * candidate week scores 0, so every suggestion is recommended.
   */
  lemma DstsWithoutDueDateAllRecommended(existing: seq<Dst>, preferred: int, range: int, sg: Suggestion)
    requires forall j :: 0 <= j < |existing| ==> existing[j].fields.dueDate.None?
    requires ValidSuggestion(existing, preferred, range, sg)
    ensures sg.score == 0 && sg.recommended
  {
    var k :| -range <= k <= range && k != 0 && SuggestionAt(existing, preferred, k, sg);
    UndatedOutsideRanges(DstFields(existing), WeekStart(sg.date), WeekEnd(sg.date));
  }

  // ---------------------------------------------------------------------------
  // Conflict projection

  datatype ConflictWarning =
    | DailyOverload(existingAssignments: seq<Assignment>)
    | DailyCritical(existingAssignments: seq<Assignment>)
    | WeeklyOverload
    | AdjacentDay(dayBefore: bool)

  function ConflictSeverity(w: ConflictWarning): Severity
  {
    match w
    case DailyOverload(_) => High
    case DailyCritical(_) => CriticalSeverity
    case WeeklyOverload => MediumSeverity
    case AdjacentDay(_) => Low
  }

  datatype ConflictReport = ConflictReport(
    canAdd: bool,
    dailyStatus: LoadStatus,
    weeklyStatus: LoadStatus,
    projectedDailyScore: int,
    projectedWeeklyScore: int,
    warnings: seq<ConflictWarning>,
    hasHighSeverity: bool)

  /** A date moved by `k` days; a missing date stays missing. */
  function ShiftDay(d: Option<int>, k: int): Option<int>
  {
    if d.None? then None else Some(d.value + k)
  }

  /** The day is already heavy or critical. */
  predicate Overloaded(status: LoadStatus)
  {
    status == Heavy || status == Critical
  }

  /** A warning of severity `high` or `critical`. */
  predicate Severe(c: ConflictWarning)
  {
    ConflictSeverity(c) == High || ConflictSeverity(c) == CriticalSeverity
  }

  /** The warnings of `checkForConflicts`, in the order they are pushed. */
  function ConflictWarnings(daily: LoadStatus, dayAssignments: seq<Assignment>, weekly: LoadStatus, prev: LoadStatus, next: LoadStatus): (w: seq<ConflictWarning>)
    ensures |w| <= 4
    ensures daily == Heavy <==> |w| > 0 && w[0].DailyOverload?
    ensures daily == Critical <==> |w| > 0 && w[0].DailyCritical?
    ensures WeeklyOverload in w <==> Overloaded(weekly)
    ensures (exists i :: 0 <= i < |w| && Severe(w[i])) <==> Overloaded(daily)
    ensures AdjacentDay(true) in w <==> Overloaded(prev)
    ensures AdjacentDay(false) in w <==> Overloaded(next)
  {
    var first :=
      if daily == Heavy then [DailyOverload(dayAssignments)]
      else if daily == Critical then [DailyCritical(dayAssignments)]
      else [];
    var week := if Overloaded(weekly) then [WeeklyOverload] else [];
    var before := if Overloaded(prev) then [AdjacentDay(true)] else [];
    var after := if Overloaded(next) then [AdjacentDay(false)] else [];
    var rest := week + before + after;
    assert forall x :: x in rest <==> x in week || x in before || x in after;
    assert forall x :: x in rest ==> !Severe(x) && !x.DailyOverload? && !x.DailyCritical?;
    DailyWarningFirst(first, rest);
    first + rest
  }

  /** Only the daily warning, pushed first, can be severe. */
  lemma DailyWarningFirst(first: seq<ConflictWarning>, rest: seq<ConflictWarning>)
    requires |first| <= 1
    requires forall x :: x in rest ==> !Severe(x) && !x.DailyOverload? && !x.DailyCritical?
    ensures (exists i :: 0 <= i < |first + rest| && Severe((first + rest)[i])) <==> first != [] && Severe(first[0])
    ensures |first + rest| > 0 && (first + rest)[0].DailyOverload? <==> first != [] && first[0].DailyOverload?
    ensures |first + rest| > 0 && (first + rest)[0].DailyCritical? <==> first != [] && first[0].DailyCritical?
  {
    if first == [] {
      assert first + rest == rest;
    } else {
      assert (first + rest)[0] == first[0];
      assert forall i :: 1 <= i < |first + rest| ==> (first + rest)[i] in rest;
    }
  }

  /**
   * `checkForConflicts(existingAssignments, newAssignment)`: the daily and
   * weekly scores the new assignment would bring about, and warnings for an
   * overloaded day, week or neighbouring day.
   */
  function CheckForConflicts(existing: seq<Assignment>, newAssignment: Assignment): (r: ConflictReport)
    ensures r.projectedDailyScore == DailyWorkload(existing, newAssignment.dueDate).score + AssignmentWeight(newAssignment)
    ensures r.projectedWeeklyScore == WeekScore(existing, newAssignment.dueDate) + AssignmentWeight(newAssignment)
    ensures r.dailyStatus == DailyStatus(r.projectedDailyScore) && r.weeklyStatus == WeeklyStatus(r.projectedWeeklyScore)
    ensures r.canAdd <==> r.projectedDailyScore <= DAILY_HEAVY
    ensures r.dailyStatus == Heavy <==> |r.warnings| > 0 && r.warnings[0].DailyOverload?
    ensures r.dailyStatus == Critical <==> |r.warnings| > 0 && r.warnings[0].DailyCritical?
    ensures WeeklyOverload in r.warnings <==> r.projectedWeeklyScore > WEEKLY_MEDIUM
    ensures r.hasHighSeverity <==> r.projectedDailyScore > DAILY_MEDIUM
    ensures |r.warnings| <= 4
  {
    var newWeight := AssignmentWeight(newAssignment);
    var dailyLoad := DailyWorkload(existing, newAssignment.dueDate);
    var projectedDailyScore := dailyLoad.score + newWeight;
    var projectedDailyStatus := DailyStatus(projectedDailyScore);
    var projectedWeeklyScore := WeekScore(existing, newAssignment.dueDate) + newWeight;
    var projectedWeeklyStatus := WeeklyStatus(projectedWeeklyScore);
    var prevDayLoad := DailyWorkload(existing, ShiftDay(newAssignment.dueDate, -1));
    var nextDayLoad := DailyWorkload(existing, ShiftDay(newAssignment.dueDate, 1));
    var warnings := ConflictWarnings(projectedDailyStatus, dailyLoad.assignments, projectedWeeklyStatus, prevDayLoad.status, nextDayLoad.status);
    ConflictReport(
      projectedDailyStatus != Critical,
      projectedDailyStatus,
      projectedWeeklyStatus,
      projectedDailyScore,
      projectedWeeklyScore,
      warnings,
      exists i :: 0 <= i < |warnings| && Severe(warnings[i]))
  }

  /** A day's assignments are part of its week, so a day never outweighs its week. */
  lemma {:induction false} DayWithinRange(s: seq<Assignment>, d: int, lo: int, hi: int)
    requires lo <= d <= hi
    ensures WeightSum(DueOn(s, Some(d))) <= WeightSum(DueBetween(s, lo, hi))
  {
    if |s| > 0 {
      DayWithinRange(s[1..], d, lo, hi);
      var x := s[0];
      if x.dueDate == Some(d) {
        var a, b := DueOn(s[1..], Some(d)), DueBetween(s[1..], lo, hi);
        assert ([x] + a)[1..] == a && ([x] + b)[1..] == b;
      } else if x.dueDate.Some? && lo <= x.dueDate.value <= hi {
        var b := DueBetween(s[1..], lo, hi);
        assert ([x] + b)[1..] == b;
      }
    }
  }

  /** For a dated assignment the projected daily score never exceeds the projected weekly score. */
  lemma ProjectedDayWithinWeek(existing: seq<Assignment>, newAssignment: Assignment)
    requires newAssignment.dueDate.Some?
    ensures CheckForConflicts(existing, newAssignment).projectedDailyScore <= CheckForConflicts(existing, newAssignment).projectedWeeklyScore
  {
    var d := newAssignment.dueDate.value;
    DayWithinRange(existing, d, WeekStart(d), WeekEnd(d));
  }

  // ---------------------------------------------------------------------------
  // Statistics over a period

  /** Filtering twice by the same range changes nothing. */
  lemma {:induction false} DueBetweenIdempotent(s: seq<Assignment>, lo: int, hi: int)
    ensures DueBetween(DueBetween(s, lo, hi), lo, hi) == DueBetween(s, lo, hi)
  {
    if |s| > 0 {
      DueBetweenIdempotent(s[1..], lo, hi);
      var rest := DueBetween(s[1..], lo, hi);
      if s[0].dueDate.Some? && lo <= s[0].dueDate.value <= hi {
        assert ([s[0]] + rest)[1..] == rest;
      }
    }
  }

  /** The comparator `b.score - a.score`: higher scores first. */
  predicate ScoreAtLeast(a: DayLoad, b: DayLoad)
  {
    a.score >= b.score
  }

  predicate HasScore(d: DayLoad)
  {
    d.score > 0
  }

  lemma ScoreOrderIsTotal()
    ensures TotalPreorder(ScoreAtLeast)
  {
  }

  /**
   * `peakDays`: the five highest-scoring days, highest first, without the
   * days that score nothing.
   */
  function PeakDays(loads: seq<DayLoad>): (r: seq<DayLoad>)
    ensures |r| <= 5
    ensures forall i :: 0 <= i < |r| ==> r[i].score > 0 && r[i] in loads
    ensures SortedBy(r, ScoreAtLeast)
  {
    var sorted := SortBy(loads, ScoreAtLeast);
    ScoreOrderIsTotal();
    SortBySorted(loads, ScoreAtLeast);
    var top := Take(sorted, 5);
    FilterSorted(top, HasScore, ScoreAtLeast);
    var r := Filter(top, HasScore);
    assert forall i :: 0 <= i < |r| ==> r[i] in loads by {
      forall i | 0 <= i < |r| ensures r[i] in loads {
        assert r[i] in top;
        assert r[i] in multiset(sorted);
      }
    }
    r
  }

  /** When some day scores, the first peak day is a highest-scoring day. */
  lemma PeakDaysStartAtMaximum(loads: seq<DayLoad>, j: int)
    requires 0 <= j < |loads| && loads[j].score > 0
    ensures |PeakDays(loads)| > 0
    ensures forall i :: 0 <= i < |loads| ==> loads[i].score <= PeakDays(loads)[0].score
  {
    var sorted := SortBy(loads, ScoreAtLeast);
    ScoreOrderIsTotal();
    SortBySorted(loads, ScoreAtLeast);
    forall i | 0 <= i < |loads|
      ensures loads[i].score <= sorted[0].score
    {
      assert loads[i] in multiset(sorted);
      var k :| 0 <= k < |sorted| && sorted[k] == loads[i];
    }
    var top := Take(sorted, 5);
    FilterKeepsFirst(top, HasScore);
  }

  /**
   * The peak days are the five highest: a scoring day left out means five
   * peak days were kept, each scoring at least as much as it.
   */
  lemma PeakDaysAreTopFive(loads: seq<DayLoad>, d: DayLoad)
    requires d in loads && d.score > 0 && d !in PeakDays(loads)
    ensures |PeakDays(loads)| == 5
    ensures forall i :: 0 <= i < 5 ==> PeakDays(loads)[i].score >= d.score
  {
    var sorted := SortBy(loads, ScoreAtLeast);
    ScoreOrderIsTotal();
    SortBySorted(loads, ScoreAtLeast);
    assert PeakDays(loads) == Filter(Take(sorted, 5), HasScore);
    assert d in multiset(sorted);
    var k :| 0 <= k < |sorted| && sorted[k] == d;
    MissedPeakDay(sorted, k);
  }

  /** An element missing from a prefix sits beyond it. */
  lemma NotInPrefix<T>(s: seq<T>, n: nat, k: nat)
    requires n <= |s| && k < |s| && s[k] !in s[..n]
    ensures k >= n
  {
    assert forall i {:trigger s[i]} :: 0 <= i < n ==> s[..n][i] == s[i];
  }

  /** In a list sorted by falling score, a scoring day outside the kept five leaves five scoring days above it. */
  lemma MissedPeakDay(sorted: seq<DayLoad>, k: int)
    requires SortedBy(sorted, ScoreAtLeast)
    requires 0 <= k < |sorted| && sorted[k].score > 0 && sorted[k] !in Filter(Take(sorted, 5), HasScore)
    ensures k >= 5 && Filter(Take(sorted, 5), HasScore) == sorted[..5]
    ensures forall i :: 0 <= i < 5 ==> sorted[i].score >= sorted[k].score
  {
    var top := Take(sorted, 5);
    assert sorted[k] !in top;
    NotInPrefix(sorted, |top|, k);
    assert forall i :: 0 <= i < 5 ==> top[i] == sorted[i] && ScoreAtLeast(sorted[i], sorted[k]);
    FilterAll(top, HasScore);
  }

  /** `statusCounts[status] || 0`. */
  function TallyOf(m: map<LoadStatus, nat>, status: LoadStatus): nat
  {
    if status in m then m[status] else 0
  }

  /** `statusCounts`: how many days have each status; absent statuses count 0. */
  function StatusTally(loads: seq<DayLoad>): (m: map<LoadStatus, nat>)
    ensures forall st :: st in m ==> m[st] > 0
  {
    if |loads| == 0 then map[]
    else
      var m := StatusTally(loads[..|loads| - 1]);
      var st := loads[|loads| - 1].status;
      m[st := TallyOf(m, st) + 1]
  }

  /** `overloadDays`: the days that are heavy or critical. */
  function OverloadCount(loads: seq<DayLoad>): nat
  {
    if |loads| == 0 then 0
    else OverloadCount(loads[..|loads| - 1]) + if Overloaded(loads[|loads| - 1].status) then 1 else 0
  }

  /** The status counts partition the days, and the overloaded days are the heavy and critical ones. */
  lemma {:induction false} StatusTallyTotals(loads: seq<DayLoad>)
    ensures TallyOf(StatusTally(loads), Light) + TallyOf(StatusTally(loads), Medium)
      + TallyOf(StatusTally(loads), Heavy) + TallyOf(StatusTally(loads), Critical) == |loads|
    ensures OverloadCount(loads) == TallyOf(StatusTally(loads), Heavy) + TallyOf(StatusTally(loads), Critical)
  {
    if |loads| > 0 {
      var prefix := loads[..|loads| - 1];
      StatusTallyTotals(prefix);
      var m := StatusTally(prefix);
      var st := loads[|loads| - 1].status;
      assert StatusTally(loads) == m[st := TallyOf(m, st) + 1];
      assert forall other :: other != st ==> TallyOf(StatusTally(loads), other) == TallyOf(m, other);
      assert TallyOf(StatusTally(loads), st) == TallyOf(m, st) + 1;
    }
  }

  datatype SubjectTotals = SubjectTotals(count: nat, totalWeight: int)

  /** `a.subject || 'Autre'`. */
  function SubjectKey(a: Assignment): string
  {
    if a.subject == "" then "Autre" else a.subject
  }

  /** Number of assignments filed under `key`. */
  function SubjectCount(s: seq<Assignment>, key: string): nat
  {
    if |s| == 0 then 0
    else SubjectCount(s[..|s| - 1], key) + if SubjectKey(s[|s| - 1]) == key then 1 else 0
  }

  /** `bySubject`: per subject key, the number of assignments and their total weight. */
  function SubjectTally(s: seq<Assignment>): (m: map<string, SubjectTotals>)
    ensures forall k :: k in m ==> m[k].count == SubjectCount(s, k) && 1 <= m[k].count <= m[k].totalWeight <= 3 * m[k].count
    ensures forall k :: k !in m ==> SubjectCount(s, k) == 0
  {
    if |s| == 0 then map[]
    else
      var m := SubjectTally(s[..|s| - 1]);
      var a := s[|s| - 1];
      var key := SubjectKey(a);
      var before := if key in m then m[key] else SubjectTotals(0, 0);
      m[key := SubjectTotals(before.count + 1, before.totalWeight + AssignmentWeight(a))]
  }

  /** Summing the days of a period gives the weight of the assignments due in it. */
  lemma PeriodScore(assignments: seq<Assignment>, start: int, end: int, n: nat)
    requires n == if end >= start then end - start + 1 else 0
    ensures DueBetween(DueBetween(assignments, start, end), start, start + n - 1) == DueBetween(assignments, start, end)
  {
    if n > 0 {
      DueBetweenIdempotent(assignments, start, end);
    } else {
      DueBetweenEmpty(DueBetween(assignments, start, end), start, start - 1);
      DueBetweenEmpty(assignments, start, end);
    }
  }

  /** Result of `generateWorkloadStats`, without the floating-point average. */
  datatype WorkloadStats = WorkloadStats(
    periodStart: int,
    periodEnd: int,
    days: int,
    totalAssignments: nat,
    totalScore: int,
    peakDays: seq<DayLoad>,
    statusCounts: map<LoadStatus, nat>,
    bySubject: map<string, SubjectTotals>,
    overloadDays: nat)

  /**
   * `generateWorkloadStats(assignments, startDate, endDate)`: the daily loads
   * of every day from start to end, summarised.  Every assignment due in the
   * period is counted on exactly one day, so the total score is the weight of
   * the period's assignments.
   */
  method GenerateWorkloadStats(assignments: seq<Assignment>, start: int, end: int) returns (r: WorkloadStats)
    ensures r.days == end - start
    ensures r.totalAssignments == |DueBetween(assignments, start, end)|
    ensures r.totalScore == WeightSum(DueBetween(assignments, start, end))
    ensures r.totalScore == r.totalAssignments + 2 * TestCount(DueBetween(assignments, start, end))
    ensures r.peakDays == PeakDays(PeriodDays(DueBetween(assignments, start, end), start, if end >= start then end - start + 1 else 0))
    ensures |r.peakDays| <= 5 && SortedBy(r.peakDays, ScoreAtLeast)
    ensures forall i :: 0 <= i < |r.peakDays| ==> r.peakDays[i].score > 0
    ensures TallyOf(r.statusCounts, Light) + TallyOf(r.statusCounts, Medium) + TallyOf(r.statusCounts, Heavy)
      + TallyOf(r.statusCounts, Critical) == if end >= start then end - start + 1 else 0
    ensures r.overloadDays == TallyOf(r.statusCounts, Heavy) + TallyOf(r.statusCounts, Critical)
    ensures r.bySubject == SubjectTally(DueBetween(assignments, start, end))
  {
    var filtered, dailyScores := PeriodLoads(assignments, start, end);
    r := Summarise(filtered, dailyScores, start, end);
  }

  /** The summary of the period's assignments `filtered` and its daily loads. */
  method Summarise(filtered: seq<Assignment>, dailyScores: seq<DayLoad>, start: int, end: int) returns (r: WorkloadStats)
    requires |dailyScores| == if end >= start then end - start + 1 else 0
    requires DayScores(dailyScores) == WeightSum(filtered)
    requires WeightSum(filtered) == |filtered| + 2 * TestCount(filtered)
    ensures r.days == end - start
    ensures r.totalAssignments == |filtered|
    ensures r.totalScore == WeightSum(filtered)
    ensures r.totalScore == r.totalAssignments + 2 * TestCount(filtered)
    ensures r.peakDays == PeakDays(dailyScores)
    ensures |r.peakDays| <= 5 && SortedBy(r.peakDays, ScoreAtLeast)
    ensures forall i :: 0 <= i < |r.peakDays| ==> r.peakDays[i].score > 0
    ensures TallyOf(r.statusCounts, Light) + TallyOf(r.statusCounts, Medium) + TallyOf(r.statusCounts, Heavy)
      + TallyOf(r.statusCounts, Critical) == |dailyScores|
    ensures r.overloadDays == TallyOf(r.statusCounts, Heavy) + TallyOf(r.statusCounts, Critical)
    ensures r.bySubject == SubjectTally(filtered)
  {
    var peakDays := PeakDays(dailyScores);
    var statusCounts := StatusTally(dailyScores);
    var bySubject := SubjectTally(filtered);
    var totalScore := DayScores(dailyScores);
    StatusTallyTotals(dailyScores);
    r := WorkloadStats(start, end, end - start, |filtered|, totalScore, peakDays, statusCounts, bySubject, OverloadCount(dailyScores));
  }

  /** The assignments due in the period and the daily loads of its days. */
  method PeriodLoads(assignments: seq<Assignment>, start: int, end: int) returns (filtered: seq<Assignment>, dailyScores: seq<DayLoad>)
    ensures filtered == DueBetween(assignments, start, end)
    ensures dailyScores == PeriodDays(filtered, start, if end >= start then end - start + 1 else 0)
    ensures DayScores(dailyScores) == WeightSum(filtered)
    ensures WeightSum(filtered) == |filtered| + 2 * TestCount(filtered)
  {
    filtered := DueBetween(assignments, start, end);
    var n := if end >= start then end - start + 1 else 0;
    dailyScores := DayLoadsFrom(filtered, start, n);
    PeriodScore(assignments, start, end, n);
    WeightSumCounts(filtered);
  }
}
