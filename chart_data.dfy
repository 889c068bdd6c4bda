/**
 * The two chart series that the statistics page and the dashboard compute
 * the same way from the assignment list: one point per upcoming day that
 * has work (sorted by date, the first `cap` of them) and one point per week
 * for the four weeks starting today.  Dates are day numbers and `today` is
 * the current day.
 */
module ChartData {
  import opened Wrappers
  import opened Collections
  import opened Assignments
  import opened Dates
  import opened WorkloadCalculator

  /** `dayNames`, indexed by `getDay()` (Sunday first). */
  const DAY_NAMES: seq<string> := ["Dim", "Lun", "Mar", "Mer", "Jeu", "Ven", "Sam"]

  /** The subject a page files an assignment under: its own, or 'Autre' when it has none. */
  function SubjectOf(a: Assignment): (r: string)
    ensures r != ""
    ensures a.subject != "" ==> r == a.subject
  {
    if a.subject == "" then "Autre" else a.subject
  }

  /** The assignments filed under subject `name`, in list order. */
  function Of(s: seq<Assignment>, name: string): seq<Assignment>
  {
    Where(s, SubjectOf, name)
  }

  /** One bar of the daily chart: the day's short name, its date, weight, number and list of assignments. */
  datatype DayPoint = DayPoint(day: string, date: int, score: int, count: nat, assignments: seq<Assignment>)

  /** The bar of day `d`: the assignments due that day, in list order, with their weight and number. */
  function PointOf(s: seq<Assignment>, d: int): DayPoint
  {
    var due := DueOn(s, Some(d));
    DayPoint(DAY_NAMES[Weekday(d)], d, WeightSum(due), |due|, due)
  }

  /** The bar after one more assignment of its day: one more, three points for a test and one otherwise. */
  function Added(p: DayPoint, a: Assignment): DayPoint
  {
    p.(count := p.count + 1, score := p.score + (if a.kind == "test" then 3 else 1), assignments := p.assignments + [a])
  }

  /** The distinct due dates from `today` on, in order of first appearance (the keys of `dateMap`). */
  function Upcoming(s: seq<Assignment>, today: int): (r: seq<int>)
    ensures NoDuplicates(r)
  {
    if |s| == 0 then []
    else
      var r := Upcoming(s[..|s| - 1], today);
      var due := s[|s| - 1].dueDate;
      if due.Some? && due.value >= today && due.value !in r then r + [due.value] else r
  }

  predicate DateLe(a: DayPoint, b: DayPoint)
  {
    a.date <= b.date
  }

  /**
   * Day `d` is accounted for: it has a bar, or the chart is full and every
   * bar is earlier.
   */
  predicate Listed(points: seq<DayPoint>, d: int, cap: nat)
  {
    (exists i :: 0 <= i < |points| && points[i].date == d)
    || (|points| == cap && (cap == 0 || points[cap - 1].date < d))
  }

  /**
   * `dailyChartData`: every bar is the bar of its day, a day from today on
   * with at least one assignment; bars are in strictly increasing date
   * order; there are at most `cap` of them; and every assignment due from
   * today on is on a bar unless the chart is full of earlier days.
   */
  method DailyChart(s: seq<Assignment>, today: int, cap: nat) returns (points: seq<DayPoint>)
    ensures |points| <= cap
    ensures forall i :: 0 <= i < |points| ==> points[i] == PointOf(s, points[i].date)
    ensures forall i :: 0 <= i < |points| ==> today <= points[i].date && points[i].count > 0
    ensures forall i, j :: 0 <= i < j < |points| ==> points[i].date < points[j].date
    ensures forall k :: 0 <= k < |s| && s[k].dueDate.Some? && s[k].dueDate.value >= today ==> Listed(points, s[k].dueDate.value, cap)
  {
    var dates, dateMap := Tally(s, today);
    TalliedKeys(dates, dateMap, s, today);
    var values := seq(|dates|, k requires 0 <= k < |dates| => dateMap[dates[k]]);
    ValuesOfTally(s, today, dates, dateMap, values);
    var sorted := SortBy(values, DateLe);
    points := Take(sorted, cap);
    ChartOfValues(s, today, cap, values, sorted, points);
  }

  /**
   * The bars of `dateMap` before sorting: each is the bar of its day, a
   * day with work from today on; no two are alike; and every such day has
   * one.
   */
  ghost predicate Bars(values: seq<DayPoint>, s: seq<Assignment>, today: int)
  {
    (forall k :: 0 <= k < |values| ==> values[k] == PointOf(s, values[k].date) && today <= values[k].date && values[k].count > 0)
    && NoDuplicates(values)
    && forall k :: 0 <= k < |s| && s[k].dueDate.Some? && s[k].dueDate.value >= today ==>
         exists j :: 0 <= j < |values| && values[j].date == s[k].dueDate.value
  }

  lemma ValuesOfTally(s: seq<Assignment>, today: int, dates: seq<int>, dateMap: map<int, DayPoint>, values: seq<DayPoint>)
    requires Tallied(dates, dateMap, s, today)
    requires |values| == |dates| && forall k :: 0 <= k < |dates| ==> dates[k] in dateMap && values[k] == dateMap[dates[k]]
    ensures Bars(values, s, today)
  {
    UpcomingMembers(s, today);
    forall k | 0 <= k < |values|
      ensures values[k] == PointOf(s, values[k].date) && today <= values[k].date && values[k].count > 0
    {
      UpcomingDue(s, today, dates[k]);
    }
    ValuesDistinct(values, dates);
    forall k | 0 <= k < |s| && s[k].dueDate.Some? && s[k].dueDate.value >= today
      ensures exists j :: 0 <= j < |values| && values[j].date == s[k].dueDate.value
    {
      var j :| 0 <= j < |dates| && dates[j] == s[k].dueDate.value;
      assert values[j].date == dates[j];
    }
  }

  /** Sorting the bars by date and keeping the first `cap` gives the chart `DailyChart` promises. */
  lemma ChartOfValues(s: seq<Assignment>, today: int, cap: nat, values: seq<DayPoint>, sorted: seq<DayPoint>, points: seq<DayPoint>)
    requires Bars(values, s, today) && sorted == SortBy(values, DateLe) && points == Take(sorted, cap)
    ensures |points| <= cap
    ensures forall i :: 0 <= i < |points| ==> points[i] == PointOf(s, points[i].date)
    ensures forall i :: 0 <= i < |points| ==> today <= points[i].date && points[i].count > 0
    ensures forall i, j :: 0 <= i < j < |points| ==> points[i].date < points[j].date
    ensures forall k :: 0 <= k < |s| && s[k].dueDate.Some? && s[k].dueDate.value >= today ==> Listed(points, s[k].dueDate.value, cap)
  {
    DateOrder();
    SortBySorted(values, DateLe);
    PermutationKeepsDistinct(values, sorted);
    Described(values, sorted, points, s, today, cap);
    forall k | 0 <= k < |s| && s[k].dueDate.Some? && s[k].dueDate.value >= today
      ensures Listed(points, s[k].dueDate.value, cap)
    {
      var d := s[k].dueDate.value;
      var j :| 0 <= j < |values| && values[j].date == d;
      InPermutation(values, sorted, j);
      FullOrListed(sorted, points, d, cap);
    }
  }

  /** `dates` are the keys of `dateMap` in insertion order and each key's entry is the bar of its day in `s`. */
  ghost predicate Tallied(dates: seq<int>, dateMap: map<int, DayPoint>, s: seq<Assignment>, today: int)
  {
    dates == Upcoming(s, today)
    && (forall d :: d in dateMap <==> d in dates)
    && (forall d :: d in dateMap ==> dateMap[d] == PointOf(s, d))
  }

  lemma TalliedKeys(dates: seq<int>, dateMap: map<int, DayPoint>, s: seq<Assignment>, today: int)
    requires Tallied(dates, dateMap, s, today)
    ensures forall k :: 0 <= k < |dates| ==> dates[k] in dateMap
  {
    assert forall d :: d in dates ==> d in dateMap;
    forall k | 0 <= k < |dates|
      ensures dates[k] in dateMap
    {
      assert dates[k] in dates;
    }
  }

  /** The empty bar a new day starts with. */
  function Empty(d: int): DayPoint
  {
    DayPoint(DAY_NAMES[Weekday(d)], d, 0, 0, [])
  }

  /** The `forEach` over the assignments, filling `dateMap`. */
  method Tally(s: seq<Assignment>, today: int) returns (dates: seq<int>, dateMap: map<int, DayPoint>)
    ensures Tallied(dates, dateMap, s, today)
  {
    dates, dateMap := [], map[];
    for i := 0 to |s|
      invariant Tallied(dates, dateMap, s[..i], today)
    {
      var a := s[i];
      ghost var dates0, map0 := dates, dateMap;
      if a.dueDate.Some? && a.dueDate.value >= today {
        var d := a.dueDate.value;
        if d !in dateMap {
          dateMap := dateMap[d := DayPoint(DAY_NAMES[Weekday(d)], d, 0, 0, [])];
          dates := dates + [d];
        }
        var p := dateMap[d];
        dateMap := dateMap[d := p.(count := p.count + 1, score := p.score + (if a.kind == "test" then 3 else 1), assignments := p.assignments + [a])];
      }
      TallyStep(s[..i], a, today, dates0, map0, dates, dateMap);
      assert s[..i + 1] == s[..i] + [a];
    }
    assert s[..|s|] == s;
  }

  /** One more assignment: a new day from today on gets an empty bar first; its day's bar then grows by it. */
  lemma TallyStep(s: seq<Assignment>, a: Assignment, today: int, dates0: seq<int>, map0: map<int, DayPoint>, dates: seq<int>, dateMap: map<int, DayPoint>)
    requires Tallied(dates0, map0, s, today)
    requires a.dueDate.Some? && a.dueDate.value >= today ==>
      var d := a.dueDate.value;
      var p := if d in map0 then map0[d] else Empty(d);
      dates == (if d in map0 then dates0 else dates0 + [d]) && dateMap == map0[d := Added(p, a)]
    requires !(a.dueDate.Some? && a.dueDate.value >= today) ==> dates == dates0 && dateMap == map0
    ensures Tallied(dates, dateMap, s + [a], today)
  {
    assert (s + [a])[..|s|] == s;
    PointsStep(s, a);
    if a.dueDate.Some? && a.dueDate.value >= today {
      var d := a.dueDate.value;
      if d in map0 {
        TallyKnown(s, a, today, dates0, map0, d);
      } else {
        NotUpcomingNotDue(s, today, d);
        TallyNew(s, a, today, dates0, map0, d);
      }
    } else {
      TallySkip(s, a, today, dates0, map0);
    }
  }

  lemma TallySkip(s: seq<Assignment>, a: Assignment, today: int, dates: seq<int>, dateMap: map<int, DayPoint>)
    requires Tallied(dates, dateMap, s, today) && !(a.dueDate.Some? && a.dueDate.value >= today)
    requires forall d :: PointOf(s + [a], d) == if a.dueDate == Some(d) then Added(PointOf(s, d), a) else PointOf(s, d)
    ensures Tallied(dates, dateMap, s + [a], today)
  {
    assert (s + [a])[..|s|] == s;
    UpcomingMembers(s, today);
    forall d | d in dateMap
      ensures dateMap[d] == PointOf(s + [a], d)
    {
      assert a.dueDate != Some(d);
    }
  }

  lemma TallyKnown(s: seq<Assignment>, a: Assignment, today: int, dates: seq<int>, dateMap: map<int, DayPoint>, d: int)
    requires Tallied(dates, dateMap, s, today) && a.dueDate == Some(d) && d >= today && d in dateMap
    requires forall d :: PointOf(s + [a], d) == if a.dueDate == Some(d) then Added(PointOf(s, d), a) else PointOf(s, d)
    ensures Tallied(dates, dateMap[d := Added(dateMap[d], a)], s + [a], today)
  {
    assert (s + [a])[..|s|] == s;
  }

  lemma TallyNew(s: seq<Assignment>, a: Assignment, today: int, dates: seq<int>, dateMap: map<int, DayPoint>, d: int)
    requires Tallied(dates, dateMap, s, today) && a.dueDate == Some(d) && d >= today && d !in dateMap
    requires DueOn(s, Some(d)) == []
    requires forall d :: PointOf(s + [a], d) == if a.dueDate == Some(d) then Added(PointOf(s, d), a) else PointOf(s, d)
    ensures Tallied(dates + [d], dateMap[d := Added(Empty(d), a)], s + [a], today)
  {
    UpcomingNew(s, a, today, d);
    EmptyPoint(s, d);
    var m := dateMap[d := Added(Empty(d), a)];
    forall e | e in m
      ensures m[e] == PointOf(s + [a], e)
    {
      if e != d {
        assert a.dueDate != Some(e);
      }
    }
  }

  lemma UpcomingNew(s: seq<Assignment>, a: Assignment, today: int, d: int)
    requires a.dueDate == Some(d) && d >= today && d !in Upcoming(s, today)
    ensures Upcoming(s + [a], today) == Upcoming(s, today) + [d]
  {
    assert (s + [a])[..|s|] == s;
  }

  lemma EmptyPoint(s: seq<Assignment>, d: int)
    requires DueOn(s, Some(d)) == []
    ensures PointOf(s, d) == Empty(d)
  {
  }

  /** One more assignment changes only the bar of its own day. */
  lemma PointsStep(s: seq<Assignment>, a: Assignment)
    ensures forall d :: PointOf(s + [a], d) == if a.dueDate == Some(d) then Added(PointOf(s, d), a) else PointOf(s, d)
  {
    forall d
      ensures PointOf(s + [a], d) == if a.dueDate == Some(d) then Added(PointOf(s, d), a) else PointOf(s, d)
    {
      var due := DueOn(s, Some(d));
      DueOnSnoc(s, a, Some(d));
      if a.dueDate == Some(d) {
        WeightSumSnoc(due, a);
      } else {
        assert due + [] == due;
      }
    }
  }

  lemma {:induction false} DueOnSnoc(s: seq<Assignment>, x: Assignment, t: Option<int>)
    ensures DueOn(s + [x], t) == DueOn(s, t) + (if x.dueDate == t then [x] else [])
    decreases |s|
  {
    if |s| > 0 {
      assert (s + [x])[1..] == s[1..] + [x];
      DueOnSnoc(s[1..], x, t);
    }
  }

  lemma {:induction false} WeightSumSnoc(s: seq<Assignment>, x: Assignment)
    ensures WeightSum(s + [x]) == WeightSum(s) + (if x.kind == "test" then 3 else 1)
    decreases |s|
  {
    if |s| > 0 {
      assert (s + [x])[1..] == s[1..] + [x];
      WeightSumSnoc(s[1..], x);
    }
  }

  /** The days of `Upcoming` are exactly the due dates from today on. */
  lemma {:induction false} UpcomingMembers(s: seq<Assignment>, today: int)
    ensures forall d :: d in Upcoming(s, today) <==> today <= d && exists k :: 0 <= k < |s| && s[k].dueDate == Some(d)
    decreases |s|
  {
    if |s| > 0 {
      var prefix := s[..|s| - 1];
      UpcomingMembers(prefix, today);
      assert forall k :: 0 <= k < |prefix| ==> prefix[k] == s[k];
    }
  }

  /** A day from today on that is not among the upcoming days has no assignment. */
  lemma NotUpcomingNotDue(s: seq<Assignment>, today: int, d: int)
    requires today <= d && d !in Upcoming(s, today)
    ensures DueOn(s, Some(d)) == []
  {
    UpcomingMembers(s, today);
    DueOnAbsent(s, d);
  }

  /** A day no assignment is due on has none. */
  lemma {:induction false} DueOnAbsent(s: seq<Assignment>, d: int)
    requires forall k :: 0 <= k < |s| ==> s[k].dueDate != Some(d)
    ensures DueOn(s, Some(d)) == []
    decreases |s|
  {
    if |s| > 0 {
      assert forall k :: 0 <= k < |s[1..]| ==> s[1..][k] == s[k + 1];
      DueOnAbsent(s[1..], d);
    }
  }

  /** An upcoming day has at least one assignment. */
  lemma UpcomingDue(s: seq<Assignment>, today: int, d: int)
    requires d in Upcoming(s, today)
    ensures |DueOn(s, Some(d))| > 0
  {
    UpcomingMembers(s, today);
    DueOnMembers(s, Some(d));
    var k :| 0 <= k < |s| && s[k].dueDate == Some(d);
    assert s[k] in DueOn(s, Some(d));
  }

  lemma ValuesDistinct(values: seq<DayPoint>, dates: seq<int>)
    requires NoDuplicates(dates) && |values| == |dates|
    requires forall k :: 0 <= k < |values| ==> values[k].date == dates[k]
    ensures NoDuplicates(values)
  {
  }

  lemma DateOrder()
    ensures TotalPreorder(DateLe)
  {
  }

  /** The first `cap` of the sorted bars keep the properties of all of them, in strictly increasing order. */
  lemma Described(values: seq<DayPoint>, sorted: seq<DayPoint>, points: seq<DayPoint>, s: seq<Assignment>, today: int, cap: nat)
    requires multiset(sorted) == multiset(values) && SortedBy(sorted, DateLe) && NoDuplicates(sorted)
    requires forall k :: 0 <= k < |values| ==> values[k] == PointOf(s, values[k].date) && today <= values[k].date && values[k].count > 0
    requires points == Take(sorted, cap)
    ensures forall i :: 0 <= i < |sorted| ==> sorted[i] == PointOf(s, sorted[i].date) && today <= sorted[i].date && sorted[i].count > 0
    ensures forall i, j :: 0 <= i < j < |sorted| ==> sorted[i].date < sorted[j].date
  {
    forall i | 0 <= i < |sorted|
      ensures sorted[i] == PointOf(s, sorted[i].date) && today <= sorted[i].date && sorted[i].count > 0
    {
      InPermutation(sorted, values, i);
    }
  }

  /** A day on the sorted list is on the first `cap`, or those are full of earlier days. */
  lemma FullOrListed(sorted: seq<DayPoint>, points: seq<DayPoint>, d: int, cap: nat)
    requires exists j :: 0 <= j < |sorted| && sorted[j].date == d
    requires forall i, j :: 0 <= i < j < |sorted| ==> sorted[i].date < sorted[j].date
    requires points == Take(sorted, cap)
    ensures Listed(points, d, cap)
  {
    var j :| 0 <= j < |sorted| && sorted[j].date == d;
    if j < cap {
      assert points[j] == sorted[j];
    } else if cap > 0 {
      assert points[cap - 1] == sorted[cap - 1];
    }
  }

  /** A day's bar counts one point per assignment and two more per test, as the calculator's daily score does. */
  lemma PointScore(s: seq<Assignment>, d: int)
    ensures PointOf(s, d).score == PointOf(s, d).count + 2 * TestCount(PointOf(s, d).assignments)
    ensures PointOf(s, d).score == DailyWorkload(s, Some(d)).score
    ensures forall a :: a in PointOf(s, d).assignments <==> a in s && a.dueDate == Some(d)
  {
    WeightSumCounts(DueOn(s, Some(d)));
    DueOnMembers(s, Some(d));
  }

  // ---------------------------------------------------------------------------
  // Weekly chart

  /** One bar of the weekly chart; `startDate` and `endDate` are the first and last day of the week. */
  datatype WeekPoint = WeekPoint(weekNumber: int, score: int, count: nat, testCount: nat, homeworkCount: int,
                                 isCurrent: bool, startDate: int, endDate: int)

  /** The bar of the `i`-th week from today: the assignments due in its seven days. */
  function WeekPointOf(s: seq<Assignment>, today: int, i: int): WeekPoint
  {
    var start := today + 7 * i;
    var inWeek := DueBetween(s, start, start + 6);
    var tests := TestCount(inWeek);
    WeekPoint(i + 1, WeightSum(inWeek), |inWeek|, tests, |inWeek| - tests, i == 0, start, start + 6)
  }

  /** `weeklyChartData`: four bars, the `i`-th one the bar of the `i`-th week from today. */
  method WeeklyChart(s: seq<Assignment>, today: int) returns (weeks: seq<WeekPoint>)
    ensures |weeks| == 4
    ensures forall i :: 0 <= i < 4 ==> weeks[i] == WeekPointOf(s, today, i)
  {
    weeks := [];
    for i := 0 to 4
      invariant |weeks| == i
      invariant forall k :: 0 <= k < i ==> weeks[k] == WeekPointOf(s, today, k)
    {
      var weekStart := today + i * 7;
      var weekEnd := weekStart + 6;
      var weekAssignments := DueBetween(s, weekStart, weekEnd);
      var score := WeightSum(weekAssignments);
      var testCount := TestCount(weekAssignments);
      var homeworkCount := |weekAssignments| - testCount;
      weeks := weeks + [WeekPoint(i + 1, score, |weekAssignments|, testCount, homeworkCount, i == 0, weekStart, weekEnd)];
    }
  }

  /**
   * Each weekly bar splits its count into tests and homework, scores one
   * point per assignment and two more per test, counts exactly the
   * assignments due in its week, and starts the day after the previous bar
   * ends; only the first is current.
   */
  lemma WeekPointMeaning(s: seq<Assignment>, today: int, i: int)
    ensures var w := WeekPointOf(s, today, i);
      w.testCount + w.homeworkCount == w.count && w.homeworkCount >= 0
      && w.score == w.count + 2 * w.testCount
      && w.endDate == w.startDate + 6
      && (w.isCurrent <==> w.weekNumber == 1)
      && WeekPointOf(s, today, i + 1).startDate == w.endDate + 1
    ensures forall a :: a in DueBetween(s, today + 7 * i, today + 7 * i + 6) <==>
      a in s && a.dueDate.Some? && today + 7 * i <= a.dueDate.value <= today + 7 * i + 6
  {
    WeightSumCounts(DueBetween(s, today + 7 * i, today + 7 * i + 6));
    DueBetweenMembers(s, today + 7 * i, today + 7 * i + 6);
  }
}
