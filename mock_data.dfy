/**
 * The development data's date helpers and the chart statistics generated
 * from the mock assignments.  Dates are day numbers; the mock assignments
 * and today's date are parameters.
 */
module MockData {
  import opened Dates
  import opened Collections

  /** `addDays(date, days)`: the "YYYY-MM-DD" of the day `days` later. */
  function AddDays(date: int, days: int): (r: string)
    ensures r == FormatDay(date + days)
  {
    FormatDay(date + days)
  }

  /** The number of days `getNextSaturday` moves forward. */
  function DaysToSaturday(date: int): (diff: int)
    ensures 1 <= diff <= 7
  {
    var d := (6 - Weekday(date) + 7) % 7;
    if d == 0 then 7 else d
  }

  /** `getNextSaturday(fromDate)`, as a day number. */
  function NextSaturday(date: int): int
  {
    date + DaysToSaturday(date)
  }

  /**
   * The next Saturday lies one to seven days ahead, is a Saturday, and no
   * day strictly between is one: from a Saturday it is the one a week later.
   */
  lemma NextSaturdayIsNext(date: int)
    ensures date < NextSaturday(date) <= date + 7
    ensures Weekday(NextSaturday(date)) == SATURDAY
    ensures forall z :: date < z < NextSaturday(date) ==> Weekday(z) != SATURDAY
  {
    var diff := DaysToSaturday(date);
    WeekdayShift(date, diff);
    forall z | date < z < date + diff
      ensures Weekday(z) != SATURDAY
    {
      WeekdayShift(date, z - date);
    }
  }

  /** A mock assignment as the statistics read it. */
  datatype Assignment = Assignment(classId: string, dueDate: int, weight: string)

  /** The score of one assignment; an unknown weight counts 2. */
  function WeightScore(weight: string): (s: nat)
    ensures 1 <= s <= 5
  {
    match weight
    case "LIGHT" => 1
    case "MEDIUM" => 2
    case "HEAVY" => 3
    case "CONTROL" => 3
    case "DST" => 5
    case _ => 2
  }

  /** The summed score of some assignments. */
  function Score(s: seq<Assignment>): nat
  {
    if |s| == 0 then 0 else Score(s[..|s| - 1]) + WeightScore(s[|s| - 1].weight)
  }

  /** Every assignment adds one to five points. */
  lemma {:induction false} ScoreBounds(s: seq<Assignment>)
    ensures |s| <= Score(s) <= 5 * |s|
  {
    if |s| > 0 {
      ScoreBounds(s[..|s| - 1]);
    }
  }

  /** The assignments of the class, or all of them without a class, due from `start` to `end`. */
  function DueBetween(s: seq<Assignment>, classId: string, start: int, end: int): (r: seq<Assignment>)
    ensures |r| <= |s|
  {
    if |s| == 0 then []
    else
      var rest := DueBetween(s[..|s| - 1], classId, start, end);
      var a := s[|s| - 1];
      if (classId == "" || a.classId == classId) && start <= a.dueDate <= end then rest + [a] else rest
  }

  /** The statistics count exactly the assignments of the class due in the range. */
  lemma {:induction false} DueBetweenMembers(s: seq<Assignment>, classId: string, start: int, end: int)
    ensures forall a :: a in DueBetween(s, classId, start, end) <==>
      a in s && (classId == "" || a.classId == classId) && start <= a.dueDate <= end
  {
    if |s| > 0 {
      DueBetweenMembers(s[..|s| - 1], classId, start, end);
      assert s == s[..|s| - 1] + [s[|s| - 1]];
    }
  }

  /** One bar of the weekly chart; its week start is kept as a day number. */
  datatype WeekStat = WeekStat(week: string, weekStart: int, score: nat, count: nat, isCurrent: bool)

  /**
   * The bar `i` weeks from now: the week starts `i` weeks after the Monday
   * following the last Sunday (so a Sunday looks ahead to the next Monday).
   */
  function WeekStatAt(today: int, s: seq<Assignment>, classId: string, i: int): WeekStat
  {
    var weekStart := today + i * 7 - Weekday(today) + 1;
    var due := DueBetween(s, classId, weekStart, weekStart + 6);
    WeekStat("S" + NatToString(if i < 0 then -i + 1 else i + 1), weekStart, Score(due), |due|, i == 0)
  }

  /** `generateMockWeeklyStats(classId)`. */
  method WeeklyStats(today: int, s: seq<Assignment>, classId: string) returns (weeks: seq<WeekStat>)
    ensures |weeks| == 9
    ensures forall k :: 0 <= k < 9 ==> weeks[k] == WeekStatAt(today, s, classId, k - 4)
  {
    weeks := [];
    var i := -4;
    while i <= 4
      invariant -4 <= i <= 5
      invariant |weeks| == i + 4
      invariant forall k :: 0 <= k < |weeks| ==> weeks[k] == WeekStatAt(today, s, classId, k - 4)
    {
      weeks := weeks + [WeekStatAt(today, s, classId, i)];
      i := i + 1;
    }
  }

  /**
   * Nine consecutive weeks, the middle one current and no other; each
   * bar's score lies between its count and five times its count.
   */
  lemma WeeklyStatsShape(today: int, s: seq<Assignment>, classId: string, weeks: seq<WeekStat>)
    requires |weeks| == 9
    requires forall k :: 0 <= k < 9 ==> weeks[k] == WeekStatAt(today, s, classId, k - 4)
    ensures forall k :: 0 <= k < 9 ==> (weeks[k].isCurrent <==> k == 4)
    ensures forall k :: 0 <= k < 8 ==> weeks[k + 1].weekStart == weeks[k].weekStart + 7
    ensures forall k :: 0 <= k < 9 ==> weeks[k].count <= weeks[k].score <= 5 * weeks[k].count
  {
    forall k | 0 <= k < 9
      ensures weeks[k].count <= weeks[k].score <= 5 * weeks[k].count
    {
      var weekStart := today + (k - 4) * 7 - Weekday(today) + 1;
      ScoreBounds(DueBetween(s, classId, weekStart, weekStart + 6));
    }
  }

  /**
   * One bar of the daily chart.  The bar's date is kept as its day number;
   * the chart shows it as `AddDays(today, i)`, its "YYYY-MM-DD" form.
   */
  datatype DayStat = DayStat(date: int, score: nat, count: nat, isToday: bool, isWeekend: bool)

  /** The bar `i` days from today. */
  function DayStatAt(today: int, s: seq<Assignment>, classId: string, i: int): DayStat
  {
    var due := DueBetween(s, classId, today + i, today + i);
    var w := Weekday(today + i);
    DayStat(today + i, Score(due), |due|, i == 0, w == SUNDAY || w == SATURDAY)
  }

  /** `generateMockDailyStats(classId)`. */
  method DailyStats(today: int, s: seq<Assignment>, classId: string) returns (days: seq<DayStat>)
    ensures |days| == 15
    ensures forall k :: 0 <= k < 15 ==> days[k] == DayStatAt(today, s, classId, k - 7)
  {
    ghost var bar := k => DayStatAt(today, s, classId, k - 7);
    days := [];
    var i := -7;
    while i <= 7
      invariant -7 <= i <= 8
      invariant days == Tabulate(i + 7, bar)
    {
      days := days + [DayStatAt(today, s, classId, i)];
      i := i + 1;
    }
    TabulateAt(i + 7, bar);
    forall k | 0 <= k < 15
      ensures days[k] == DayStatAt(today, s, classId, k - 7)
    {
      assert days[k] == bar(k);
    }
  }

  /**
   * Fifteen days centred on today, only the middle one marked today; every
   * day counts exactly the assignments due on it, and a week of bars has
   * exactly two weekend days.
   */
  lemma DailyStatsShape(today: int, s: seq<Assignment>, classId: string, days: seq<DayStat>)
    requires |days| == 15
    requires forall k :: 0 <= k < 15 ==> days[k] == DayStatAt(today, s, classId, k - 7)
    ensures forall k :: 0 <= k < 15 ==> (days[k].isToday <==> k == 7)
    ensures forall k :: 0 <= k < 15 ==> days[k].date == today + k - 7
    ensures forall k :: 0 <= k < 15 ==> days[k].count <= days[k].score <= 5 * days[k].count
    ensures forall k :: 0 <= k < 8 ==> days[k + 7].isWeekend == days[k].isWeekend
  {
    forall k | 0 <= k < 15
      ensures days[k].count <= days[k].score <= 5 * days[k].count
    {
      ScoreBounds(DueBetween(s, classId, today + k - 7, today + k - 7));
    }
    forall k | 0 <= k < 8
      ensures days[k + 7].isWeekend == days[k].isWeekend
    {
      WeekdayNext(today + k - 7);
    }
  }
}
