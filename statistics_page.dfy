/**
 * The statistics page: the per-subject breakdown, the test/homework split,
 * the completion rate, the status colours of the charts and the four-step
 * tutorial.  The two chart series are `ChartData.DailyChart` with at most
 * ten days and `ChartData.WeeklyChart`.
 */
module StatisticsPage {
  import opened Wrappers
  import opened Collections
  import opened Assignments
  import opened ChartData
  import WorkloadCalculator

  const DAILY_CAP := 10
  const SUBJECT_CAP := 8

  /** `dailyChartData`: the first ten upcoming days with work, by date. */
  method DailyBars(s: seq<Assignment>, today: int) returns (points: seq<DayPoint>)
    ensures |points| <= DAILY_CAP
    ensures forall i :: 0 <= i < |points| ==> points[i] == PointOf(s, points[i].date) && today <= points[i].date && points[i].count > 0
    ensures forall i, j :: 0 <= i < j < |points| ==> points[i].date < points[j].date
    ensures forall k :: 0 <= k < |s| && s[k].dueDate.Some? && s[k].dueDate.value >= today ==> Listed(points, s[k].dueDate.value, DAILY_CAP)
  {
    points := DailyChart(s, today, DAILY_CAP);
  }

  // ---------------------------------------------------------------------------
  // Subjects

  /** One row of the subject breakdown. */
  datatype SubjectStat = SubjectStat(name: string, count: nat, tests: nat, homework: nat)

  /** The row the `forEach` builds for subject `name`: each assignment of that subject bumps it. */
  function StatOf(s: seq<Assignment>, name: string): (r: SubjectStat)
    ensures r.name == name
  {
    if |s| == 0 then SubjectStat(name, 0, 0, 0)
    else
      var p := StatOf(s[..|s| - 1], name);
      if SubjectOf(s[|s| - 1]) == name then Bumped(p, s[|s| - 1]) else p
  }

  /** A row counts the subject's assignments, its tests among them, and the rest. */
  lemma {:induction false} StatCounts(s: seq<Assignment>, name: string)
    ensures var of := Of(s, name);
      StatOf(s, name) == SubjectStat(name, |of|, TestCount(of), |of| - TestCount(of))
    decreases |s|
  {
    if |s| > 0 {
      var prefix, a := s[..|s| - 1], s[|s| - 1];
      StatCounts(prefix, name);
      if SubjectOf(a) == name {
        TestCountAppend(Of(prefix, name), [a]);
      } else {
        assert Of(prefix, name) + [] == Of(prefix, name);
      }
    }
  }

  /** The subjects in order of first appearance: the keys of the `subjects` object. */
  function Names(s: seq<Assignment>): seq<string>
  {
    Distinct(Map(s, SubjectOf))
  }

  predicate CountGe(a: SubjectStat, b: SubjectStat)
  {
    a.count >= b.count
  }

  /**
   * Subject `name` is accounted for: it has a row, or the eight rows are
   * full of subjects with at least as many assignments.
   */
  predicate Ranked(r: seq<SubjectStat>, name: string, count: nat)
  {
    (exists i :: 0 <= i < |r| && r[i].name == name)
    || (|r| == SUBJECT_CAP && r[SUBJECT_CAP - 1].count >= count)
  }

  /**
   * `subjectStats`: at most eight rows, each the row of a subject that
   * has assignments; no subject twice; rows by decreasing count; every
   * subject of the list has a row unless eight subjects with at least as
   * many assignments fill the table.
   */
  method SubjectStats(s: seq<Assignment>) returns (r: seq<SubjectStat>)
    ensures |r| <= SUBJECT_CAP
    ensures forall i :: 0 <= i < |r| ==> r[i] == StatOf(s, r[i].name) && r[i].count > 0
    ensures forall i, j :: 0 <= i < j < |r| ==> r[i].count >= r[j].count && r[i].name != r[j].name
    ensures forall k :: 0 <= k < |s| ==> Ranked(r, SubjectOf(s[k]), StatOf(s, SubjectOf(s[k])).count)
  {
    var names, subjects := TallySubjects(s);
    forall k | 0 <= k < |names|
      ensures names[k] in subjects
    {
      assert names[k] in names;
    }
    var entries := seq(|names|, k requires 0 <= k < |names| => subjects[names[k]]);
    EntriesOfTally(s, names, subjects, entries);
    var sorted := SortBy(entries, CountGe);
    r := Take(sorted, SUBJECT_CAP);
    RowsOfEntries(s, entries, sorted, r);
  }

  /** `names` are the keys of `subjects` in insertion order and each key's entry is the row of its subject in `s`. */
  ghost predicate Tallied(names: seq<string>, subjects: map<string, SubjectStat>, s: seq<Assignment>)
  {
    names == Names(s)
    && (forall n :: n in subjects <==> n in names)
    && (forall n :: n in subjects ==> subjects[n] == StatOf(s, n))
  }

  /** The `forEach` over the assignments, filling `subjects`. */
  method TallySubjects(s: seq<Assignment>) returns (names: seq<string>, subjects: map<string, SubjectStat>)
    ensures Tallied(names, subjects, s)
  {
    names, subjects := [], map[];
    for i := 0 to |s|
      invariant Tallied(names, subjects, s[..i])
    {
      ghost var names0, subjects0 := names, subjects;
      names, subjects := AddSubject(names, subjects, s[i]);
      SubjectStep(s, i, names0, subjects0, names, subjects);
    }
    assert s[..|s|] == s;
  }

  /** One pass of the `forEach`: the subject's row is created when missing, then counts the assignment. */
  method AddSubject(names0: seq<string>, subjects0: map<string, SubjectStat>, a: Assignment)
    returns (names: seq<string>, subjects: map<string, SubjectStat>)
    ensures var n := SubjectOf(a);
      var p := if n in subjects0 then subjects0[n] else SubjectStat(n, 0, 0, 0);
      names == (if n in subjects0 then names0 else names0 + [n]) && subjects == subjects0[n := Bumped(p, a)]
  {
    names, subjects := names0, subjects0;
    var subject := SubjectOf(a);
    if subject !in subjects {
      subjects := subjects[subject := SubjectStat(subject, 0, 0, 0)];
      names := names + [subject];
    }
    var p := subjects[subject];
    if a.kind == "test" {
      subjects := subjects[subject := p.(count := p.count + 1, tests := p.tests + 1)];
    } else {
      subjects := subjects[subject := p.(count := p.count + 1, homework := p.homework + 1)];
    }
  }

  /** A row after one more assignment of its subject. */
  function Bumped(p: SubjectStat, a: Assignment): SubjectStat
  {
    if a.kind == "test" then p.(count := p.count + 1, tests := p.tests + 1)
    else p.(count := p.count + 1, homework := p.homework + 1)
  }

  lemma SubjectStep(s: seq<Assignment>, i: int, names0: seq<string>, subjects0: map<string, SubjectStat>,
                    names: seq<string>, subjects: map<string, SubjectStat>)
    requires 0 <= i < |s| && Tallied(names0, subjects0, s[..i])
    requires var n := SubjectOf(s[i]);
      var p := if n in subjects0 then subjects0[n] else SubjectStat(n, 0, 0, 0);
      names == (if n in subjects0 then names0 else names0 + [n]) && subjects == subjects0[n := Bumped(p, s[i])]
    ensures Tallied(names, subjects, s[..i + 1])
  {
    TakeOneMore(s, i);
    SubjectSnoc(s[..i], s[i], names0, subjects0, names, subjects);
  }

  lemma SubjectSnoc(s: seq<Assignment>, a: Assignment, names0: seq<string>, subjects0: map<string, SubjectStat>,
                    names: seq<string>, subjects: map<string, SubjectStat>)
    requires Tallied(names0, subjects0, s)
    requires var n := SubjectOf(a);
      var p := if n in subjects0 then subjects0[n] else SubjectStat(n, 0, 0, 0);
      names == (if n in subjects0 then names0 else names0 + [n]) && subjects == subjects0[n := Bumped(p, a)]
    ensures Tallied(names, subjects, s + [a])
  {
    var n := SubjectOf(a);
    NamesSnoc(s, a);
    StatsStep(s, a);
    if n in subjects0 {
      SubjectKnown(s, a, names0, subjects0, n);
    } else {
      NamesMembers(s);
      StatAbsent(s, n);
      SubjectNew(s, a, names0, subjects0, n);
    }
  }

  lemma SubjectKnown(s: seq<Assignment>, a: Assignment, names: seq<string>, subjects: map<string, SubjectStat>, n: string)
    requires Tallied(names, subjects, s) && n == SubjectOf(a) && n in subjects
    requires Names(s + [a]) == Names(s)
    requires forall m :: StatOf(s + [a], m) == if n == m then Bumped(StatOf(s, m), a) else StatOf(s, m)
    ensures Tallied(names, subjects[n := Bumped(subjects[n], a)], s + [a])
  {
  }

  lemma SubjectNew(s: seq<Assignment>, a: Assignment, names: seq<string>, subjects: map<string, SubjectStat>, n: string)
    requires Tallied(names, subjects, s) && n == SubjectOf(a) && n !in subjects && StatOf(s, n) == SubjectStat(n, 0, 0, 0)
    requires Names(s + [a]) == Names(s) + [n]
    requires forall m :: StatOf(s + [a], m) == if n == m then Bumped(StatOf(s, m), a) else StatOf(s, m)
    ensures Tallied(names + [n], subjects[n := Bumped(SubjectStat(n, 0, 0, 0), a)], s + [a])
  {
    var m := subjects[n := Bumped(SubjectStat(n, 0, 0, 0), a)];
    KeysSnoc(names, subjects, n, Bumped(SubjectStat(n, 0, 0, 0), a));
    forall e | e in m
      ensures m[e] == StatOf(s + [a], e)
    {
      if e != n {
        assert e in subjects;
      }
    }
  }

  /** Adding a key to the map and to the end of the key list keeps them in step. */
  lemma KeysSnoc<V>(names: seq<string>, subjects: map<string, V>, n: string, v: V)
    requires forall e :: e in subjects <==> e in names
    ensures forall e :: e in subjects[n := v] <==> e in names + [n]
  {
  }

  /** A subject with no assignment in the list has an empty row. */
  lemma {:induction false} StatAbsent(s: seq<Assignment>, n: string)
    requires forall k :: 0 <= k < |s| ==> SubjectOf(s[k]) != n
    ensures StatOf(s, n) == SubjectStat(n, 0, 0, 0)
    decreases |s|
  {
    if |s| > 0 {
      StatAbsent(s[..|s| - 1], n);
    }
  }

  lemma NamesSnoc(s: seq<Assignment>, a: Assignment)
    ensures Names(s + [a]) == if SubjectOf(a) in Names(s) then Names(s) else Names(s) + [SubjectOf(a)]
  {
    MapSnoc(s, a, SubjectOf);
    DistinctSnoc(Map(s, SubjectOf), SubjectOf(a));
    DistinctMembers(Map(s, SubjectOf));
  }

  /** The subjects that have a row are exactly those of the list. */
  lemma NamesMembers(s: seq<Assignment>)
    ensures forall n :: n in Names(s) <==> exists k :: 0 <= k < |s| && SubjectOf(s[k]) == n
  {
    DistinctMembers(Map(s, SubjectOf));
    forall n | n in Map(s, SubjectOf)
      ensures exists k :: 0 <= k < |s| && SubjectOf(s[k]) == n
    {
      var k :| 0 <= k < |s| && Map(s, SubjectOf)[k] == n;
    }
    forall k | 0 <= k < |s|
      ensures SubjectOf(s[k]) in Map(s, SubjectOf)
    {
      assert Map(s, SubjectOf)[k] == SubjectOf(s[k]);
    }
  }

  /** One more assignment changes only the row of its own subject. */
  lemma StatsStep(s: seq<Assignment>, a: Assignment)
    ensures forall n :: StatOf(s + [a], n) == if SubjectOf(a) == n then Bumped(StatOf(s, n), a) else StatOf(s, n)
  {
    assert (s + [a])[..|s|] == s;
  }

  /** A row splits its assignments into tests and the rest, and a subject of the list has a non-empty row. */
  lemma StatMeaning(s: seq<Assignment>, n: string)
    ensures StatOf(s, n).tests + StatOf(s, n).homework == StatOf(s, n).count
    ensures StatOf(s, n).count > 0 <==> exists k :: 0 <= k < |s| && SubjectOf(s[k]) == n
    ensures forall a :: a in Of(s, n) <==> a in s && SubjectOf(a) == n
  {
    StatCounts(s, n);
    WhereMembers(s, SubjectOf, n);
    if exists k :: 0 <= k < |s| && SubjectOf(s[k]) == n {
      var k :| 0 <= k < |s| && SubjectOf(s[k]) == n;
      assert s[k] in Of(s, n);
    } else {
      WhereAbsent(s, SubjectOf, n);
    }
  }

  /** The rows of `subjects` before sorting: each is the non-empty row of its subject, each subject once. */
  ghost predicate Entries(entries: seq<SubjectStat>, s: seq<Assignment>)
  {
    (forall k :: 0 <= k < |entries| ==> entries[k] == StatOf(s, entries[k].name) && entries[k].count > 0)
    && (forall i, j :: 0 <= i < j < |entries| ==> entries[i].name != entries[j].name)
    && forall k :: 0 <= k < |s| ==> exists j :: 0 <= j < |entries| && entries[j].name == SubjectOf(s[k])
  }

  lemma EntriesOfTally(s: seq<Assignment>, names: seq<string>, subjects: map<string, SubjectStat>, entries: seq<SubjectStat>)
    requires Tallied(names, subjects, s)
    requires |entries| == |names| && forall k :: 0 <= k < |names| ==> names[k] in subjects && entries[k] == subjects[names[k]]
    ensures Entries(entries, s)
  {
    forall k | 0 <= k < |entries|
      ensures entries[k] == StatOf(s, entries[k].name) && entries[k].count > 0
    {
      assert names[k] in Names(s);
      NamedCount(s, names[k]);
    }
    EntriesCover(s, names, entries);
  }

  /** A subject with a key in `subjects` has at least one assignment. */
  lemma NamedCount(s: seq<Assignment>, n: string)
    requires n in Names(s)
    ensures StatOf(s, n).count > 0
  {
    NamesMembers(s);
    StatMeaning(s, n);
  }

  lemma EntriesCover(s: seq<Assignment>, names: seq<string>, entries: seq<SubjectStat>)
    requires names == Names(s) && |entries| == |names|
    requires forall k :: 0 <= k < |names| ==> entries[k].name == names[k]
    ensures forall k :: 0 <= k < |s| ==> exists j :: 0 <= j < |entries| && entries[j].name == SubjectOf(s[k])
    ensures forall i, j :: 0 <= i < j < |entries| ==> entries[i].name != entries[j].name
  {
    NamesMembers(s);
    forall k | 0 <= k < |s|
      ensures exists j :: 0 <= j < |entries| && entries[j].name == SubjectOf(s[k])
    {
      var j :| 0 <= j < |names| && names[j] == SubjectOf(s[k]);
      assert entries[j].name == names[j];
    }
  }

  lemma CountOrder()
    ensures TotalPreorder(CountGe)
  {
  }

  /** Sorting the rows by decreasing count and keeping eight gives the table `SubjectStats` promises. */
  lemma RowsOfEntries(s: seq<Assignment>, entries: seq<SubjectStat>, sorted: seq<SubjectStat>, r: seq<SubjectStat>)
    requires Entries(entries, s) && sorted == SortBy(entries, CountGe) && r == Take(sorted, SUBJECT_CAP)
    ensures forall i :: 0 <= i < |r| ==> r[i] == StatOf(s, r[i].name) && r[i].count > 0
    ensures forall i, j :: 0 <= i < j < |r| ==> r[i].count >= r[j].count && r[i].name != r[j].name
    ensures forall k :: 0 <= k < |s| ==> Ranked(r, SubjectOf(s[k]), StatOf(s, SubjectOf(s[k])).count)
  {
    CountOrder();
    SortBySorted(entries, CountGe);
    SortedRows(s, entries, sorted);
    forall k | 0 <= k < |s|
      ensures Ranked(r, SubjectOf(s[k]), StatOf(s, SubjectOf(s[k])).count)
    {
      var j :| 0 <= j < |entries| && entries[j].name == SubjectOf(s[k]);
      RankedOne(entries, sorted, r, j);
    }
  }

  /** A row that was sorted is among the first eight, or eight rows at least as large come first. */
  lemma RankedOne(entries: seq<SubjectStat>, sorted: seq<SubjectStat>, r: seq<SubjectStat>, j: int)
    requires 0 <= j < |entries| && multiset(sorted) == multiset(entries)
    requires SortedBy(sorted, CountGe) && r == Take(sorted, SUBJECT_CAP)
    ensures Ranked(r, entries[j].name, entries[j].count)
  {
    InPermutation(entries, sorted, j);
    var m :| 0 <= m < |sorted| && sorted[m] == entries[j];
    if m < SUBJECT_CAP {
      assert r[m] == sorted[m];
    } else {
      assert r[SUBJECT_CAP - 1] == sorted[SUBJECT_CAP - 1];
    }
  }

  lemma SortedRows(s: seq<Assignment>, entries: seq<SubjectStat>, sorted: seq<SubjectStat>)
    requires Entries(entries, s) && multiset(sorted) == multiset(entries)
    ensures forall i :: 0 <= i < |sorted| ==> sorted[i] == StatOf(s, sorted[i].name) && sorted[i].count > 0
    ensures forall i, j :: 0 <= i < j < |sorted| ==> sorted[i].name != sorted[j].name
  {
    forall i | 0 <= i < |sorted|
      ensures sorted[i] == StatOf(s, sorted[i].name) && sorted[i].count > 0
    {
      InPermutation(sorted, entries, i);
    }
    assert NoDuplicates(entries);
    PermutationKeepsDistinct(entries, sorted);
  }

  // ---------------------------------------------------------------------------
  // Type split and completion

  /** `typeStats`: tests, the rest, and the total. */
  datatype TypeStats = TypeStats(tests: nat, homework: int, total: nat)

  function TypeStatsOf(s: seq<Assignment>): (r: TypeStats)
    ensures r.tests + r.homework == r.total && r.homework >= 0
    ensures r.total == |s| && r.tests == TestCount(s)
  {
    TypeStats(TestCount(s), |s| - TestCount(s), |s|)
  }

  /** The split of two lists together is the sum of their splits. */
  lemma TypeStatsAppend(a: seq<Assignment>, b: seq<Assignment>)
    ensures TypeStatsOf(a + b).tests == TypeStatsOf(a).tests + TypeStatsOf(b).tests
    ensures TypeStatsOf(a + b).homework == TypeStatsOf(a).homework + TypeStatsOf(b).homework
  {
    TestCountAppend(a, b);
  }

  /**
   * The whole percentage nearest `n` out of `d`, halves rounded up, computed
   * exactly.  The page's `Math.round((n / d) * 100)` rounds a double instead,
   * whose product can fall just below an exact half (23 out of 40).
   */
  function RoundPercent(n: nat, d: nat): (r: int)
    requires 0 < d
    ensures (2 * r - 1) * d <= 200 * n < (2 * r + 1) * d
  {
    (200 * n + d) / (2 * d)
  }

  /** `completionRate`: 0 for no assignments, else the rounded percentage done. */
  function CompletionRate(s: seq<Assignment>): (r: int)
    ensures |s| == 0 ==> r == 0
    ensures |s| > 0 ==> (2 * r - 1) * |s| <= 200 * DoneCount(s) < (2 * r + 1) * |s|
  {
    if |s| == 0 then 0 else RoundPercent(DoneCount(s), |s|)
  }

  /** The rate is a percentage: 0 when nothing is done and 100 when everything is. */
  lemma CompletionRateBounds(s: seq<Assignment>)
    ensures 0 <= CompletionRate(s) <= 100
    ensures DoneCount(s) == 0 ==> CompletionRate(s) == 0
    ensures |s| > 0 && DoneCount(s) == |s| ==> CompletionRate(s) == 100
  {
    if |s| > 0 {
      var r, n, d := CompletionRate(s), DoneCount(s), |s|;
      RateBounds(r, n, d);
    }
  }

  lemma RateBounds(r: int, n: nat, d: nat)
    requires 0 < d && n <= d && (2 * r - 1) * d <= 200 * n < (2 * r + 1) * d
    ensures 0 <= r <= 100
    ensures n == 0 ==> r == 0
    ensures n == d ==> r == 100
  {
    FactorBelow(0, 2 * r + 1, d);
    FactorAtMost(2 * r - 1, 200, d);
    if n == 0 {
      FactorAtMost(2 * r - 1, 0, d);
    }
    if n == d {
      FactorBelow(200, 2 * r + 1, d);
    }
  }

  /** Cancelling a positive factor keeps a non-strict order. */
  lemma FactorAtMost(a: int, b: int, d: int)
    requires 0 < d && a * d <= b * d
    ensures a <= b
  {
  }

  /** Cancelling a positive factor keeps a strict order. */
  lemma FactorBelow(a: int, b: int, d: int)
    requires 0 < d && a * d < b * d
    ensures a < b
  {
  }

  // ---------------------------------------------------------------------------
  // Status colours

  /** `getStatusColor(score, type)`: daily thresholds 2/4/6 for 'daily', weekly 8/15/20 otherwise. */
  function GetStatusColor(score: int, kind: string): (r: string)
  {
    var light := if kind == "daily" then 2 else 8;
    var medium := if kind == "daily" then 4 else 15;
    var heavy := if kind == "daily" then 6 else 20;
    if score <= light then "var(--color-success)"
    else if score <= medium then "var(--color-warning)"
    else if score <= heavy then "var(--color-danger)"
    else "var(--color-critical)"
  }

  /** The colour of each workload status. */
  function StatusColor(s: WorkloadCalculator.LoadStatus): string
  {
    match s
    case Light => "var(--color-success)"
    case Medium => "var(--color-warning)"
    case Heavy => "var(--color-danger)"
    case Critical => "var(--color-critical)"
  }

  /** The page colours a score as the workload engine classifies it: daily or weekly. */
  lemma StatusColorAgrees(score: int, kind: string)
    ensures kind == "daily" ==> GetStatusColor(score, kind) == StatusColor(WorkloadCalculator.DailyStatus(score))
    ensures kind != "daily" ==> GetStatusColor(score, kind) == StatusColor(WorkloadCalculator.WeeklyStatus(score))
  {
  }

  // ---------------------------------------------------------------------------
  // Tutorial

  const TUTORIAL_STEPS := 4
  const SEEN_KEY := "stats_tutorial_seen"

  /** The tutorial's state: the step shown, whether it is open, and `localStorage`. */
  datatype Tutorial = Tutorial(step: nat, open: bool, storage: map<string, string>)

  /** The tutorial opens on a first visit once assignments are loaded (the half-second delay is not modelled). */
  function ShouldOpen(storage: map<string, string>, isLoading: bool, count: nat): (r: bool)
    ensures r <==> SEEN_KEY !in storage && !isLoading && count > 0
  {
    SEEN_KEY !in storage && !isLoading && count > 0
  }

  /** `closeTutorial`: closes it and records that it was seen. */
  function Close(t: Tutorial): Tutorial
  {
    t.(open := false, storage := t.storage[SEEN_KEY := "true"])
  }

  /** `nextStep`: the next step, or closing on the last one. */
  function NextStep(t: Tutorial): (r: Tutorial)
  {
    if t.step < TUTORIAL_STEPS - 1 then t.(step := t.step + 1) else Close(t)
  }

  function Steps(t: Tutorial, k: nat): Tutorial
    decreases k
  {
    if k == 0 then t else Steps(NextStep(t), k - 1)
  }

  /**
   * From any step before the last, pressing "next" as many times as steps
   * remain closes the tutorial for good: it is marked as seen and will not
   * open again; one press fewer leaves it open on the last step.
   */
  lemma {:induction false} NextStepCloses(t: Tutorial, isLoading: bool, count: nat)
    requires t.open && t.step < TUTORIAL_STEPS
    ensures Steps(t, TUTORIAL_STEPS - 1 - t.step).step == TUTORIAL_STEPS - 1
    ensures Steps(t, TUTORIAL_STEPS - 1 - t.step).open
    ensures !Steps(t, TUTORIAL_STEPS - t.step).open
    ensures !ShouldOpen(Steps(t, TUTORIAL_STEPS - t.step).storage, isLoading, count)
    ensures SEEN_KEY in Steps(t, TUTORIAL_STEPS - t.step).storage
    decreases TUTORIAL_STEPS - t.step
  {
    if t.step < TUTORIAL_STEPS - 1 {
      NextStepCloses(NextStep(t), isLoading, count);
    }
  }
}
