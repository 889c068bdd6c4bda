/**
 * The workload service: the per-date score records a student's assignments
 * are synced as, the grouping of the stored rows per class, the analysis of
 * a class's rows into alerts, the weekly summary and the status tables.
 *
 * The database calls are parameters: the rows a query returned, and the
 * error an upsert reported.
 */
module WorkloadService {
  import opened Wrappers
  import opened Text
  import opened Dates
  import opened Collections
  import opened Assignments
  import WorkloadCalculator

  // ---------------------------------------------------------------------------
  // Assignment type and weight

  datatype AssignmentType = Homework | Test

  /** The `type` values that make a test outright. */
  const TEST_TYPES: seq<string> := ["test", "evaluation", "dst"]
  /** Words that make a test when found inside the `type`. */
  const TEST_TYPE_WORDS: seq<string> := ["contrôle", "interro"]
  /** Words that make a test when found inside the title. */
  const TEST_TITLE_WORDS: seq<string> := ["contrôle", "évaluation", "interro", "dst", "devoir surveillé", "bac"]

  /**
   * `detectAssignmentType`: a test when the lower-cased type is one of the
   * test types or mentions a test word, or the lower-cased title mentions a
   * title word; homework otherwise.
   */
  function DetectAssignmentType(a: Assignment): (t: AssignmentType)
    ensures t == Test <==>
      Lower(a.kind) in TEST_TYPES
      || (exists i :: 0 <= i < |TEST_TYPE_WORDS| && Contains(Lower(a.kind), TEST_TYPE_WORDS[i]))
      || (exists i :: 0 <= i < |TEST_TITLE_WORDS| && Contains(Lower(a.title), TEST_TITLE_WORDS[i]))
  {
    var kind := Lower(a.kind);
    var title := Lower(a.title);
    if kind == "test" || kind == "evaluation" || kind == "dst"
      || ContainsAny(kind, TEST_TYPE_WORDS) || ContainsAny(title, TEST_TITLE_WORDS)
    then Test
    else Homework
  }

  /** Detection ignores letter case: upper-casing the type and the title changes nothing. */
  lemma DetectionIgnoresCase(a: Assignment)
    ensures DetectAssignmentType(a.(kind := Upper(a.kind), title := Upper(a.title))) == DetectAssignmentType(a)
  {
    LowerOfUpper(a.kind);
    LowerOfUpper(a.title);
  }

  /** Every assignment the calculator weighs as a test, the service detects as one. */
  lemma CalculatorTestsAreTests(a: Assignment)
    requires IsTest(a)
    ensures DetectAssignmentType(a) == Test
  {
    assert Lower(a.kind) == "test";
  }

  /** `WORKLOAD_CONFIG.weights[type] || 1`. */
  function TypeWeight(t: AssignmentType): (w: int)
    ensures w == (if t == Test then 3 else 1)
  {
    match t
    case Homework => 1
    case Test => 3
  }

  // ---------------------------------------------------------------------------
  // Syncing a student's assignments as per-date records

  datatype AssignmentDetail = AssignmentDetail(subject: string, kind: AssignmentType, weight: int, title: string, content: string)

  /** One `workload_scores` row, without its `synced_at` clock reading. */
  datatype WorkloadRecord = WorkloadRecord(
    edId: string,
    className: string,
    scoreDate: int,
    totalScore: int,
    homeworkCount: nat,
    testCount: nat,
    isSaturday: bool,
    subjectsWithTests: seq<string>,
    assignments: seq<AssignmentDetail>)

  datatype SyncResult = Synced(count: nat) | SyncFailed(error: string)

  /** `a.subject || a.subjectName || 'Inconnu'`; no mapped assignment carries `subjectName`. */
  function SubjectLabel(a: Assignment): string
  {
    if a.subject == "" then "Inconnu" else a.subject
  }

  function Detail(a: Assignment): AssignmentDetail
  {
    var t := DetectAssignmentType(a);
    AssignmentDetail(SubjectLabel(a), t, TypeWeight(t), a.title, a.content)
  }

  /** Number of assignments detected as tests. */
  function DetectedTests(s: seq<Assignment>): (n: nat)
    ensures n <= |s|
  {
    if |s| == 0 then 0
    else DetectedTests(s[..|s| - 1]) + if DetectAssignmentType(s[|s| - 1]) == Test then 1 else 0
  }

  /** Subject labels of the tests, one per test, in list order. */
  function TestLabels(s: seq<Assignment>): seq<string>
  {
    if |s| == 0 then []
    else
      var a := s[|s| - 1];
      TestLabels(s[..|s| - 1]) + if DetectAssignmentType(a) == Test then [SubjectLabel(a)] else []
  }

  /** The due days of the dated assignments, in list order. */
  function DueDays(s: seq<Assignment>): (r: seq<int>)
    ensures forall d :: d in r <==> exists i :: 0 <= i < |s| && s[i].dueDate == Some(d)
  {
    if |s| == 0 then []
    else
      var a := s[|s| - 1];
      assert s == s[..|s| - 1] + [a];
      DueDays(s[..|s| - 1]) + if a.dueDate.Some? then [a.dueDate.value] else []
  }

  predicate DayLe(a: int, b: int)
  {
    a <= b
  }

  /**
   * `uniqueDates`: the distinct due days, sorted.  `YYYY-MM-DD` strings of
   * four-digit years sort as their day numbers do.
   */
  function SyncDates(s: seq<Assignment>): seq<int>
  {
    SortBy(Distinct(DueDays(s)), DayLe)
  }

  /** The sync dates are strictly increasing and are exactly the due days of the assignments. */
  lemma SyncDatesAreTheDueDays(s: seq<Assignment>)
    ensures forall i, j :: 0 <= i < j < |SyncDates(s)| ==> SyncDates(s)[i] < SyncDates(s)[j]
    ensures forall d :: d in SyncDates(s) <==> exists i :: 0 <= i < |s| && s[i].dueDate == Some(d)
    ensures |SyncDates(s)| <= |s|
  {
    var distinct := Distinct(DueDays(s));
    var dates := SyncDates(s);
    assert TotalPreorder(DayLe);
    SortBySorted(distinct, DayLe);
    PermutationKeepsDistinct(distinct, dates);
    forall d
      ensures d in dates <==> d in distinct
    {
      assert d in dates <==> d in multiset(dates);
    }
    assert |DueDays(s)| <= |s| by {
      DueDaysLength(s);
    }
  }

  lemma {:induction false} DueDaysLength(s: seq<Assignment>)
    ensures |DueDays(s)| <= |s|
  {
    if |s| > 0 {
      DueDaysLength(s[..|s| - 1]);
    }
  }

  /**
   * The `forEach` over one day's assignments: counters, details and the set of
   * subjects with a test.
   */
  method ScoreDay(day: seq<Assignment>)
    returns (totalScore: int, homeworkCount: nat, testCount: nat, details: seq<AssignmentDetail>, subjectsWithTests: seq<string>)
    ensures testCount == DetectedTests(day)
    ensures homeworkCount + testCount == |day|
    ensures totalScore == homeworkCount + 3 * testCount
    ensures details == Map(day, Detail)
    ensures subjectsWithTests == Distinct(TestLabels(day))
  {
    totalScore, homeworkCount, testCount, details, subjectsWithTests := 0, 0, 0, [], [];
    for i := 0 to |day|
      invariant testCount == DetectedTests(day[..i])
      invariant homeworkCount + testCount == i
      invariant totalScore == homeworkCount + 3 * testCount
      invariant details == Map(day[..i], Detail)
      invariant subjectsWithTests == Distinct(TestLabels(day[..i]))
    {
      var a := day[i];
      assert day[..i + 1] == day[..i] + [a];
      ScoreStep(day[..i], a);
      var t := DetectAssignmentType(a);
      var weight := TypeWeight(t);
      totalScore := totalScore + weight;
      if t == Homework {
        homeworkCount := homeworkCount + 1;
      } else {
        testCount := testCount + 1;
        var subject := SubjectLabel(a);
        if subject !in subjectsWithTests {
          subjectsWithTests := subjectsWithTests + [subject];
        }
      }
      details := details + [Detail(a)];
    }
    assert day[..|day|] == day;
  }

  /** What one more assignment adds to the tallies of `ScoreDay`. */
  lemma ScoreStep(prefix: seq<Assignment>, a: Assignment)
    ensures DetectedTests(prefix + [a]) == DetectedTests(prefix) + if DetectAssignmentType(a) == Test then 1 else 0
    ensures Map(prefix + [a], Detail) == Map(prefix, Detail) + [Detail(a)]
    ensures DetectAssignmentType(a) != Test ==> Distinct(TestLabels(prefix + [a])) == Distinct(TestLabels(prefix))
    ensures DetectAssignmentType(a) == Test ==>
      var labels := Distinct(TestLabels(prefix));
      Distinct(TestLabels(prefix + [a])) == if SubjectLabel(a) in labels then labels else labels + [SubjectLabel(a)]
  {
    MapSnoc(prefix, a, Detail);
    var labels := TestLabels(prefix);
    assert TestLabels(prefix + [a]) == labels + if DetectAssignmentType(a) == Test then [SubjectLabel(a)] else [] by {
      assert (prefix + [a])[..|prefix|] == prefix;
    }
    assert DetectedTests(prefix + [a]) == DetectedTests(prefix) + if DetectAssignmentType(a) == Test then 1 else 0 by {
      assert (prefix + [a])[..|prefix|] == prefix;
    }
    if DetectAssignmentType(a) == Test {
      DistinctSnoc(labels, SubjectLabel(a));
    } else {
      assert labels + [] == labels;
    }
  }

  /** Builds the records of the given dates, one per date, in order. */
  method BuildRecords(edId: string, className: string, assignments: seq<Assignment>, dates: seq<int>)
    returns (records: seq<WorkloadRecord>)
    ensures |records| == |dates|
    ensures forall i :: 0 <= i < |records| ==> RecordDescribes(records[i], edId, className, dates[i], WorkloadCalculator.DueOn(assignments, Some(dates[i])))
  {
    records := [];
    for k := 0 to |dates|
      invariant |records| == k
      invariant forall i :: 0 <= i < k ==> RecordDescribes(records[i], edId, className, dates[i], WorkloadCalculator.DueOn(assignments, Some(dates[i])))
    {
      var dateStr := dates[k];
      var dayAssignments := WorkloadCalculator.DueOn(assignments, Some(dateStr));
      var totalScore, homeworkCount, testCount, details, subjectsWithTests := ScoreDay(dayAssignments);
      var isSaturday := Weekday(dateStr) == SATURDAY;
      records := records + [WorkloadRecord(edId, className, dateStr, totalScore, homeworkCount, testCount,
        isSaturday, subjectsWithTests, details)];
    }
  }

  /** What a record holds about the assignments due on its date. */
  predicate RecordDescribes(r: WorkloadRecord, edId: string, className: string, date: int, day: seq<Assignment>)
  {
    && r.edId == edId && r.className == className && r.scoreDate == date
    && r.testCount == DetectedTests(day)
    && r.homeworkCount + r.testCount == |day|
    && r.totalScore == r.homeworkCount + 3 * r.testCount
    && (r.isSaturday <==> Weekday(date) == SATURDAY)
    && r.subjectsWithTests == Distinct(TestLabels(day))
    && r.assignments == Map(day, Detail)
  }

  /**
   * `syncStudentWorkload`: refuses a student without id or class before
   * building anything; otherwise one record per distinct due date, in date
   * order, handed to the upsert (whose error, if any, is `upsertError`).
   */
  method SyncStudentWorkload(edId: string, className: string, assignments: seq<Assignment>, upsertError: Option<string>)
    returns (result: SyncResult, records: seq<WorkloadRecord>)
    ensures edId == "" || className == "" ==> result == SyncFailed("Missing student data") && records == []
    ensures edId != "" && className != "" ==>
      && |records| == |SyncDates(assignments)|
      && (forall i :: 0 <= i < |records| ==>
            RecordDescribes(records[i], edId, className, SyncDates(assignments)[i], WorkloadCalculator.DueOn(assignments, Some(SyncDates(assignments)[i]))))
      && result == (if |records| == 0 then Synced(0) else if upsertError.Some? then SyncFailed(upsertError.value) else Synced(|records|))
  {
    if edId == "" || className == "" {
      return SyncFailed("Missing student data"), [];
    }
    var uniqueDates := SyncDates(assignments);
    if |uniqueDates| == 0 {
      return Synced(0), [];
    }
    records := BuildRecords(edId, className, assignments, uniqueDates);
    if upsertError.Some? {
      return SyncFailed(upsertError.value), records;
    }
    return Synced(|records|), records;
  }

  /** Records come out one per date, strictly increasing, and never more than the assignments. */
  lemma SyncedRecordsAreOrdered(edId: string, className: string, assignments: seq<Assignment>, records: seq<WorkloadRecord>)
    requires |records| == |SyncDates(assignments)|
    requires forall i :: 0 <= i < |records| ==> records[i].scoreDate == SyncDates(assignments)[i]
    ensures forall i, j :: 0 <= i < j < |records| ==> records[i].scoreDate < records[j].scoreDate
    ensures forall i :: 0 <= i < |records| ==> exists k :: 0 <= k < |assignments| && assignments[k].dueDate == Some(records[i].scoreDate)
    ensures |records| <= |assignments|
  {
    SyncDatesAreTheDueDays(assignments);
    forall i | 0 <= i < |records|
      ensures exists k :: 0 <= k < |assignments| && assignments[k].dueDate == Some(records[i].scoreDate)
    {
      assert records[i].scoreDate in SyncDates(assignments);
    }
  }

  /** The day's counts add up: its score lies between its size and three times its size. */
  lemma RecordScoreBounds(r: WorkloadRecord, edId: string, className: string, date: int, day: seq<Assignment>)
    requires RecordDescribes(r, edId, className, date, day)
    ensures |day| <= r.totalScore <= 3 * |day|
    ensures r.totalScore == |day| <==> DetectedTests(day) == 0
  {
  }

  // ---------------------------------------------------------------------------
  // Stored rows and their grouping per class

  /**
   * A row of `workload_scores` or of the `class_workload_summary` view.  An
   * absent or zero `avg_score` is 0; absent counts are 0.
   */
  datatype WorkloadRow = WorkloadRow(
    className: string,
    scoreDate: int,
    avgScore: int,
    totalScore: int,
    homeworkCount: int,
    testCount: int)

  /** The rows of one class, in their original order. */
  function RowsOfClass(rows: seq<WorkloadRow>, c: string): (r: seq<WorkloadRow>)
    ensures |r| <= |rows|
    ensures forall i :: 0 <= i < |r| ==> r[i].className == c && r[i] in rows
  {
    if |rows| == 0 then []
    else
      var last := rows[|rows| - 1];
      assert rows == rows[..|rows| - 1] + [last];
      RowsOfClass(rows[..|rows| - 1], c) + if last.className == c then [last] else []
  }

  /**
   * The grouping in `getAllClassesWorkload`: each class present among the
   * rows maps to its rows in their original order.  A failed query gives an
   * empty grouping.
   */
  method GetAllClassesWorkload(data: Result<seq<WorkloadRow>, string>) returns (byClass: map<string, seq<WorkloadRow>>)
    ensures data.Failure? ==> byClass == map[]
    ensures data.Success? ==>
      (forall c :: c in byClass <==> exists i :: 0 <= i < |data.value| && data.value[i].className == c)
    ensures data.Success? ==> forall c :: c in byClass ==> byClass[c] == RowsOfClass(data.value, c)
  {
    if data.Failure? {
      return map[];
    }
    var rows := data.value;
    byClass := map[];
    for k := 0 to |rows|
      invariant forall c :: c in byClass <==> exists i :: 0 <= i < k && rows[i].className == c
      invariant forall c :: c in byClass ==> byClass[c] == RowsOfClass(rows[..k], c)
    {
      var row := rows[k];
      assert rows[..k + 1][..k] == rows[..k];
      if row.className !in byClass {
        byClass := byClass[row.className := []];
        assert RowsOfClass(rows[..k], row.className) == [] by {
          NoRowsOfAbsentClass(rows[..k], row.className);
        }
      }
      byClass := byClass[row.className := byClass[row.className] + [row]];
    }
    assert rows[..|rows|] == rows;
  }

  lemma {:induction false} NoRowsOfAbsentClass(rows: seq<WorkloadRow>, c: string)
    requires forall i :: 0 <= i < |rows| ==> rows[i].className != c
    ensures RowsOfClass(rows, c) == []
  {
    if |rows| > 0 {
      NoRowsOfAbsentClass(rows[..|rows| - 1], c);
    }
  }

  /** Each row is filed under its own class and under no other. */
  lemma {:induction false} RowFiledOnce(rows: seq<WorkloadRow>, k: int, c: string)
    requires 0 <= k < |rows|
    ensures rows[k] in RowsOfClass(rows, c) <==> c == rows[k].className
  {
    var last := rows[|rows| - 1];
    if k < |rows| - 1 {
      RowFiledOnce(rows[..|rows| - 1], k, c);
    }
  }

  // ---------------------------------------------------------------------------
  // Status from a score

  datatype ScoreStatus = NoLoad | Light | Medium | Heavy | Critical

  const DAILY_LIGHT := 2
  const DAILY_MEDIUM := 4
  const DAILY_HEAVY := 6
  const WEEKLY_HEAVY := 25

  /**
   * `getStatusFromScore(num / den)`, exactly: the service divides a week's
   * total by 5 before classifying it.
   */
  function StatusOfRatio(num: int, den: int): (st: ScoreStatus)
    requires den > 0
    ensures st == NoLoad <==> num == 0
    ensures st == Light <==> num != 0 && num <= DAILY_LIGHT * den
    ensures st == Medium <==> DAILY_LIGHT * den < num <= DAILY_MEDIUM * den
    ensures st == Heavy <==> DAILY_MEDIUM * den < num <= DAILY_HEAVY * den
    ensures st == Critical <==> DAILY_HEAVY * den < num
  {
    if num == 0 then NoLoad
    else if num <= DAILY_LIGHT * den then Light
    else if num <= DAILY_MEDIUM * den then Medium
    else if num <= DAILY_HEAVY * den then Heavy
    else Critical
  }

  /** `getStatusFromScore`: 0 is no load, then the daily thresholds 2/4/6. */
  function StatusFromScore(score: int): (st: ScoreStatus)
    ensures st == NoLoad <==> score == 0
    ensures st == Light <==> score != 0 && score <= 2
    ensures st == Medium <==> 2 < score <= 4
    ensures st == Heavy <==> 4 < score <= 6
    ensures st == Critical <==> 6 < score
  {
    StatusOfRatio(score, 1)
  }

  /** For a positive score the service's status is the calculator's daily status. */
  lemma StatusAgreesWithCalculator(score: int)
    requires score > 0
    ensures StatusFromScore(score) == FromCalculator(WorkloadCalculator.DailyStatus(score))
  {
  }

  function FromCalculator(s: WorkloadCalculator.LoadStatus): ScoreStatus
  {
    match s
    case Light => Light
    case Medium => Medium
    case Heavy => Heavy
    case Critical => Critical
  }

  /** Rank of a status, from no load to critical. */
  function StatusRank(st: ScoreStatus): nat
  {
    match st
    case NoLoad => 0
    case Light => 1
    case Medium => 2
    case Heavy => 3
    case Critical => 4
  }

  /** On non-negative scores a larger score never has a lower status. */
  lemma {:induction false} StatusMonotone(s: int, t: int)
    requires 0 <= s <= t
    ensures StatusRank(StatusFromScore(s)) <= StatusRank(StatusFromScore(t))
  {
  }

  // ---------------------------------------------------------------------------
  // Status display table

  datatype StatusInfo = StatusInfo(color: string, bgColor: string, statusLabel: string, emoji: string, description: string)

  const LIGHT_INFO := StatusInfo("#22c55e", "#dcfce7", "Léger", "\U{1F7E2}", "Charge de travail légère")
  const MEDIUM_INFO := StatusInfo("#f59e0b", "#fef3c7", "Modéré", "\U{1F7E0}", "Charge de travail normale")
  const HEAVY_INFO := StatusInfo("#ef4444", "#fee2e2", "Chargé", "\U{1F534}", "Attention: charge élevée")
  const CRITICAL_INFO := StatusInfo("#dc2626", "#fecaca", "Critique", "\U{274C}", "Surcharge! Risque de fatigue")
  const NONE_INFO := StatusInfo("#94a3b8", "#f1f5f9", "Aucun", "\U{26AA}", "Pas de devoirs")

  /** The status names the table knows. */
  function StatusName(st: ScoreStatus): string
  {
    match st
    case NoLoad => "none"
    case Light => "light"
    case Medium => "medium"
    case Heavy => "heavy"
    case Critical => "critical"
  }

  const STATUS_NAMES: seq<string> := ["light", "medium", "heavy", "critical", "none"]

  /** `getLoadStatusInfo`: the entry of a known status name, the 'none' entry for anything else. */
  function LoadStatusInfo(status: string): (info: StatusInfo)
    ensures status !in STATUS_NAMES ==> info == NONE_INFO
    ensures info in [LIGHT_INFO, MEDIUM_INFO, HEAVY_INFO, CRITICAL_INFO, NONE_INFO]
  {
    if status == "light" then LIGHT_INFO
    else if status == "medium" then MEDIUM_INFO
    else if status == "heavy" then HEAVY_INFO
    else if status == "critical" then CRITICAL_INFO
    else NONE_INFO
  }

  /** Every status has its own entry: distinct statuses get distinct labels and colours. */
  lemma StatusInfoDistinguishes(s: ScoreStatus, t: ScoreStatus)
    requires s != t
    ensures LoadStatusInfo(StatusName(s)).statusLabel != LoadStatusInfo(StatusName(t)).statusLabel
    ensures LoadStatusInfo(StatusName(s)).color != LoadStatusInfo(StatusName(t)).color
  {
  }

  // ---------------------------------------------------------------------------
  // Analysis of a class's rows

  /** `day.avg_score || day.total_score || 0`. */
  function RowScore(r: WorkloadRow): int
  {
    if r.avgScore != 0 then r.avgScore else r.totalScore
  }

  /** The Monday of the row's week (`getWeekStart`). */
  function RowWeek(r: WorkloadRow): int
  {
    WorkloadCalculator.WeekStart(r.scoreDate)
  }

  /** A possible DST: a Saturday with a test or an average above 3. */
  predicate SaturdayAlertDue(r: WorkloadRow)
  {
    Weekday(r.scoreDate) == SATURDAY && (r.testCount > 0 || r.avgScore > 3)
  }

  datatype Alert =
    | CriticalDay(date: int, score: int)
    | SaturdayDst(date: int, testCount: int)
    | WeekOverload(week: int, score: int)

  /** `stats` of `analyzeWorkload`, without the floating-point average. */
  datatype AnalysisStats = AnalysisStats(
    totalDays: nat,
    heavyDays: nat,
    criticalDays: nat,
    saturdayCount: nat,
    weeklyScores: map<int, int>)

  /** The alerts one row raises, in the order the loop pushes them. */
  function RowAlerts(r: WorkloadRow): seq<Alert>
  {
    (if StatusFromScore(RowScore(r)) == Critical then [CriticalDay(r.scoreDate, RowScore(r))] else [])
    + (if SaturdayAlertDue(r) then [SaturdayDst(r.scoreDate, r.testCount)] else [])
  }

  function DayAlerts(rows: seq<WorkloadRow>): seq<Alert>
  {
    if |rows| == 0 then [] else DayAlerts(rows[..|rows| - 1]) + RowAlerts(rows[|rows| - 1])
  }

  /** Rows whose score has the given status. */
  function StatusCount(rows: seq<WorkloadRow>, st: ScoreStatus): (n: nat)
    ensures n <= |rows|
  {
    if |rows| == 0 then 0
    else StatusCount(rows[..|rows| - 1], st) + if StatusFromScore(RowScore(rows[|rows| - 1])) == st then 1 else 0
  }

  function SaturdayCount(rows: seq<WorkloadRow>): (n: nat)
    ensures n <= |rows|
  {
    if |rows| == 0 then 0
    else SaturdayCount(rows[..|rows| - 1]) + if SaturdayAlertDue(rows[|rows| - 1]) then 1 else 0
  }

  /** Number of critical-day alerts in a list. */
  function CriticalAlerts(alerts: seq<Alert>): nat
  {
    if |alerts| == 0 then 0
    else CriticalAlerts(alerts[..|alerts| - 1]) + if alerts[|alerts| - 1].CriticalDay? then 1 else 0
  }

  lemma {:induction false} CriticalAlertsAppend(a: seq<Alert>, b: seq<Alert>)
    ensures CriticalAlerts(a + b) == CriticalAlerts(a) + CriticalAlerts(b)
    decreases |b|
  {
    if |b| > 0 {
      assert (a + b)[..|a + b| - 1] == a + b[..|b| - 1];
      CriticalAlertsAppend(a, b[..|b| - 1]);
    } else {
      assert a + b == a;
    }
  }

  /** `criticalDays` equals the number of critical alerts the days raise. */
  lemma {:induction false} CriticalDaysMatchAlerts(rows: seq<WorkloadRow>)
    ensures CriticalAlerts(DayAlerts(rows)) == StatusCount(rows, Critical)
  {
    if |rows| > 0 {
      var r := rows[|rows| - 1];
      CriticalDaysMatchAlerts(rows[..|rows| - 1]);
      CriticalAlertsAppend(DayAlerts(rows[..|rows| - 1]), RowAlerts(r));
      var crit: seq<Alert> := if StatusFromScore(RowScore(r)) == Critical then [CriticalDay(r.scoreDate, RowScore(r))] else [];
      var sat: seq<Alert> := if SaturdayAlertDue(r) then [SaturdayDst(r.scoreDate, r.testCount)] else [];
      CriticalAlertsAppend(crit, sat);
      assert CriticalAlerts(sat) == 0;
    }
  }

  /** The weeks of the rows, in order of first appearance. */
  function WeekOrder(rows: seq<WorkloadRow>): seq<int>
  {
    Distinct(Map(rows, RowWeek))
  }

  /** The week-overload alerts, in order of the weeks' first appearance. */
  function OverloadAlerts(weeks: seq<int>, scores: map<int, int>): seq<Alert>
  {
    if |weeks| == 0 then []
    else
      var w := weeks[|weeks| - 1];
      OverloadAlerts(weeks[..|weeks| - 1], scores)
      + if w in scores && scores[w] > WEEKLY_HEAVY then [WeekOverload(w, scores[w])] else []
  }

  /** A week is reported overloaded iff it is listed and its summed score exceeds 25. */
  lemma {:induction false} OverloadAlertsExact(weeks: seq<int>, scores: map<int, int>, w: int, s: int)
    ensures WeekOverload(w, s) in OverloadAlerts(weeks, scores) <==> w in weeks && w in scores && s == scores[w] && s > WEEKLY_HEAVY
  {
    if |weeks| > 0 {
      OverloadAlertsExact(weeks[..|weeks| - 1], scores, w, s);
      assert weeks == weeks[..|weeks| - 1] + [weeks[|weeks| - 1]];
    }
  }

  /** What the first loop of `analyzeWorkload` knows after the rows `rows`. */
  ghost predicate Tallied(rows: seq<WorkloadRow>, stats: AnalysisStats, alerts: seq<Alert>, weeks: seq<int>)
  {
    DaysTallied(rows, stats, alerts) && WeeksTallied(rows, stats.weeklyScores, weeks)
  }

  /** The day counters and the day alerts after the rows `rows`. */
  ghost predicate DaysTallied(rows: seq<WorkloadRow>, stats: AnalysisStats, alerts: seq<Alert>)
  {
    && stats.totalDays == |rows|
    && stats.heavyDays == StatusCount(rows, Heavy)
    && stats.criticalDays == StatusCount(rows, Critical)
    && stats.saturdayCount == SaturdayCount(rows)
    && alerts == DayAlerts(rows)
  }

  /** The weekly sums after the rows `rows`, and the weeks in order of first appearance. */
  ghost predicate WeeksTallied(rows: seq<WorkloadRow>, scores: map<int, int>, weeks: seq<int>)
  {
    && weeks == WeekOrder(rows)
    && (forall w :: w in scores <==> w in weeks)
    && (forall w :: w in scores ==> scores[w] == SumWhere(rows, RowWeek, w, RowScore))
  }

  /** First loop of `analyzeWorkload`: the per-day counters, alerts and weekly sums. */
  method TallyRows(rows: seq<WorkloadRow>) returns (stats: AnalysisStats, alerts: seq<Alert>, weeks: seq<int>)
    ensures Tallied(rows, stats, alerts, weeks)
  {
    stats := AnalysisStats(0, 0, 0, 0, map[]);
    alerts := [];
    weeks := [];
    for k := 0 to |rows|
      invariant Tallied(rows[..k], stats, alerts, weeks)
    {
      assert rows[..k + 1] == rows[..k] + [rows[k]];
      stats, alerts, weeks := TallyDay(rows[..k], rows[k], stats, alerts, weeks);
    }
    assert rows[..|rows|] == rows;
  }

  /** The body of the first loop, for one more row. */
  method TallyDay(prefix: seq<WorkloadRow>, day: WorkloadRow, stats0: AnalysisStats, alerts0: seq<Alert>, weeks0: seq<int>)
    returns (stats: AnalysisStats, alerts: seq<Alert>, weeks: seq<int>)
    requires Tallied(prefix, stats0, alerts0, weeks0)
    ensures Tallied(prefix + [day], stats, alerts, weeks)
  {
    stats, alerts := CountDay(prefix, day, stats0, alerts0);
    var scores;
    scores, weeks := AddWeekScore(prefix, day, stats0.weeklyScores, weeks0);
    stats := stats.(weeklyScores := scores);
  }

  /** The counters and alerts part of the first loop's body. */
  method CountDay(prefix: seq<WorkloadRow>, day: WorkloadRow, stats0: AnalysisStats, alerts0: seq<Alert>)
    returns (stats: AnalysisStats, alerts: seq<Alert>)
    requires DaysTallied(prefix, stats0, alerts0)
    ensures DaysTallied(prefix + [day], stats, alerts)
    ensures stats.weeklyScores == stats0.weeklyScores
  {
    TallyStep(prefix, day);
    stats, alerts := stats0, alerts0;
    var score := RowScore(day);
    var status := StatusFromScore(score);
    stats := stats.(totalDays := stats.totalDays + 1);
    if status == Heavy {
      stats := stats.(heavyDays := stats.heavyDays + 1);
    }
    if status == Critical {
      stats := stats.(criticalDays := stats.criticalDays + 1);
      alerts := alerts + [CriticalDay(day.scoreDate, score)];
    }
    if SaturdayAlertDue(day) {
      stats := stats.(saturdayCount := stats.saturdayCount + 1);
      alerts := alerts + [SaturdayDst(day.scoreDate, day.testCount)];
    }
  }

  /** What one more row adds to the day counters and the day alerts. */
  lemma TallyStep(prefix: seq<WorkloadRow>, day: WorkloadRow)
    ensures |prefix + [day]| == |prefix| + 1
    ensures forall st :: StatusCount(prefix + [day], st) == StatusCount(prefix, st) + if StatusFromScore(RowScore(day)) == st then 1 else 0
    ensures SaturdayCount(prefix + [day]) == SaturdayCount(prefix) + if SaturdayAlertDue(day) then 1 else 0
    ensures DayAlerts(prefix + [day]) == DayAlerts(prefix)
      + (if StatusFromScore(RowScore(day)) == Critical then [CriticalDay(day.scoreDate, RowScore(day))] else [])
      + (if SaturdayAlertDue(day) then [SaturdayDst(day.scoreDate, day.testCount)] else [])
  {
    assert (prefix + [day])[..|prefix|] == prefix;
  }

  /** The weekly part of the first loop's body: the day's score added to its week. */
  method AddWeekScore(prefix: seq<WorkloadRow>, day: WorkloadRow, scores0: map<int, int>, weeks0: seq<int>)
    returns (scores: map<int, int>, weeks: seq<int>)
    requires WeeksTallied(prefix, scores0, weeks0)
    ensures WeeksTallied(prefix + [day], scores, weeks)
  {
    assert WeekOrder(prefix + [day]) == if RowWeek(day) in weeks0 then weeks0 else weeks0 + [RowWeek(day)] by {
      MapSnoc(prefix, day, RowWeek);
      DistinctSnoc(Map(prefix, RowWeek), RowWeek(day));
    }
    scores, weeks := scores0, weeks0;
    var weekStart := RowWeek(day);
    if weekStart !in scores {
      AbsentKeySumsToZero(prefix, RowWeek, weekStart, RowScore);
      scores := scores[weekStart := 0];
      weeks := weeks + [weekStart];
    }
    scores := scores[weekStart := scores[weekStart] + RowScore(day)];
    forall w | w in scores
      ensures scores[w] == SumWhere(prefix + [day], RowWeek, w, RowScore)
    {
      SumWhereSnoc(prefix, day, RowWeek, w, RowScore);
    }
  }

  lemma {:induction false} AbsentKeySumsToZero<T>(s: seq<T>, key: T -> int, k: int, val: T -> int)
    requires k !in Map(s, key)
    ensures SumWhere(s, key, k, val) == 0
  {
    if |s| > 0 {
      var prefix := s[..|s| - 1];
      assert forall i :: 0 <= i < |prefix| ==> Map(prefix, key)[i] == Map(s, key)[i];
      AbsentKeySumsToZero(prefix, key, k, val);
    }
  }

  /** Second loop of `analyzeWorkload`: one alert per week whose score exceeds 25. */
  method WeekAlerts(weeks: seq<int>, scores: map<int, int>) returns (alerts: seq<Alert>)
    ensures alerts == OverloadAlerts(weeks, scores)
  {
    alerts := [];
    for k := 0 to |weeks|
      invariant alerts == OverloadAlerts(weeks[..k], scores)
    {
      assert weeks[..k + 1][..k] == weeks[..k];
      var w := weeks[k];
      if w in scores && scores[w] > WEEKLY_HEAVY {
        alerts := alerts + [WeekOverload(w, scores[w])];
      }
    }
    assert weeks[..|weeks|] == weeks;
  }

  /**
   * `analyzeWorkload`: the day alerts in row order, then one week-overload
   * alert per Monday-week whose summed score exceeds 25.
   */
  method AnalyzeWorkload(data: seq<WorkloadRow>) returns (alerts: seq<Alert>, stats: AnalysisStats)
    ensures |data| == 0 ==> alerts == [] && stats == AnalysisStats(0, 0, 0, 0, map[])
    ensures stats.totalDays == |data|
    ensures stats.heavyDays == StatusCount(data, Heavy)
    ensures stats.criticalDays == StatusCount(data, Critical)
    ensures stats.saturdayCount == SaturdayCount(data)
    ensures forall w :: w in stats.weeklyScores <==> w in WeekOrder(data)
    ensures forall w :: w in stats.weeklyScores ==> stats.weeklyScores[w] == SumWhere(data, RowWeek, w, RowScore)
    ensures alerts == DayAlerts(data) + OverloadAlerts(WeekOrder(data), stats.weeklyScores)
  {
    if |data| == 0 {
      return [], AnalysisStats(0, 0, 0, 0, map[]);
    }
    var dayAlerts, weeks;
    stats, dayAlerts, weeks := TallyRows(data);
    assert Tallied(data, stats, dayAlerts, weeks);
    var weekAlerts := WeekAlerts(weeks, stats.weeklyScores);
    alerts := dayAlerts + weekAlerts;
  }

  /** In the analysis, a week is reported overloaded iff some row falls in it and its rows' scores sum above 25. */
  lemma WeekOverloadIff(data: seq<WorkloadRow>, scores: map<int, int>, w: int, s: int)
    requires forall v :: v in scores <==> v in WeekOrder(data)
    requires forall v :: v in scores ==> scores[v] == SumWhere(data, RowWeek, v, RowScore)
    ensures WeekOverload(w, s) in DayAlerts(data) + OverloadAlerts(WeekOrder(data), scores) <==>
      (exists i :: 0 <= i < |data| && RowWeek(data[i]) == w) && s == SumWhere(data, RowWeek, w, RowScore) && s > WEEKLY_HEAVY
  {
    NoWeekAlertsAmongDays(data, w, s);
    OverloadAlertsExact(WeekOrder(data), scores, w, s);
    var keys := Map(data, RowWeek);
    assert w in WeekOrder(data) <==> w in keys;
    assert w in keys <==> exists i :: 0 <= i < |data| && RowWeek(data[i]) == w by {
      if w in keys {
        var i :| 0 <= i < |keys| && keys[i] == w;
      }
      if exists i :: 0 <= i < |data| && RowWeek(data[i]) == w {
        var i :| 0 <= i < |data| && RowWeek(data[i]) == w;
        assert keys[i] == w;
      }
    }
  }

  lemma {:induction false} NoWeekAlertsAmongDays(rows: seq<WorkloadRow>, w: int, s: int)
    ensures WeekOverload(w, s) !in DayAlerts(rows)
  {
    if |rows| > 0 {
      NoWeekAlertsAmongDays(rows[..|rows| - 1], w, s);
    }
  }

  // ---------------------------------------------------------------------------
  // Weekly summary

  /** A week's entry in `calculateWeeklySummary`, without the floating-point average. */
  datatype WeekSummary = WeekSummary(
    startDate: int,
    totalScore: int,
    homeworkCount: int,
    testCount: int,
    dayCount: nat,
    heavyDays: nat,
    status: ScoreStatus)

  function RowHomework(r: WorkloadRow): int { r.homeworkCount }

  function RowTests(r: WorkloadRow): int { r.testCount }

  /** 1 for a heavy or critical day. */
  function RowHeavy(r: WorkloadRow): int
  {
    var st := StatusFromScore(RowScore(r));
    if st == Heavy || st == Critical then 1 else 0
  }

  /** What the week `w` of `rows` adds up to, before the status is set. */
  function WeekTotals(rows: seq<WorkloadRow>, w: int): WeekSummary
  {
    WeekSummary(w, SumWhere(rows, RowWeek, w, RowScore), SumWhere(rows, RowWeek, w, RowHomework),
      SumWhere(rows, RowWeek, w, RowTests), CountKey(rows, RowWeek, w), HeavyCount(rows, w), NoLoad)
  }

  function HeavyCount(rows: seq<WorkloadRow>, w: int): nat
  {
    if |rows| == 0 then 0
    else HeavyCount(rows[..|rows| - 1], w) + if RowWeek(rows[|rows| - 1]) == w && RowHeavy(rows[|rows| - 1]) == 1 then 1 else 0
  }

  /** What the grouping loop of `calculateWeeklySummary` knows after the rows `rows`. */
  ghost predicate Grouped(rows: seq<WorkloadRow>, weeks: map<int, WeekSummary>, order: seq<int>)
  {
    && order == WeekOrder(rows)
    && (forall w :: w in weeks <==> w in order)
    && (forall w :: w in weeks ==> weeks[w] == WeekTotals(rows, w))
  }

  /**
   * `calculateWeeklySummary`: one entry per Monday-week, in order of first
   * appearance, summing the days of that week; the status classifies the
   * week's total divided by 5.
   */
  method CalculateWeeklySummary(dailyData: seq<WorkloadRow>) returns (summary: seq<WeekSummary>)
    ensures |summary| == |WeekOrder(dailyData)|
    ensures forall i :: 0 <= i < |summary| ==>
      summary[i] == WeekTotals(dailyData, WeekOrder(dailyData)[i]).(status := StatusOfRatio(summary[i].totalScore, 5))
  {
    var weeks: map<int, WeekSummary> := map[];
    var order: seq<int> := [];
    for k := 0 to |dailyData|
      invariant Grouped(dailyData[..k], weeks, order)
    {
      assert dailyData[..k + 1] == dailyData[..k] + [dailyData[k]];
      weeks, order := AddToWeek(dailyData[..k], dailyData[k], weeks, order);
    }
    assert dailyData[..|dailyData|] == dailyData;
    summary := SummariseWeeks(weeks, order);
  }

  /** `Object.values(weeks).map(...)`: each week with its status, in insertion order. */
  method SummariseWeeks(weeks: map<int, WeekSummary>, order: seq<int>) returns (summary: seq<WeekSummary>)
    requires forall j :: 0 <= j < |order| ==> order[j] in weeks
    ensures |summary| == |order|
    ensures forall j :: 0 <= j < |order| ==> summary[j] == weeks[order[j]].(status := StatusOfRatio(weeks[order[j]].totalScore, 5))
  {
    summary := [];
    for i := 0 to |order|
      invariant |summary| == i
      invariant forall j :: 0 <= j < i ==> summary[j] == weeks[order[j]].(status := StatusOfRatio(weeks[order[j]].totalScore, 5))
    {
      var w := weeks[order[i]];
      summary := summary + [w.(status := StatusOfRatio(w.totalScore, 5))];
    }
  }

  /** The body of the grouping loop, for one more day. */
  method AddToWeek(prefix: seq<WorkloadRow>, day: WorkloadRow, weeks0: map<int, WeekSummary>, order0: seq<int>)
    returns (weeks: map<int, WeekSummary>, order: seq<int>)
    requires Grouped(prefix, weeks0, order0)
    ensures Grouped(prefix + [day], weeks, order)
  {
    assert WeekOrder(prefix + [day]) == if RowWeek(day) in order0 then order0 else order0 + [RowWeek(day)] by {
      MapSnoc(prefix, day, RowWeek);
      DistinctSnoc(Map(prefix, RowWeek), RowWeek(day));
    }
    assert RowWeek(day) in order0 <==> RowWeek(day) in Map(prefix, RowWeek) by {
      DistinctMembers(Map(prefix, RowWeek));
    }
    weeks, order := weeks0, order0;
    var weekStart := RowWeek(day);
    if weekStart !in weeks {
      EmptyWeek(prefix, weekStart);
      weeks := weeks[weekStart := WeekSummary(weekStart, 0, 0, 0, 0, 0, NoLoad)];
      order := order + [weekStart];
    }
    var w := weeks[weekStart];
    w := w.(totalScore := w.totalScore + RowScore(day), homeworkCount := w.homeworkCount + day.homeworkCount,
      testCount := w.testCount + day.testCount, dayCount := w.dayCount + 1);
    if RowHeavy(day) == 1 {
      w := w.(heavyDays := w.heavyDays + 1);
    }
    weeks := weeks[weekStart := w];
    forall v | v in weeks
      ensures weeks[v] == WeekTotals(prefix + [day], v)
    {
      WeekTotalsStep(prefix, day, v);
    }
  }

  /** Adding a day changes the totals of its own week only, by that day's values. */
  lemma WeekTotalsStep(prefix: seq<WorkloadRow>, day: WorkloadRow, v: int)
    ensures v != RowWeek(day) ==> WeekTotals(prefix + [day], v) == WeekTotals(prefix, v)
    ensures v == RowWeek(day) ==>
      var w := WeekTotals(prefix, v);
      WeekTotals(prefix + [day], v) == w.(totalScore := w.totalScore + RowScore(day),
        homeworkCount := w.homeworkCount + day.homeworkCount, testCount := w.testCount + day.testCount,
        dayCount := w.dayCount + 1, heavyDays := w.heavyDays + RowHeavy(day))
  {
    assert (prefix + [day])[..|prefix|] == prefix;
    SumWhereSnoc(prefix, day, RowWeek, v, RowScore);
    SumWhereSnoc(prefix, day, RowWeek, v, RowHomework);
    SumWhereSnoc(prefix, day, RowWeek, v, RowTests);
    CountKeySnoc(prefix, day, RowWeek, v);
  }

  lemma EmptyWeek(rows: seq<WorkloadRow>, w: int)
    requires w !in Map(rows, RowWeek)
    ensures WeekTotals(rows, w) == WeekSummary(w, 0, 0, 0, 0, 0, NoLoad)
  {
    AbsentKeySumsToZero(rows, RowWeek, w, RowScore);
    AbsentKeySumsToZero(rows, RowWeek, w, RowHomework);
    AbsentKeySumsToZero(rows, RowWeek, w, RowTests);
    AbsentKeyCountsZero(rows, RowWeek, w);
    AbsentKeyNoHeavy(rows, w);
  }

  lemma {:induction false} AbsentKeyCountsZero<T>(s: seq<T>, key: T -> int, k: int)
    requires k !in Map(s, key)
    ensures CountKey(s, key, k) == 0
  {
    if |s| > 0 {
      var prefix := s[..|s| - 1];
      assert forall i :: 0 <= i < |prefix| ==> Map(prefix, key)[i] == Map(s, key)[i];
      AbsentKeyCountsZero(prefix, key, k);
    }
  }

  lemma {:induction false} AbsentKeyNoHeavy(rows: seq<WorkloadRow>, w: int)
    requires w !in Map(rows, RowWeek)
    ensures HeavyCount(rows, w) == 0
  {
    if |rows| > 0 {
      var prefix := rows[..|rows| - 1];
      assert forall i :: 0 <= i < |prefix| ==> Map(prefix, RowWeek)[i] == Map(rows, RowWeek)[i];
      AbsentKeyNoHeavy(prefix, w);
    }
  }

  /** A week never has more heavy days than days. */
  lemma {:induction false} HeavyDaysWithinWeek(rows: seq<WorkloadRow>, w: int)
    ensures HeavyCount(rows, w) <= CountKey(rows, RowWeek, w)
  {
    if |rows| > 0 {
      HeavyDaysWithinWeek(rows[..|rows| - 1], w);
    }
  }

  /** The weeks of the summary partition the days: their day counts add up to the number of rows. */
  lemma SummaryCoversEveryDay(dailyData: seq<WorkloadRow>)
    ensures SumCounts(dailyData, RowWeek, WeekOrder(dailyData)) == |dailyData|
  {
    var keys := Map(dailyData, RowWeek);
    forall i | 0 <= i < |dailyData|
      ensures RowWeek(dailyData[i]) in WeekOrder(dailyData)
    {
      assert keys[i] == RowWeek(dailyData[i]);
    }
    PartitionCount(dailyData, RowWeek, WeekOrder(dailyData));
  }
}
