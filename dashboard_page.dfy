/**
 * The dashboard: the greeting, the seven-day chart of upcoming work, the
 * four-week chart, and for each day of the chart its assignments grouped
 * by subject with a load status.
 */
module DashboardPage {
  import opened Collections
  import opened Assignments
  import opened ChartData
  import opened WorkloadCalculator

  const DAILY_CAP := 7

  /** `greeting`: by the hour of the day (0 to 23). */
  function Greeting(hour: int): (r: string)
    ensures r == "Bonjour" <==> hour < 12
    ensures r == "Bon après-midi" <==> 12 <= hour < 18
    ensures r == "Bonsoir" <==> 18 <= hour
  {
    if hour < 12 then "Bonjour"
    else if hour < 18 then "Bon après-midi"
    else "Bonsoir"
  }

  /** `dailyChartData`: the first seven upcoming days with work, by date, each with its assignments. */
  method DailyBars(s: seq<Assignment>, today: int) returns (points: seq<DayPoint>)
    ensures |points| <= DAILY_CAP
    ensures forall i :: 0 <= i < |points| ==> points[i] == PointOf(s, points[i].date) && today <= points[i].date && points[i].count > 0
    ensures forall i, j :: 0 <= i < j < |points| ==> points[i].date < points[j].date
    ensures forall k :: 0 <= k < |s| && s[k].dueDate.Some? && s[k].dueDate.value >= today ==> Listed(points, s[k].dueDate.value, DAILY_CAP)
  {
    points := DailyChart(s, today, DAILY_CAP);
  }

  /** `bySubject` for one day of the chart: the day's assignments under their subject ('Autre' without one). */
  function BySubject(day: DayPoint): map<string, seq<Assignment>>
  {
    GroupBy(day.assignments, SubjectOf)
  }

  /**
   * Every assignment of the day is filed under its subject, a subject is
   * listed only when one of the day's assignments has it, and it holds
   * exactly those assignments, in the day's order.
   */
  lemma BySubjectMeaning(day: DayPoint)
    ensures forall i :: 0 <= i < |day.assignments| ==> SubjectOf(day.assignments[i]) in BySubject(day)
    ensures forall n :: n in BySubject(day) ==> exists i :: 0 <= i < |day.assignments| && SubjectOf(day.assignments[i]) == n
    ensures forall n :: n in BySubject(day) ==>
      n != "" && BySubject(day)[n] == Where(day.assignments, SubjectOf, n) && |BySubject(day)[n]| > 0
  {
    GroupByMeaning(day.assignments, SubjectOf);
  }

  /** `getStatus(score)`: the day's load on the daily scale. */
  function GetStatus(score: int): (r: string)
  {
    if score <= 2 then "light"
    else if score <= 4 then "medium"
    else if score <= 6 then "heavy"
    else "critical"
  }

  /** The status key of each load status. */
  function StatusKey(s: LoadStatus): string
  {
    match s
    case Light => "light"
    case Medium => "medium"
    case Heavy => "heavy"
    case Critical => "critical"
  }

  /** `statusLabels`: the French label shown for each status key. */
  function StatusLabel(key: string): (r: string)
  {
    if key == "light" then "Léger"
    else if key == "medium" then "Modéré"
    else if key == "heavy" then "Chargé"
    else "Critique"
  }

  /** The dashboard classifies a day's score exactly as the workload engine's daily status does. */
  lemma GetStatusAgrees(score: int)
    ensures GetStatus(score) == StatusKey(DailyStatus(score))
  {
  }
}
