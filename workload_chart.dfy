/**
 * The workload charts: the colour of a bar from its score, the daily
 * tooltip's status word, the height of the daily chart's y axis and the
 * order of the subject chart.
 */
module WorkloadChart {
  import opened Collections
  import Dates

  const COLOR_LIGHT := "hsl(142, 70%, 45%)"
  const COLOR_MEDIUM := "hsl(42, 90%, 50%)"
  const COLOR_HEAVY := "hsl(4, 85%, 55%)"
  const COLOR_CRITICAL := "hsl(350, 90%, 45%)"
  const COLOR_PRIMARY := "hsl(220, 60%, 50%)"

  /** The upper bounds of the light, medium and heavy bands. */
  datatype Thresholds = Thresholds(light: int, medium: int, heavy: int)

  const DAILY := Thresholds(4, 7, 10)
  const WEEKLY := Thresholds(15, 25, 35)

  /** The band a score falls in, 0 (light) to 3 (critical). */
  function Band(score: int, t: Thresholds): (b: nat)
    ensures b <= 3
    ensures b == 0 <==> score <= t.light
    ensures t.light <= t.medium ==> (b == 1 <==> t.light < score <= t.medium)
    ensures t.light <= t.medium <= t.heavy ==> (b == 2 <==> t.medium < score <= t.heavy)
    ensures t.light <= t.medium <= t.heavy ==> (b == 3 <==> t.heavy < score)
  {
    if score <= t.light then 0
    else if score <= t.medium then 1
    else if score <= t.heavy then 2
    else 3
  }

  /** `getScoreColor(score, type)`. */
  function ScoreColor(score: int, t: Thresholds): string
  {
    [COLOR_LIGHT, COLOR_MEDIUM, COLOR_HEAVY, COLOR_CRITICAL][Band(score, t)]
  }

  /** A higher score never gets a lighter colour. */
  lemma BandMonotone(s1: int, s2: int, t: Thresholds)
    requires s1 <= s2
    ensures Band(s1, t) <= Band(s2, t)
  {
  }

  /** Daily scores up to 4 are light, up to 7 medium, up to 10 heavy, above critical; weekly ones 15, 25 and 35. */
  lemma ScoreColorThresholds(score: int)
    ensures ScoreColor(score, DAILY) == COLOR_LIGHT <==> score <= 4
    ensures ScoreColor(score, DAILY) == COLOR_CRITICAL <==> score > 10
    ensures ScoreColor(score, WEEKLY) == COLOR_LIGHT <==> score <= 15
    ensures ScoreColor(score, WEEKLY) == COLOR_CRITICAL <==> score > 35
    ensures ScoreColor(score, DAILY) == COLOR_HEAVY <==> 7 < score <= 10
    ensures ScoreColor(score, WEEKLY) == COLOR_MEDIUM <==> 15 < score <= 25
  {
  }

  /** The colour of a daily bar: today's bar is always the primary colour. */
  function DailyBarColor(score: int, isToday: bool): string
  {
    if isToday then COLOR_PRIMARY else ScoreColor(score, DAILY)
  }

  /** The status word of the daily tooltip. */
  function DailyStatus(score: int): string
  {
    if score > DAILY.heavy then "Critique"
    else if score > DAILY.medium then "Chargé"
    else if score > DAILY.light then "Modéré"
    else "Léger"
  }

  /** The tooltip's status words change exactly where the bar colour does. */
  lemma DailyStatusMatchesColor(score: int)
    ensures DailyStatus(score) == ["Léger", "Modéré", "Chargé", "Critique"][Band(score, DAILY)]
  {
  }

  /** `Math.max(15, ...scores)`. */
  function MaxScore(scores: seq<int>): (m: int)
    ensures m >= 15
    ensures forall i :: 0 <= i < |scores| ==> scores[i] <= m
    ensures m == 15 || exists i :: 0 <= i < |scores| && scores[i] == m
  {
    if |scores| == 0 then 15
    else
      var rest := MaxScore(scores[..|scores| - 1]);
      var last := scores[|scores| - 1];
      assert forall i :: 0 <= i < |scores| - 1 ==> scores[..|scores| - 1][i] == scores[i];
      if last > rest then last else rest
  }

  /**
   * The daily chart's y axis ends two above the highest score, and never
   * below 17: every bar fits with room to spare, and the axis is no higher
   * than it needs to be.
   */
  function YAxisMax(scores: seq<int>): (top: int)
    ensures top >= 17
    ensures forall i :: 0 <= i < |scores| ==> scores[i] + 2 <= top
    ensures top == 17 || exists i :: 0 <= i < |scores| && scores[i] + 2 == top
  {
    MaxScore(scores) + 2
  }

  /** The weekly tooltip's count line: `devoirs` for more than one, `devoir` otherwise. */
  function CountLine(count: int): string
  {
    Dates.IntToString(count) + " " + (if count > 1 then "devoirs" else "devoir")
  }

  /** An entry of the subject chart. */
  datatype SubjectBar = SubjectBar(name: string, totalWeight: int, count: int)

  /** The comparator `b.totalWeight - a.totalWeight`: heavier subjects first. */
  predicate HeavierFirst(a: SubjectBar, b: SubjectBar)
  {
    a.totalWeight >= b.totalWeight
  }

  lemma HeavierFirstIsTotal()
    ensures TotalPreorder(HeavierFirst)
  {
  }

  /** The subjects in chart order. */
  function SubjectOrder(subjects: seq<SubjectBar>): seq<SubjectBar>
  {
    SortBy(subjects, HeavierFirst)
  }

  /** The subject chart shows every subject once, heaviest first. */
  lemma SubjectOrderSorted(subjects: seq<SubjectBar>)
    ensures multiset(SubjectOrder(subjects)) == multiset(subjects)
    ensures forall i, j :: 0 <= i < j < |subjects| ==> SubjectOrder(subjects)[i].totalWeight >= SubjectOrder(subjects)[j].totalWeight
  {
    HeavierFirstIsTotal();
    SortBySorted(subjects, HeavierFirst);
  }
}
