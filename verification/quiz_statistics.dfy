/**
 * Aggregate statistics over the attempt history of a quiz: count, rounded
 * mean, best and worst percentage, rounded mean time, the newest attempt's
 * timestamp, and a coarse trend comparing the three newest scores with the
 * three before them.
 */
module QuizStatistics {
  import opened Options
  import QuizStorage
  import JsMath

  datatype Trend = Improving | Declining | Stable

  function Sum(xs: seq<int>): int {
    if |xs| == 0 then 0 else xs[0] + Sum(xs[1..])
  }

  /** `Math.max(...xs)` of a non-empty list. */
  function MaxOf(xs: seq<int>): (m: int)
    requires |xs| > 0
    ensures m in xs
    ensures forall i :: 0 <= i < |xs| ==> xs[i] <= m
  {
    if |xs| == 1 then xs[0] else JsMath.Max(xs[0], MaxOf(xs[1..]))
  }

  /** `Math.min(...xs)` of a non-empty list. */
  function MinOf(xs: seq<int>): (m: int)
    requires |xs| > 0
    ensures m in xs
    ensures forall i :: 0 <= i < |xs| ==> m <= xs[i]
  {
    if |xs| == 1 then xs[0] else JsMath.Min(xs[0], MinOf(xs[1..]))
  }

  /** A sum lies between count times the least and count times the largest. */
  lemma {:induction false} SumBetween(xs: seq<int>, lo: int, hi: int)
    requires forall i :: 0 <= i < |xs| ==> lo <= xs[i] <= hi
    ensures |xs| * lo <= Sum(xs) <= |xs| * hi
  {
    if |xs| > 0 {
      SumBetween(xs[1..], lo, hi);
      assert |xs| * lo == lo + (|xs| - 1) * lo;
      assert |xs| * hi == hi + (|xs| - 1) * hi;
    }
  }

  /** The rounded mean of a non-empty list lies between its extremes. */
  lemma MeanBetween(xs: seq<int>)
    requires |xs| > 0
    ensures MinOf(xs) <= JsMath.RoundDiv(Sum(xs), |xs|) <= MaxOf(xs)
  {
    SumBetween(xs, MinOf(xs), MaxOf(xs));
    JsMath.RoundDivBetween(Sum(xs), |xs|, MinOf(xs), MaxOf(xs));
  }

  /**
   * `Math.round(sum / length)` of a non-empty list: the integer within half
   * a unit of the exact mean, and so between the least and largest entry.
   */
  function RoundedMean(xs: seq<int>): (m: int)
    requires |xs| > 0
    ensures |xs| * (2 * m - 1) <= 2 * Sum(xs) < |xs| * (2 * m + 1)
    ensures MinOf(xs) <= m <= MaxOf(xs)
  {
    MeanBetween(xs);
    JsMath.RoundDiv(Sum(xs), |xs|)
  }

  // ---------------------------------------------------------------------
  // Trend
  // ---------------------------------------------------------------------

  /**
   * The trend of a newest-first list of scores: fewer than three, or no
   * older window, is stable; otherwise the mean of the first three is
   * compared with the mean of the next (at most) three, and a difference
   * above 5 points is improving, below -5 declining. The means are compared
   * by cross-multiplying the window sums.
   */
  function CalculateTrend(scores: seq<int>): (t: Trend)
    ensures |scores| < 4 ==> t == Stable
  {
    if |scores| < 3 then Stable
    else
      var recent := scores[..3];
      var older := scores[3..JsMath.Min(6, |scores|)];
      if |older| == 0 then Stable
      else
        var gap := |older| * Sum(recent) - 3 * Sum(older);
        if gap > 15 * |older| then Improving
        else if gap < -15 * |older| then Declining
        else Stable
  }

  /** The mean `sum / length` of the trend windows, in exact arithmetic. */
  function Mean(xs: seq<int>): real
    requires |xs| > 0
  {
    Sum(xs) as real / |xs| as real
  }

  /** The trend stated with window means, as `calculateTrend` compares them. */
  function TrendByMeans(scores: seq<int>): Trend {
    if |scores| < 3 then Stable
    else
      var recent := scores[..3];
      var older := scores[3..JsMath.Min(6, |scores|)];
      if |older| == 0 then Stable
      else
        var diff := Mean(recent) - Mean(older);
        if diff > 5.0 then Improving
        else if diff < -5.0 then Declining
        else Stable
  }

  /** Cross-multiplied window sums classify exactly as the window means do. */
  lemma TrendMatchesMeans(scores: seq<int>)
    ensures CalculateTrend(scores) == TrendByMeans(scores)
  {
    if |scores| >= 4 {
      var recent := scores[..3];
      var older := scores[3..JsMath.Min(6, |scores|)];
      var k := |older|;
      var r, o := Sum(recent) as real, Sum(older) as real;
      var diff := Mean(recent) - Mean(older);
      assert diff == r / 3.0 - o / k as real;
      ScaledDifference(r, o, k as real);
      assert (k * Sum(recent) - 3 * Sum(older)) as real == 3.0 * (k as real) * diff;
    }
  }

  /** Multiplying a difference of means by both window sizes. */
  lemma ScaledDifference(r: real, o: real, k: real)
    requires k > 0.0
    ensures 3.0 * k * (r / 3.0 - o / k) == k * r - 3.0 * o
  {
    assert 3.0 * k * (r / 3.0) == k * r;
    assert 3.0 * k * (o / k) == 3.0 * o;
  }

  /** Only the six newest scores take part in the trend. */
  lemma TrendIgnoresOldScores(scores: seq<int>)
    requires |scores| >= 6
    ensures CalculateTrend(scores) == CalculateTrend(scores[..6])
  {
    assert scores[..6][..3] == scores[..3];
    assert scores[..6][3..6] == scores[3..6];
  }

  /** The worked example: 87.67 against 57.67 is an improvement. */
  lemma TrendExample()
    ensures CalculateTrend([90, 85, 88, 60, 55, 58]) == Improving
    ensures CalculateTrend([60, 55, 58, 90, 85, 88]) == Declining
    ensures CalculateTrend([90, 85, 88]) == Stable
  {
    var s := [90, 85, 88, 60, 55, 58];
    assert s[..3] == [90, 85, 88] && s[3..6] == [60, 55, 58];
    var u := [60, 55, 58, 90, 85, 88];
    assert u[..3] == [60, 55, 58] && u[3..6] == [90, 85, 88];
    SumOfThree(90, 85, 88);
    SumOfThree(60, 55, 58);
  }

  lemma SumOfThree(a: int, b: int, c: int)
    ensures Sum([a, b, c]) == a + b + c
  {
    assert [a, b, c][1..] == [b, c];
    assert [b, c][1..] == [c];
    assert [c][1..] == [];
    assert Sum([c]) == c;
    assert Sum([b, c]) == b + c;
  }

  // ---------------------------------------------------------------------
  // Statistics of a history
  // ---------------------------------------------------------------------

  datatype Stats = Stats(
    totalAttempts: nat,
    averageScore: int,
    bestScore: int,
    worstScore: int,
    averageTime: int,
    lastAttempt: int,
    trend: Trend)

  function Percentages(attempts: seq<QuizStorage.QuizAttempt>): (ps: seq<int>)
    ensures |ps| == |attempts|
    ensures forall i :: 0 <= i < |attempts| ==> ps[i] == attempts[i].result.percentage
  {
    seq(|attempts|, i requires 0 <= i < |attempts| => attempts[i].result.percentage)
  }

  function TimesSpent(attempts: seq<QuizStorage.QuizAttempt>): (ts: seq<int>)
    ensures |ts| == |attempts|
    ensures forall i :: 0 <= i < |attempts| ==> ts[i] == attempts[i].timeSpent
  {
    seq(|attempts|, i requires 0 <= i < |attempts| => attempts[i].timeSpent)
  }

  /**
   * Statistics of the attempts `getQuizAttempts(quizId)` returns: nothing
   * for an empty history; otherwise the mean lies between the worst and
   * best scores, which are attained, and the newest attempt's time is
   * reported.
   */
  function GetQuizStatistics(st: QuizStorage.Store, quizId: Option<string>): (r: Option<Stats>)
    ensures var attempts := QuizStorage.GetQuizAttempts(st, quizId);
      && (r.None? <==> |attempts| == 0)
      && (r.Some? ==>
        var scores := Percentages(attempts);
        && r.value.totalAttempts == |attempts|
        && |scores| * (2 * r.value.averageScore - 1) <= 2 * Sum(scores)
           < |scores| * (2 * r.value.averageScore + 1)
        && r.value.worstScore <= r.value.averageScore <= r.value.bestScore
        && r.value.bestScore in scores && r.value.worstScore in scores
        && (forall i :: 0 <= i < |scores| ==> r.value.worstScore <= scores[i] <= r.value.bestScore)
        && |attempts| * (2 * r.value.averageTime - 1) <= 2 * Sum(TimesSpent(attempts))
           < |attempts| * (2 * r.value.averageTime + 1)
        && MinOf(TimesSpent(attempts)) <= r.value.averageTime <= MaxOf(TimesSpent(attempts))
        && r.value.lastAttempt == attempts[0].timestamp
        && r.value.trend == TrendByMeans(scores))
  {
    var attempts := QuizStorage.GetQuizAttempts(st, quizId);
    if |attempts| == 0 then None
    else
      var scores := Percentages(attempts);
      var times := TimesSpent(attempts);
      TrendMatchesMeans(scores);
      Some(Stats(
        |attempts|,
        RoundedMean(scores),
        MaxOf(scores),
        MinOf(scores),
        RoundedMean(times),
        attempts[0].timestamp,
        CalculateTrend(scores)))
  }
}
