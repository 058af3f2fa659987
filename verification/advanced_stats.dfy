/**
 * The derived figures of the detailed-statistics panel shown after a quiz:
 * the split of the answer sheet into correct, incorrect and unanswered, the
 * per-type (true/false, multiple choice) counts and accuracies, the mean
 * time per question, the comparison with the historical average, and the
 * trend label.
 */
module AdvancedStats {
  import opened Options
  import opened QuizTypes
  import JsMath
  import QuizSession
  import QuizStatistics

  // ---------------------------------------------------------------------
  // Correct / incorrect / unanswered
  // ---------------------------------------------------------------------

  datatype Bucket = Correct | Incorrect | Unanswered

  /**
   * The bucket of one answered slot: `null` is unanswered, an answer equal
   * to the key is correct, any other answer incorrect.
   */
  function BucketOf(q: Question, a: Answer): (b: Bucket)
    ensures b == Correct <==> IsCorrect(q, a)
    ensures b == Unanswered <==> a.None?
    ensures b == Incorrect <==> a.Some? && !IsCorrect(q, a)
  {
    if a.None? then Unanswered
    else if a.value == q.answer then Correct
    else Incorrect
  }

  /** The number of positions of the sheet that fall into bucket `b`. */
  function CountBucket(qs: seq<Question>, answers: seq<Answer>, b: Bucket): (n: nat)
    requires |answers| == |qs|
    ensures n <= |answers|
  {
    if |qs| == 0 then 0
    else CountBucket(qs[..|qs| - 1], answers[..|qs| - 1], b)
         + (if BucketOf(qs[|qs| - 1], answers[|qs| - 1]) == b then 1 else 0)
  }

  /** Every slot is counted in exactly one of the three buckets. */
  lemma {:induction false} BucketsPartition(qs: seq<Question>, answers: seq<Answer>)
    requires |answers| == |qs|
    ensures CountBucket(qs, answers, Correct) + CountBucket(qs, answers, Incorrect)
            + CountBucket(qs, answers, Unanswered) == |answers|
  {
    if |qs| > 0 {
      BucketsPartition(qs[..|qs| - 1], answers[..|qs| - 1]);
    }
  }

  /** The panel's correct count is the score `finishQuiz` computes. */
  lemma {:induction false} CorrectMatchesScore(qs: seq<Question>, answers: seq<Answer>)
    requires |answers| == |qs|
    ensures CountBucket(qs, answers, Correct) == CorrectCount(qs, answers)
  {
    if |qs| > 0 {
      CorrectMatchesScore(qs[..|qs| - 1], answers[..|qs| - 1]);
    }
  }

  /** A sheet nobody touched is entirely unanswered. */
  lemma {:induction false} BlankSheetUnanswered(qs: seq<Question>, answers: seq<Answer>)
    requires |answers| == |qs|
    requires QuizSession.AllUnanswered(answers)
    ensures CountBucket(qs, answers, Unanswered) == |answers|
    ensures CountBucket(qs, answers, Correct) == 0
  {
    if |qs| > 0 {
      BlankSheetUnanswered(qs[..|qs| - 1], answers[..|qs| - 1]);
    }
  }

  // ---------------------------------------------------------------------
  // Question types
  // ---------------------------------------------------------------------

  /** The number of questions offering exactly `k` choices. */
  function CountOfKind(qs: seq<Question>, k: nat): (n: nat)
    ensures n <= |qs|
  {
    if |qs| == 0 then 0
    else CountOfKind(qs[..|qs| - 1], k) + (if |qs[|qs| - 1].choices| == k then 1 else 0)
  }

  /**
   * The number of correctly answered questions offering exactly `k`
   * choices. The panel finds each question's slot with `indexOf`, which
   * compares objects by identity; the questions of a bank are distinct
   * objects, so the slot is the question's own position.
   */
  function CorrectOfKind(qs: seq<Question>, answers: seq<Answer>, k: nat): (n: nat)
    requires |answers| == |qs|
    ensures n <= CountOfKind(qs, k)
  {
    if |qs| == 0 then 0
    else CorrectOfKind(qs[..|qs| - 1], answers[..|qs| - 1], k)
         + (if |qs[|qs| - 1].choices| == k && IsCorrect(qs[|qs| - 1], answers[|qs| - 1]) then 1 else 0)
  }

  /**
   * True/false and multiple-choice questions together make up the bank
   * exactly when every question has two or four choices, as every
   * validated bank does.
   */
  lemma {:induction false} KindsCoverBank(qs: seq<Question>)
    ensures CountOfKind(qs, 2) + CountOfKind(qs, 4) <= |qs|
    ensures CountOfKind(qs, 2) + CountOfKind(qs, 4) == |qs|
            <==> forall i :: 0 <= i < |qs| ==> IsTrueFalse(qs[i]) || IsMultipleChoice(qs[i])
  {
    if |qs| > 0 {
      var init := qs[..|qs| - 1];
      KindsCoverBank(init);
      assert forall i :: 0 <= i < |init| ==> init[i] == qs[i];
    }
  }

  /** In a validated bank the per-type correct counts add up to the score. */
  lemma {:induction false} KindsSplitScore(qs: seq<Question>, answers: seq<Answer>)
    requires |answers| == |qs|
    requires forall i :: 0 <= i < |qs| ==> WellFormed(qs[i])
    ensures CorrectOfKind(qs, answers, 2) + CorrectOfKind(qs, answers, 4) == CorrectCount(qs, answers)
  {
    if |qs| > 0 {
      var init := qs[..|qs| - 1];
      assert forall i :: 0 <= i < |init| ==> init[i] == qs[i];
      KindsSplitScore(init, answers[..|qs| - 1]);
    }
  }

  /** The per-type accuracies, shown only when both kinds occur. */
  datatype TypeAccuracy = TypeAccuracy(trueFalse: int, multipleChoice: int)

  function TypeSection(qs: seq<Question>, answers: seq<Answer>): (r: Option<TypeAccuracy>)
    requires |answers| == |qs|
    ensures r.Some? <==> CountOfKind(qs, 2) > 0 && CountOfKind(qs, 4) > 0
    ensures r.Some? ==>
      && 0 <= r.value.trueFalse <= 100
      && 0 <= r.value.multipleChoice <= 100
      && r.value.trueFalse == QuizSession.Percentage(CorrectOfKind(qs, answers, 2), CountOfKind(qs, 2))
      && r.value.multipleChoice == QuizSession.Percentage(CorrectOfKind(qs, answers, 4), CountOfKind(qs, 4))
      && 2 * CountOfKind(qs, 2) * r.value.trueFalse <= 200 * CorrectOfKind(qs, answers, 2) + CountOfKind(qs, 2)
         < 2 * CountOfKind(qs, 2) * (r.value.trueFalse + 1)
      && 2 * CountOfKind(qs, 4) * r.value.multipleChoice <= 200 * CorrectOfKind(qs, answers, 4) + CountOfKind(qs, 4)
         < 2 * CountOfKind(qs, 4) * (r.value.multipleChoice + 1)
      && (r.value.trueFalse == 100 <==> 200 * CorrectOfKind(qs, answers, 2) >= 199 * CountOfKind(qs, 2))
      && (r.value.multipleChoice == 100 <==> 200 * CorrectOfKind(qs, answers, 4) >= 199 * CountOfKind(qs, 4))
  {
    var tf, mc := CountOfKind(qs, 2), CountOfKind(qs, 4);
    if tf > 0 && mc > 0 then
      Some(TypeAccuracy(
        QuizSession.Percentage(CorrectOfKind(qs, answers, 2), tf),
        QuizSession.Percentage(CorrectOfKind(qs, answers, 4), mc)))
    else None
  }

  // ---------------------------------------------------------------------
  // Time, comparison and trend label
  // ---------------------------------------------------------------------

  /**
   * `Math.round(timeSpent / totalQuestions)`; with no questions the
   * quotient is not a finite number, which is `None` here.
   */
  function AvgTimePerQuestion(timeSpent: int, totalQuestions: nat): (r: Option<int>)
    ensures r.Some? <==> totalQuestions > 0
    ensures r.Some? ==>
      totalQuestions * (2 * r.value - 1) <= 2 * timeSpent < totalQuestions * (2 * r.value + 1)
  {
    if totalQuestions == 0 then None
    else Some(JsMath.RoundDiv(timeSpent, totalQuestions))
  }

  /** A steady pace of `pace` seconds per question is reported as `pace`. */
  lemma SteadyPace(pace: int, totalQuestions: nat)
    requires totalQuestions > 0
    ensures AvgTimePerQuestion(pace * totalQuestions, totalQuestions) == Some(pace)
  {
    JsMath.RoundDivUnique(pace * totalQuestions, totalQuestions, pace);
  }

  /** The one summary line of the comparison with the average. */
  datatype Comparison = Better(gap: nat) | Worse(gap: nat) | Same

  /**
   * The comparison section, present only when an average is known: the
   * line chosen by the sign of the difference, and the gap shown as its
   * absolute value.
   */
  function CompareWithAverage(accuracy: int, average: Option<int>): (r: Option<Comparison>)
    ensures r.Some? <==> average.Some?
    ensures r.Some? ==>
      && (r.value.Better? <==> accuracy > average.value)
      && (r.value.Worse? <==> accuracy < average.value)
      && (r.value.Same? <==> accuracy == average.value)
      && (r.value.Better? ==> average.value + r.value.gap == accuracy)
      && (r.value.Worse? ==> accuracy + r.value.gap == average.value)
  {
    match average
    case None => None
    case Some(avg) =>
      if accuracy > avg then Some(Better(accuracy - avg))
      else if accuracy < avg then Some(Worse(avg - accuracy))
      else Some(Same)
  }

  /** Swapping the two percentages swaps improvement and decline. */
  lemma CompareAntisymmetric(a: int, b: int)
    ensures CompareWithAverage(a, Some(b)).value.Better?
            <==> CompareWithAverage(b, Some(a)).value.Worse?
    ensures CompareWithAverage(a, Some(b)).value.Same?
            <==> CompareWithAverage(b, Some(a)).value.Same?
  {
  }

  /** The icon and the word shown for a trend; no trend shows nothing. */
  datatype Label = Label(icon: string, text: string)

  function TrendLabel(trend: Option<QuizStatistics.Trend>): (l: Label)
    ensures trend.None? <==> l == Label("", "")
    ensures trend.None? <==> l.icon == ""
  {
    match trend
    case None => Label("", "")
    case Some(t) =>
      if t.Improving? then Label("\U{1F4C8}", "Mejorando")
      else if t.Declining? then Label("\U{1F4C9}", "Bajando")
      else Label("\U{27A1}\U{FE0F}", "Estable")
  }

  /** Different trends are labelled differently, in icon and in word. */
  lemma TrendLabelInjective(a: Option<QuizStatistics.Trend>, b: Option<QuizStatistics.Trend>)
    requires a != b
    ensures TrendLabel(a).icon != TrendLabel(b).icon
    ensures TrendLabel(a).text != TrendLabel(b).text
  {
  }
}
