/**
 * The quiz session of the generator screen: validating a question bank,
 * starting a session over it (optionally shuffled), answering, moving
 * between questions, scoring, and choosing the questions listed for review
 * when the results are shared.
 */
module QuizSession {
  import opened Options
  import opened QuizTypes
  import JsMath

  // ---------------------------------------------------------------------
  // Validation
  // ---------------------------------------------------------------------

  /** Why a bank is refused; positions are 1-based, as in the message. */
  datatype ValidationError = BadQuestion(position: nat) | EmptyBank

  /** The 0-based index of the first ill-formed question, if there is one. */
  function FirstIllFormed(bank: seq<Question>): (r: Option<nat>)
    ensures r.None? <==> forall i :: 0 <= i < |bank| ==> WellFormed(bank[i])
    ensures r.Some? ==>
      && r.value < |bank|
      && !WellFormed(bank[r.value])
      && forall i :: 0 <= i < r.value ==> WellFormed(bank[i])
  {
    if |bank| == 0 then None
    else if !WellFormed(bank[0]) then Some(0)
    else
      match FirstIllFormed(bank[1..])
      case None => None
      case Some(k) => Some(k + 1)
  }

  /**
   * Bank validation exactly as the generator performs it: every question is
   * checked in order and the first failure is reported. An empty bank
   * passes.
   */
  function ValidateAsWritten(bank: seq<Question>): (r: Option<ValidationError>)
    ensures r.None? <==> forall i :: 0 <= i < |bank| ==> WellFormed(bank[i])
    ensures r.Some? ==> r.value.BadQuestion?
  {
    match FirstIllFormed(bank)
    case None => None
    case Some(i) => Some(BadQuestion(i + 1))
  }

  /**
   * Bank validation with the empty bank refused, as the shared-link loaders
   * already do; the rest of the model uses this one.
   */
  function Validate(bank: seq<Question>): (r: Option<ValidationError>)
    ensures r.None? <==>
      |bank| > 0 && forall i :: 0 <= i < |bank| ==> WellFormed(bank[i])
    ensures r == Some(EmptyBank) <==> |bank| == 0
    ensures r.Some? && r.value.BadQuestion? ==>
      && 1 <= r.value.position <= |bank|
      && !WellFormed(bank[r.value.position - 1])
      && forall i :: 0 <= i < r.value.position - 1 ==> WellFormed(bank[i])
  {
    if |bank| == 0 then Some(EmptyBank) else ValidateAsWritten(bank)
  }

  // ---------------------------------------------------------------------
  // Random order
  // ---------------------------------------------------------------------

  /**
   * Random mode sorts a copy of the bank with a coin-flip comparator; the
   * outcome is some rearrangement of the bank. The coin flips are modelled
   * as an arbitrary stream `picks`: each step moves the element at
   * `picks[0] mod |xs|` to the front of the result. Missing picks read as 0.
   */
  function ShuffleBy<T>(xs: seq<T>, picks: seq<nat>): (r: seq<T>)
    ensures multiset(r) == multiset(xs)
    decreases |xs|
  {
    if |xs| == 0 then []
    else
      var k := (if |picks| == 0 then 0 else picks[0]) % |xs|;
      var rest := xs[..k] + xs[k + 1..];
      assert xs == xs[..k] + [xs[k]] + xs[k + 1..];
      [xs[k]] + ShuffleBy(rest, if |picks| == 0 then [] else picks[1..])
  }

  // ---------------------------------------------------------------------
  // The session
  // ---------------------------------------------------------------------

  /**
   * The working state of the quiz screen while a bank is loaded: the
   * (possibly shuffled) questions, the current position, the answer sheet,
   * and the result once the quiz is finished.
   */
  datatype Session = Session(
    questions: seq<Question>,
    index: int,
    answers: seq<Answer>,
    result: Option<QuizResult>)

  /**
   * The screen can show a session only when it has a current question; the
   * answer sheet runs parallel to the questions.
   */
  predicate Valid(s: Session) {
    && |s.questions| >= 1
    && 0 <= s.index < |s.questions|
    && |s.answers| == |s.questions|
  }

  /** True when no slot of the answer sheet holds an answer. */
  predicate AllUnanswered(answers: seq<Answer>) {
    forall i :: 0 <= i < |answers| ==> answers[i].None?
  }

  /** A fresh session: all unanswered, first question, no result. */
  function Start(questions: seq<Question>): (s: Session)
    ensures s.questions == questions && s.index == 0 && s.result.None?
    ensures |s.answers| == |questions| && AllUnanswered(s.answers)
  {
    Session(questions, 0, seq(|questions|, _ => None), None)
  }

  /** Question order after the random-mode switch is applied. */
  function Arrange(bank: seq<Question>, randomMode: bool, picks: seq<nat>): (qs: seq<Question>)
    ensures multiset(qs) == multiset(bank)
    ensures !randomMode ==> qs == bank
  {
    if randomMode then ShuffleBy(bank, picks) else bank
  }

  /** Quiz generation as written: validate, arrange, start. */
  function GenerateAsWritten(bank: seq<Question>, randomMode: bool, picks: seq<nat>)
    : (r: Result<Session, ValidationError>)
    ensures r.Ok? <==> ValidateAsWritten(bank).None?
  {
    match ValidateAsWritten(bank)
    case Some(e) => Err(e)
    case None => Ok(Start(Arrange(bank, randomMode, picks)))
  }

  /** Well-formedness of every question survives any rearrangement. */
  lemma RearrangedWellFormed(bank: seq<Question>, qs: seq<Question>)
    requires multiset(qs) == multiset(bank)
    requires forall i :: 0 <= i < |bank| ==> WellFormed(bank[i])
    ensures forall i :: 0 <= i < |qs| ==> WellFormed(qs[i])
  {
    forall i | 0 <= i < |qs|
      ensures WellFormed(qs[i])
    {
      assert qs[i] in multiset(qs);
      assert qs[i] in bank;
    }
  }

  /**
   * Quiz generation with the corrected validation. On success the session
   * holds a rearrangement of the bank (the bank itself when random mode is
   * off), every answer is empty, the first question is current and no
   * result is shown.
   */
  function Generate(bank: seq<Question>, randomMode: bool, picks: seq<nat>)
    : (r: Result<Session, ValidationError>)
    ensures r.Ok? <==>
      |bank| > 0 && forall i :: 0 <= i < |bank| ==> WellFormed(bank[i])
    ensures r.Err? ==> r.error == Validate(bank).value
    ensures r.Ok? ==>
      && Valid(r.value)
      && r.value.index == 0
      && r.value.result.None?
      && AllUnanswered(r.value.answers)
      && multiset(r.value.questions) == multiset(bank)
      && (!randomMode ==> r.value.questions == bank)
      && forall i :: 0 <= i < |r.value.questions| ==> WellFormed(r.value.questions[i])
  {
    match Validate(bank)
    case Some(e) => Err(e)
    case None =>
      var qs := Arrange(bank, randomMode, picks);
      RearrangedWellFormed(bank, qs);
      Ok(Start(qs))
  }

  /**
   * The as-written validation lets an empty bank through, and the session it
   * starts has no current question for the quiz screen to show.
   */
  lemma EmptyBankAcceptedAsWritten(randomMode: bool, picks: seq<nat>)
    ensures GenerateAsWritten([], randomMode, picks).Ok?
    ensures !Valid(GenerateAsWritten([], randomMode, picks).value)
    ensures Generate([], randomMode, picks) == Err(EmptyBank)
  {
  }

  /** Choosing an answer overwrites only the current slot of the sheet. */
  function SelectAnswer(s: Session, choice: int): (r: Session)
    requires Valid(s)
    ensures Valid(r)
    ensures r.questions == s.questions && r.index == s.index && r.result == s.result
    ensures r.answers[s.index] == Some(choice)
    ensures forall i :: 0 <= i < |s.answers| && i != s.index ==> r.answers[i] == s.answers[i]
  {
    s.(answers := s.answers[s.index := Some(choice)])
  }

  /** Moves forward unless the current question is the last one. */
  function NextQuestion(s: Session): (r: Session)
    requires Valid(s)
    ensures Valid(r)
    ensures r == s.(index := r.index)
    ensures r.index == JsMath.Min(s.index + 1, |s.questions| - 1)
  {
    if s.index < |s.questions| - 1 then s.(index := s.index + 1) else s
  }

  /** Moves back unless the current question is the first one. */
  function PrevQuestion(s: Session): (r: Session)
    requires Valid(s)
    ensures Valid(r)
    ensures r == s.(index := r.index)
    ensures r.index == JsMath.Max(s.index - 1, 0)
  {
    if s.index > 0 then s.(index := s.index - 1) else s
  }

  /** Going forward and then back returns to the same question. */
  lemma PrevUndoesNext(s: Session)
    requires Valid(s) && s.index < |s.questions| - 1
    ensures PrevQuestion(NextQuestion(s)) == s
  {
  }

  /** Going back and then forward returns to the same question. */
  lemma NextUndoesPrev(s: Session)
    requires Valid(s) && s.index > 0
    ensures NextQuestion(PrevQuestion(s)) == s
  {
  }

  /** `k` presses of the forward button. */
  function Forward(s: Session, k: nat): (r: Session)
    requires Valid(s)
    ensures Valid(r)
    decreases k
  {
    if k == 0 then s else Forward(NextQuestion(s), k - 1)
  }

  /** Pressing forward `k` times stops at the last question. */
  lemma {:induction false} ForwardClamps(s: Session, k: nat)
    requires Valid(s)
    ensures Forward(s, k) == s.(index := JsMath.Min(s.index + k, |s.questions| - 1))
    decreases k
  {
    if k > 0 {
      ForwardClamps(NextQuestion(s), k - 1);
    }
  }

  // ---------------------------------------------------------------------
  // Scoring
  // ---------------------------------------------------------------------

  /**
   * The rounded percentage of a score, `Math.round(score / total * 100)`:
   * the integer within half a unit of 100 * score / total, ties going up.
   */
  function Percentage(score: nat, total: nat): (p: int)
    requires 0 < total && score <= total
    ensures 2 * total * p <= 200 * score + total < 2 * total * (p + 1)
    ensures 0 <= p <= 100
    ensures p == 0 <==> 200 * score < total
    ensures p == 100 <==> 200 * score >= 199 * total
  {
    PercentageBracket(score, total);
    JsMath.RoundDiv(100 * score, total)
  }

  /** Any integer within half a unit of the exact percentage is the one shown. */
  lemma PercentageExact(score: nat, total: nat, p: int)
    requires 0 < total && score <= total
    requires 2 * total * p <= 200 * score + total < 2 * total * (p + 1)
    ensures Percentage(score, total) == p
  {
    JsMath.RoundDivUnique(100 * score, total, p);
  }

  /** A better score never shows a lower percentage. */
  lemma PercentageMonotone(score: nat, score': nat, total: nat)
    requires 0 < total && score <= score' <= total
    ensures Percentage(score, total) <= Percentage(score', total)
  {
    JsMath.RoundDivMonotone(100 * score, 100 * score', total);
  }

  lemma PercentageBracket(score: nat, total: nat)
    requires 0 < total && score <= total
    ensures var p := JsMath.RoundDiv(100 * score, total);
      && 0 <= p <= 100
      && (p == 0 <==> 200 * score < total)
      && (p == 100 <==> 200 * score >= 199 * total)
  {
    JsMath.RoundDivBetween(100 * score, total, 0, 100);
    var p := JsMath.RoundDiv(100 * score, total);
    if p >= 1 {
      assert total * (2 * p - 1) >= total;
    }
    if p <= 99 {
      assert total * (2 * p + 1) <= total * 199;
    }
  }

  /** The score reduction of finishing a quiz, scanning the sheet in order. */
  method ComputeScore(qs: seq<Question>, answers: seq<Answer>) returns (score: nat)
    requires |answers| == |qs|
    ensures score == CorrectCount(qs, answers)
    ensures score <= |qs|
  {
    score := 0;
    var i := 0;
    while i < |answers|
      invariant 0 <= i <= |answers|
      invariant score == CorrectCount(qs[..i], answers[..i])
    {
      assert qs[..i + 1][..i] == qs[..i];
      assert answers[..i + 1][..i] == answers[..i];
      if answers[i] != None && answers[i].value == qs[i].answer {
        score := score + 1;
      }
      i := i + 1;
    }
    assert qs[..i] == qs && answers[..i] == answers;
  }

  /** The result a finished quiz records. */
  function Finish(s: Session): (r: Session)
    requires Valid(s)
    ensures Valid(r)
    ensures r == s.(result := r.result)
    ensures r.result.Some?
    ensures r.result.value.score == CorrectCount(s.questions, s.answers)
    ensures 0 <= r.result.value.score <= r.result.value.total == |s.questions|
    ensures 0 <= r.result.value.percentage <= 100
    ensures r.result.value.percentage == Percentage(r.result.value.score, |s.questions|)
    ensures r.result.value.answers == s.answers
  {
    var score := CorrectCount(s.questions, s.answers);
    s.(result := Some(QuizResult(score, |s.questions|, Percentage(score, |s.questions|), s.answers)))
  }

  /** Finishing the quiz: scores the sheet and shows the result. */
  method FinishQuiz(s: Session) returns (r: Session)
    requires Valid(s)
    ensures r == Finish(s)
  {
    var score := ComputeScore(s.questions, s.answers);
    var total := |s.questions|;
    r := s.(result := Some(QuizResult(score, total, Percentage(score, total), s.answers)));
  }

  /** A sheet with no answers scores nothing. */
  lemma {:induction false} UnansweredScoresZero(qs: seq<Question>, answers: seq<Answer>)
    requires |answers| == |qs| && AllUnanswered(answers)
    ensures CorrectCount(qs, answers) == 0
  {
    if |qs| > 0 {
      UnansweredScoresZero(qs[..|qs| - 1], answers[..|qs| - 1]);
    }
  }

  /** Generating and immediately finishing yields score 0 and 0 percent. */
  lemma FinishRightAway(bank: seq<Question>, randomMode: bool, picks: seq<nat>)
    requires Generate(bank, randomMode, picks).Ok?
    ensures Finish(Generate(bank, randomMode, picks).value).result.value.score == 0
    ensures Finish(Generate(bank, randomMode, picks).value).result.value.percentage == 0
  {
    var s := Generate(bank, randomMode, picks).value;
    UnansweredScoresZero(s.questions, s.answers);
  }

  /** Overwriting one slot changes the count only by that slot's verdicts. */
  lemma {:induction false} CorrectCountUpdate(qs: seq<Question>, answers: seq<Answer>, i: nat, a: Answer)
    requires |answers| == |qs| && i < |qs|
    ensures CorrectCount(qs, answers[i := a]) + (if IsCorrect(qs[i], answers[i]) then 1 else 0)
         == CorrectCount(qs, answers) + (if IsCorrect(qs[i], a) then 1 else 0)
  {
    var n := |qs| - 1;
    if i < n {
      assert answers[i := a][..n] == answers[..n][i := a];
      CorrectCountUpdate(qs[..n], answers[..n], i, a);
    } else {
      assert answers[i := a][..n] == answers[..n];
    }
  }

  /** Choosing the key on a question not yet correct raises the score by one. */
  lemma SelectCorrectRaisesScore(s: Session)
    requires Valid(s) && !IsCorrect(s.questions[s.index], s.answers[s.index])
    ensures CorrectCount(s.questions, SelectAnswer(s, s.questions[s.index].answer).answers)
         == CorrectCount(s.questions, s.answers) + 1
  {
    CorrectCountUpdate(s.questions, s.answers, s.index, Some(s.questions[s.index].answer));
  }

  // ---------------------------------------------------------------------
  // Review list of the shared results
  // ---------------------------------------------------------------------

  /** Positions answered wrongly or left unanswered, in question order. */
  function NonCorrectPositions(qs: seq<Question>, answers: seq<Answer>): (r: seq<nat>)
    requires |answers| == |qs|
    ensures |r| == |qs| - CorrectCount(qs, answers)
    ensures forall k :: 0 <= k < |r| ==> r[k] < |qs| && !IsCorrect(qs[r[k]], answers[r[k]])
    ensures forall i :: 0 <= i < |qs| && !IsCorrect(qs[i], answers[i]) ==> i in r
    ensures forall k, l :: 0 <= k < l < |r| ==> r[k] < r[l]
  {
    if |qs| == 0 then []
    else
      var n := |qs| - 1;
      var front := NonCorrectPositions(qs[..n], answers[..n]);
      if IsCorrect(qs[n], answers[n]) then front else front + [n]
  }

  /** The part of the shared text that points at questions to revisit. */
  datatype Review = Review(positions: seq<nat>, more: Option<nat>)

  /**
   * The review part of sharing results: at most three non-correct questions,
   * in order, and an "and N more" note when more than three questions were
   * not scored. Nothing is shared before the quiz is finished.
   */
  function ShareReview(s: Session): (r: Option<Review>)
    requires Valid(s)
    ensures r.Some? <==> s.result.Some?
    ensures r.Some? ==>
      var all := NonCorrectPositions(s.questions, s.answers);
      && |r.value.positions| == JsMath.Min(3, |all|)
      && r.value.positions == all[..|r.value.positions|]
      && (r.value.more.Some? <==> |r.value.positions| > 0 && |s.questions| - s.result.value.score > 3)
      && (r.value.more.Some? ==> r.value.more.value == |s.questions| - s.result.value.score - 3)
  {
    if s.result.None? then None
    else
      var all := NonCorrectPositions(s.questions, s.answers);
      var shown := all[..JsMath.Min(3, |all|)];
      var missed := |s.questions| - s.result.value.score;
      Some(Review(shown, if |shown| > 0 && missed > 3 then Some(missed - 3) else None))
  }

  /**
   * For a finished quiz the review lists min(3, total - score) questions and
   * the note counts exactly those left out.
   */
  lemma ReviewOfFinished(s: Session)
    requires Valid(s)
    ensures var f := Finish(s);
      var missed := |s.questions| - f.result.value.score;
      && |ShareReview(f).value.positions| == JsMath.Min(3, missed)
      && (ShareReview(f).value.more.Some? <==> missed > 3)
      && (missed > 3 ==> ShareReview(f).value.more.value == missed - 3)
  {
  }

  // ---------------------------------------------------------------------
  // The screen as a whole
  // ---------------------------------------------------------------------

  /** The generator screen: either waiting for input or running a session. */
  datatype Screen = Input | Running(session: Session)

  /** Finishing does nothing when no quiz is loaded. */
  function FinishScreen(sc: Screen): (r: Screen)
    requires sc.Running? ==> Valid(sc.session)
    ensures sc.Input? ==> r == sc
    ensures sc.Running? ==> r.Running? && r.session.result.Some?
  {
    match sc
    case Input => Input
    case Running(s) => Running(Finish(s))
  }

  /** Resetting discards the session whatever the state. */
  function ResetQuiz(sc: Screen): (r: Screen)
    ensures r.Input?
    ensures FinishScreen(r) == r
  {
    Input
  }
}
