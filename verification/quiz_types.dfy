/**
 * The records of a question bank and of a scored quiz, and the one notion
 * of "answered correctly" that scoring, statistics and review share.
 */
module QuizTypes {
  import opened Options

  /** One entry of a question bank; `answer` indexes `choices`. */
  datatype Question = Question(
    text: string,
    choices: seq<string>,
    answer: int,
    explanation: Option<string>)

  /** A slot of the answer sheet: `None` is JavaScript's `null` (unanswered). */
  type Answer = Option<int>

  /** The outcome of a finished quiz. */
  datatype QuizResult = QuizResult(
    score: int,
    total: int,
    percentage: int,
    answers: seq<Answer>)

  /** A true/false question offers two choices. */
  predicate IsTrueFalse(q: Question) { |q.choices| == 2 }

  /** A multiple-choice question offers four choices. */
  predicate IsMultipleChoice(q: Question) { |q.choices| == 4 }

  /**
   * The per-question acceptance rule of bank validation: a non-empty
   * prompt, two or four choices, and an answer index inside the choices.
   */
  predicate WellFormed(q: Question) {
    && q.text != ""
    && (IsTrueFalse(q) || IsMultipleChoice(q))
    && 0 <= q.answer <= |q.choices| - 1
  }

  /** An answer counts as correct when it is present and equals the key. */
  predicate IsCorrect(q: Question, a: Answer) {
    a.Some? && a.value == q.answer
  }

  /** The number of positions answered correctly, over aligned sequences. */
  function CorrectCount(qs: seq<Question>, answers: seq<Answer>): (n: nat)
    requires |answers| == |qs|
    ensures n <= |qs|
  {
    if |qs| == 0 then 0
    else CorrectCount(qs[..|qs| - 1], answers[..|qs| - 1])
         + (if IsCorrect(qs[|qs| - 1], answers[|qs| - 1]) then 1 else 0)
  }
}
