/**
 * The exam-mode configuration dialog: the minutes the timer will start
 * from, chosen by preset buttons, a numeric input or the suggestion, and
 * the bounds check that decides whether the exam starts.
 */
module ExamModeConfig {
  import opened Options
  import JsMath

  /** The dialog opens with thirty minutes selected. */
  const InitialTimerMinutes: int := 30

  /** The preset buttons, in minutes. */
  const PresetTimes: seq<int> := [15, 30, 45, 60, 90]

  /** The inclusive bounds an exam duration must respect, in minutes. */
  const MinMinutes: int := 1
  const MaxMinutes: int := 180

  /**
   * The suggested duration as written: a minute and a half per question,
   * rounded up, and never less than fifteen minutes.
   */
  function SuggestedTime(questionCount: nat): (t: int)
    ensures t >= 15
    ensures 2 * t >= 3 * questionCount
    ensures t > 15 ==> 2 * t < 3 * questionCount + 2
  {
    JsMath.Max(15, JsMath.CeilThreeHalves(questionCount))
  }

  /** More questions never shorten the suggestion. */
  lemma SuggestedTimeMonotone(a: nat, b: nat)
    requires a <= b
    ensures SuggestedTime(a) <= SuggestedTime(b)
  {
  }

  /**
   * `handleStart`: the exam starts with the chosen minutes, unchanged,
   * exactly when they lie within the bounds; otherwise an alert is shown
   * and nothing starts (`None`).
   */
  function HandleStart(timerMinutes: int): (r: Option<int>)
    ensures r.Some? <==> MinMinutes <= timerMinutes <= MaxMinutes
    ensures r.Some? ==> r.value == timerMinutes
  {
    if timerMinutes < MinMinutes || timerMinutes > MaxMinutes then None
    else Some(timerMinutes)
  }

  /**
   * The numeric input: `parseInt` of the field, where `None` is `NaN`;
   * `NaN` and zero fall back to thirty minutes, any other number is kept
   * (the bounds are enforced only at start).
   */
  function TimerInput(parsed: Option<int>): (m: int)
    ensures m != 0
    ensures parsed.Some? && parsed.value != 0 ==> m == parsed.value
    ensures parsed.None? || parsed.value == 0 ==> m == InitialTimerMinutes
  {
    match parsed
    case None => InitialTimerMinutes
    case Some(v) => if v == 0 then InitialTimerMinutes else v
  }

  /** Every preset, and the initial value, passes the start check. */
  lemma PresetsStart()
    ensures forall i :: 0 <= i < |PresetTimes| ==> HandleStart(PresetTimes[i]) == Some(PresetTimes[i])
    ensures HandleStart(InitialTimerMinutes) == Some(InitialTimerMinutes)
  {
  }

  /**
   * As written, a bank of 121 or more questions gets a suggestion above
   * the upper bound, so adopting it and starting is refused.
   */
  lemma SuggestedTimeRefusedAsWritten(questionCount: nat)
    requires questionCount >= 121
    ensures SuggestedTime(questionCount) > MaxMinutes
    ensures HandleStart(SuggestedTime(questionCount)).None?
  {
  }

  /** The boundary: 120 questions still start, 121 do not. */
  lemma SuggestedTimeBoundary()
    ensures SuggestedTime(120) == 180 && HandleStart(180) == Some(180)
    ensures SuggestedTime(121) == 182 && HandleStart(182).None?
  {
  }

  /** The suggestion clamped to the upper bound, as the dialog evidently intends. */
  function SuggestedTimeCapped(questionCount: nat): (t: int)
    ensures 15 <= t <= MaxMinutes
    ensures t == JsMath.Min(MaxMinutes, SuggestedTime(questionCount))
    ensures HandleStart(t) == Some(t)
  {
    if SuggestedTime(questionCount) > MaxMinutes then MaxMinutes else SuggestedTime(questionCount)
  }

  /** Clamping changes nothing for the banks the written formula already served. */
  lemma CappedAgreesBelowBound(questionCount: nat)
    requires questionCount <= 120
    ensures SuggestedTimeCapped(questionCount) == SuggestedTime(questionCount)
  {
  }

  // ---------------------------------------------------------------------
  // The dialog as a state machine over the selected minutes
  // ---------------------------------------------------------------------

  /** What the user does in the dialog before pressing start. */
  datatype Action = ChoosePreset(index: nat) | Type(parsed: Option<int>) | UseSuggested

  /**
   * Which value the "use suggested" button adopts: the formula as written,
   * or the suggestion clamped to the upper bound.
   */
  datatype Variant = AsWritten | Capped

  function Suggestion(v: Variant, questionCount: nat): int {
    match v
    case AsWritten => SuggestedTime(questionCount)
    case Capped => SuggestedTimeCapped(questionCount)
  }

  /**
   * The selected minutes after one action: a preset button sets its
   * minutes (an unknown preset changes nothing), the input sets what it
   * reads, and the suggestion button sets the suggestion, uncapped as
   * written.
   */
  function Act(v: Variant, minutes: int, questionCount: nat, a: Action): (m: int)
    ensures a.ChoosePreset? && a.index < |PresetTimes| ==> m == PresetTimes[a.index]
    ensures a.ChoosePreset? && a.index >= |PresetTimes| ==> m == minutes
    ensures a.Type? ==> m == TimerInput(a.parsed)
    ensures a.UseSuggested? && v.AsWritten? ==> m == SuggestedTime(questionCount)
    ensures a.UseSuggested? && v.Capped? ==> m == SuggestedTimeCapped(questionCount)
    ensures v.Capped? && !a.Type? && HandleStart(minutes).Some? ==> HandleStart(m).Some?
  {
    match a
    case ChoosePreset(i) => if i < |PresetTimes| then PresetTimes[i] else minutes
    case Type(p) => TimerInput(p)
    case UseSuggested => Suggestion(v, questionCount)
  }

  /** True when the action leaves the selection as it was. */
  predicate Inert(a: Action) {
    a.ChoosePreset? && a.index >= |PresetTimes|
  }

  /**
   * The selected minutes after a sequence of actions. Each action replaces
   * the selection, so the last one that is not inert decides it, and a
   * sequence of inert actions keeps the starting value.
   */
  function ActAll(v: Variant, minutes: int, questionCount: nat, actions: seq<Action>): (m: int)
    ensures (forall i :: 0 <= i < |actions| ==> Inert(actions[i])) ==> m == minutes
    ensures |actions| > 0 && !Inert(actions[|actions| - 1])
            ==> m == Act(v, minutes, questionCount, actions[|actions| - 1])
    decreases |actions|
  {
    if |actions| == 0 then minutes
    else ActAll(v, Act(v, minutes, questionCount, actions[0]), questionCount, actions[1..])
  }

  predicate Untyped(actions: seq<Action>) {
    forall i :: 0 <= i < |actions| ==> !actions[i].Type?
  }

  /**
   * Without typing a custom value, whatever buttons are pressed the exam
   * starts: the initial value and the presets lie within the bounds, and
   * so does the suggestion, as written up to 120 questions and clamped for
   * any bank.
   */
  lemma {:induction false} ButtonsAlwaysStart(v: Variant, minutes: int, questionCount: nat, actions: seq<Action>)
    requires v.Capped? || questionCount <= 120
    requires HandleStart(minutes).Some?
    requires Untyped(actions)
    ensures HandleStart(ActAll(v, minutes, questionCount, actions)).Some?
    decreases |actions|
  {
    if |actions| > 0 {
      PresetsStart();
      ButtonsAlwaysStart(v, Act(v, minutes, questionCount, actions[0]), questionCount, actions[1..]);
    }
  }

  /** The dialog itself, from its initial value. */
  lemma DialogButtonsStart(v: Variant, questionCount: nat, actions: seq<Action>)
    requires v.Capped? || questionCount <= 120
    requires Untyped(actions)
    ensures HandleStart(ActAll(v, InitialTimerMinutes, questionCount, actions)).Some?
  {
    PresetsStart();
    ButtonsAlwaysStart(v, InitialTimerMinutes, questionCount, actions);
  }

  /**
   * As written, from 121 questions on, opening the dialog and pressing
   * "use suggested" selects a duration the start check refuses; the
   * clamped button selects the upper bound, which starts.
   */
  lemma DialogRefusesSuggestionAsWritten(questionCount: nat)
    requires questionCount >= 121
    ensures HandleStart(ActAll(AsWritten, InitialTimerMinutes, questionCount, [UseSuggested])).None?
    ensures HandleStart(ActAll(Capped, InitialTimerMinutes, questionCount, [UseSuggested])) == Some(MaxMinutes)
  {
    SuggestedTimeRefusedAsWritten(questionCount);
  }

  /** Up to 120 questions the two dialogs behave identically. */
  lemma {:induction false} VariantsAgreeBelowBound(minutes: int, questionCount: nat, actions: seq<Action>)
    requires questionCount <= 120
    ensures ActAll(AsWritten, minutes, questionCount, actions) == ActAll(Capped, minutes, questionCount, actions)
    decreases |actions|
  {
    if |actions| > 0 {
      CappedAgreesBelowBound(questionCount);
      VariantsAgreeBelowBound(Act(AsWritten, minutes, questionCount, actions[0]), questionCount, actions[1..]);
    }
  }
}
