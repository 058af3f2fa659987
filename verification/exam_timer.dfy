/**
 * The exam countdown: one tick per second while not paused, a time-up
 * notification guarded so that it fires once, a one-shot warning when five
 * minutes remain, and the display class chosen from the remaining time.
 */
module ExamTimer {

  /** Seconds left at which the one-shot warning is given. */
  const WarningAt: int := 300

  /** At or below this many seconds the display is in the warning style. */
  const LowTime: int := 300

  /** At or below this many seconds the display is in the critical style. */
  const CriticalTime: int := 60

  /**
   * The timer's state: the remaining seconds, whether the time-up callback
   * has already been invoked, and whether the warning has been given.
   */
  datatype Timer = Timer(secondsLeft: int, calledTimeUp: bool, warned: bool)

  /** What one transition made observable. */
  datatype Step = Step(timer: Timer, timeUp: bool, warning: bool)

  /** The warning effect that follows every change of the remaining time. */
  function WarnCheck(t: Timer): (s: Step)
    ensures !s.timeUp
    ensures s.warning <==> t.secondsLeft == WarningAt && !t.warned
    ensures s.timer.secondsLeft == t.secondsLeft && s.timer.calledTimeUp == t.calledTimeUp
    ensures s.timer.warned == (t.warned || s.warning)
  {
    if t.secondsLeft == WarningAt && !t.warned then Step(t.(warned := true), false, true)
    else Step(t, false, false)
  }

  /** Mounting the timer: the full time is left, and the warning effect runs once. */
  function Start(totalSeconds: int): (s: Step)
    ensures s.timer.secondsLeft == totalSeconds && !s.timer.calledTimeUp
    ensures s.warning <==> totalSeconds == WarningAt
  {
    WarnCheck(Timer(totalSeconds, false, false))
  }

  /**
   * One interval tick: at one second or less the time is up, the count
   * becomes zero, and the callback is invoked unless it already was;
   * otherwise one second is taken off. The warning effect follows.
   */
  function Tick(t: Timer): (s: Step)
    ensures s.timer.secondsLeft == (if t.secondsLeft <= 1 then 0 else t.secondsLeft - 1)
    ensures s.timeUp <==> t.secondsLeft <= 1 && !t.calledTimeUp
    ensures s.timer.calledTimeUp <==> t.calledTimeUp || t.secondsLeft <= 1
    ensures s.warning <==> s.timer.secondsLeft == WarningAt && !t.warned
    ensures s.timer.warned == (t.warned || s.warning)
  {
    if t.secondsLeft <= 1 then
      var fire := !t.calledTimeUp;
      var w := WarnCheck(t.(secondsLeft := 0, calledTimeUp := true));
      Step(w.timer, fire, w.warning)
    else
      WarnCheck(t.(secondsLeft := t.secondsLeft - 1))
  }

  /** A tick never raises the count and never leaves it negative. */
  lemma TickCountsDown(t: Timer)
    ensures 0 <= Tick(t).timer.secondsLeft
    ensures t.secondsLeft >= 0 ==> Tick(t).timer.secondsLeft <= t.secondsLeft
    ensures t.secondsLeft > 0 ==> Tick(t).timer.secondsLeft == t.secondsLeft - 1
  {
  }

  // ---------------------------------------------------------------------
  // Runs
  // ---------------------------------------------------------------------

  /** One second of wall-clock time, with the pause flag in force during it. */
  datatype Second = Second(paused: bool)

  /** The outcome of a run: the final state and how often each signal fired. */
  datatype Run = Run(timer: Timer, timeUps: nat, warnings: nat)

  /** A paused second clears the interval: nothing ticks and nothing changes. */
  function Elapse(t: Timer, sec: Second): (s: Step)
    ensures sec.paused ==> s == Step(t, false, false)
    ensures !sec.paused ==> s == Tick(t)
  {
    if sec.paused then Step(t, false, false) else Tick(t)
  }

  function RunFrom(t: Timer, secs: seq<Second>): Run
    decreases |secs|
  {
    if |secs| == 0 then Run(t, 0, 0)
    else
      var s := Elapse(t, secs[0]);
      var rest := RunFrom(s.timer, secs[1..]);
      Run(rest.timer, rest.timeUps + (if s.timeUp then 1 else 0),
          rest.warnings + (if s.warning then 1 else 0))
  }

  /**
   * Over any run, the time-up callback fires at most once in total, and
   * not at all once it has been called; the warning likewise.
   */
  lemma {:induction false} FireOnce(t: Timer, secs: seq<Second>)
    ensures RunFrom(t, secs).timeUps <= (if t.calledTimeUp then 0 else 1)
    ensures RunFrom(t, secs).warnings <= (if t.warned then 0 else 1)
    ensures RunFrom(t, secs).timer.calledTimeUp <==> t.calledTimeUp || RunFrom(t, secs).timeUps == 1
    ensures RunFrom(t, secs).timer.warned <==> t.warned || RunFrom(t, secs).warnings == 1
    decreases |secs|
  {
    if |secs| > 0 {
      FireOnce(Elapse(t, secs[0]).timer, secs[1..]);
    }
  }

  /** A timer mounted with any duration notifies time-up and warns at most once each. */
  lemma MountedFiresOnce(totalSeconds: int, secs: seq<Second>)
    ensures var s := Start(totalSeconds);
      && RunFrom(s.timer, secs).timeUps <= 1
      && RunFrom(s.timer, secs).warnings + (if s.warning then 1 else 0) <= 1
  {
    FireOnce(Start(totalSeconds).timer, secs);
  }

  /** A fully paused run changes nothing. */
  lemma {:induction false} PausedRunFreezes(t: Timer, secs: seq<Second>)
    requires forall i :: 0 <= i < |secs| ==> secs[i].paused
    ensures RunFrom(t, secs) == Run(t, 0, 0)
    decreases |secs|
  {
    if |secs| > 0 {
      PausedRunFreezes(t, secs[1..]);
    }
  }

  /** `k` consecutive unpaused ticks. */
  function Ticks(t: Timer, k: nat): (r: Timer)
    decreases k
  {
    if k == 0 then t else Ticks(Tick(t).timer, k - 1)
  }

  /** Before the count reaches zero, each tick takes exactly one second off. */
  lemma {:induction false} TicksBeforeZero(t: Timer, k: nat)
    requires k < t.secondsLeft && !t.calledTimeUp
    ensures Ticks(t, k).secondsLeft == t.secondsLeft - k
    ensures !Ticks(t, k).calledTimeUp
    decreases k
  {
    if k > 0 {
      TicksBeforeZero(Tick(t).timer, k - 1);
    }
  }

  /** Once called, the guard stays set. */
  lemma {:induction false} GuardStaysSet(t: Timer, k: nat)
    requires t.calledTimeUp
    ensures Ticks(t, k).calledTimeUp
    decreases k
  {
    if k > 0 {
      GuardStaysSet(Tick(t).timer, k - 1);
    }
  }

  /**
   * Started from `total >= 1` seconds, the time-up callback fires on the
   * `total`-th tick and on no other.
   */
  lemma TimeUpOnLastTick(total: int, k: nat)
    requires total >= 1 && k >= 1
    ensures Tick(Ticks(Start(total).timer, k - 1)).timeUp <==> k == total
  {
    var t0 := Start(total).timer;
    if k - 1 < total {
      TicksBeforeZero(t0, k - 1);
    } else {
      TicksBeforeZero(t0, total - 1);
      var before := Ticks(t0, total - 1);
      assert Ticks(t0, total) == Ticks(before, 1) by { TicksSplit(t0, total - 1, 1); }
      GuardStaysSet(Ticks(t0, total), k - 1 - total);
      TicksSplit(t0, total, k - 1 - total);
    }
  }

  lemma {:induction false} TicksSplit(t: Timer, a: nat, b: nat)
    ensures Ticks(t, a + b) == Ticks(Ticks(t, a), b)
    decreases a
  {
    if a > 0 {
      TicksSplit(Tick(t).timer, a - 1, b);
    }
  }

  // ---------------------------------------------------------------------
  // Display class
  // ---------------------------------------------------------------------

  datatype TimerClass = Critical | Warning | Normal

  /** The display style of the remaining time. */
  function ClassOf(secondsLeft: int): (c: TimerClass)
    ensures c == Critical <==> secondsLeft <= CriticalTime
    ensures c == Warning <==> CriticalTime < secondsLeft <= LowTime
    ensures c == Normal <==> secondsLeft > LowTime
  {
    if secondsLeft <= CriticalTime then Critical
    else if secondsLeft <= LowTime then Warning
    else Normal
  }

  function Severity(c: TimerClass): nat {
    match c
    case Normal => 0
    case Warning => 1
    case Critical => 2
  }

  /** The display never becomes less urgent as the clock runs. */
  lemma {:induction false} SeverityNeverDrops(t: Timer, k: nat)
    ensures Severity(ClassOf(Ticks(t, k).secondsLeft)) >= Severity(ClassOf(t.secondsLeft))
    decreases k
  {
    if k > 0 {
      SeverityNeverDrops(Tick(t).timer, k - 1);
    }
  }
}
