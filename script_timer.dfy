/**
 * The plain-script Pomodoro timer (app.js): six module-level variables updated
 * by the mode buttons, the start/pause button, the reset button and a
 * one-second interval calling `tick`.
 *
 * The interval handle `timerId` is reduced to the ghost flag `armed`: true
 * while an interval is scheduled. Ticks are explicit calls. The pure functions
 * `After...` on a `State` value specify each operation; the `Timer` class
 * holds the variables and its methods change them step by step as the script
 * does, each proved to produce the state its specification function gives.
 */
module PomodoroScript {
  import Clock

  datatype Mode = Focus | Short | Long

  /** The fixed `DURATIONS` table, in seconds. */
  function Duration(m: Mode): (d: nat)
    ensures 0 < d < 6000 && d % 60 == 0
    ensures d == match m case Focus => 1500 case Short => 300 case Long => 900
  {
    match m
    case Focus => 25 * 60
    case Short => 5 * 60
    case Long => 15 * 60
  }

  /** A value snapshot of the six variables; `armed` stands for "timerId holds a live interval". */
  datatype State = State(mode: Mode, seconds: nat, running: bool, armed: bool, completedFocus: nat, cycles: nat)

  /** The variables as the script initialises them. */
  const Initial: State := State(Focus, Duration(Focus), false, false, 0, 0)

  /**
   * What every operation keeps: the countdown within the mode's duration,
   * both counters equal, and an interval scheduled exactly while running.
   */
  predicate Inv(s: State) {
    s.seconds <= Duration(s.mode) && s.completedFocus == s.cycles && (s.running <==> s.armed)
  }

  /** `stopTimer`: clear the interval if there is one, and stop; nothing else changes. */
  function AfterStop(s: State): (r: State)
    ensures !r.running && !r.armed
    ensures r.mode == s.mode && r.seconds == s.seconds
    ensures r.completedFocus == s.completedFocus && r.cycles == s.cycles
    ensures Inv(s) ==> Inv(r)
  {
    s.(armed := false, running := false)
  }

  /** `switchMode`: new mode, its full duration, stopped; the counters are kept. */
  function AfterSwitch(s: State, next: Mode): (r: State)
    ensures r.mode == next && r.seconds == Duration(next) && !r.running && !r.armed
    ensures r.completedFocus == s.completedFocus && r.cycles == s.cycles
    ensures Inv(s) ==> Inv(r)
  {
    AfterStop(s.(mode := next, seconds := Duration(next)))
  }

  /**
   * `advanceModeAfterCompletion`: the timer stops at a full session; focus adds
   * one to both counters and leads to the long break exactly when the new
   * count is a multiple of 4; a break leads back to focus and counts nothing.
   */
  function AfterCompletion(s: State): (r: State)
    ensures !r.running && !r.armed && r.seconds == Duration(r.mode)
    ensures s.mode == Focus ==>
      r.completedFocus == s.completedFocus + 1 && r.cycles == s.cycles + 1 &&
      (r.mode == Long <==> (s.cycles + 1) % 4 == 0) &&
      (r.mode == Short <==> (s.cycles + 1) % 4 != 0)
    ensures s.mode != Focus ==>
      r.mode == Focus && r.completedFocus == s.completedFocus && r.cycles == s.cycles
    ensures Inv(s) ==> Inv(r)
  {
    if s.mode == Focus then
      var counted := s.(completedFocus := s.completedFocus + 1, cycles := s.cycles + 1);
      AfterSwitch(counted, if counted.cycles % 4 == 0 then Long else Short)
    else
      AfterSwitch(s, Focus)
  }

  /** `tick`: above zero, one second less and nothing else; at zero, the session completes. */
  function AfterTick(s: State): (r: State)
    ensures s.seconds > 0 ==>
      r.seconds + 1 == s.seconds && r.mode == s.mode && r.running == s.running && r.armed == s.armed &&
      r.completedFocus == s.completedFocus && r.cycles == s.cycles
    ensures s.seconds == 0 ==> r == AfterCompletion(s) && !r.running
    ensures Inv(s) ==> Inv(r)
  {
    if s.seconds > 0 then s.(seconds := s.seconds - 1) else AfterCompletion(s)
  }

  /**
   * The start/pause button: pause when running, otherwise start and arm an
   * interval. From a valid state it arms an interval only when none is armed,
   * so at most one interval is ever live.
   */
  function AfterStartPause(s: State): (r: State)
    ensures r.running == !s.running && r.armed == r.running
    ensures r.mode == s.mode && r.seconds == s.seconds
    ensures r.completedFocus == s.completedFocus && r.cycles == s.cycles
    ensures Inv(s) ==> Inv(r) && (r.armed ==> !s.armed)
  {
    if s.running then AfterStop(s) else s.(running := true, armed := true)
  }

  /** The reset button: full duration of the current mode, stopped; mode and counters are kept. */
  function AfterReset(s: State): (r: State)
    ensures r.mode == s.mode && r.seconds == Duration(s.mode) && !r.running && !r.armed
    ensures r.completedFocus == s.completedFocus && r.cycles == s.cycles
    ensures Inv(s) ==> Inv(r)
  {
    AfterStop(s.(seconds := Duration(s.mode)))
  }

  /**
   * What can happen to the timer: a mode button, the two control buttons, or
   * the interval firing. The interval fires only while one is armed; once it
   * is cleared, a `Tick` event changes nothing.
   */
  datatype Event = Select(m: Mode) | StartPause | Reset | Tick

  /** One event; every event keeps the invariant. */
  function Step(s: State, e: Event): (r: State)
    ensures Inv(s) ==> Inv(r)
    ensures e.Tick? && !s.armed ==> r == s
  {
    match e
    case Select(m) => AfterSwitch(s, m)
    case StartPause => AfterStartPause(s)
    case Reset => AfterReset(s)
    case Tick => if s.armed then AfterTick(s) else s
  }

  function Run(s: State, events: seq<Event>): State
    decreases |events|
  {
    if events == [] then s else Run(Step(s, events[0]), events[1..])
  }

  /** `n` consecutive firings of the interval. */
  function Ticks(s: State, n: nat): State
    decreases n
  {
    if n == 0 then s else Ticks(Step(s, Tick), n - 1)
  }

  /** Time already spent in the current session, the integer numerator of the progress ring. */
  function Elapsed(s: State): (e: nat)
    requires Inv(s)
    ensures e <= Duration(s.mode)
    ensures e == 0 <==> s.seconds == Duration(s.mode)
    ensures e == Duration(s.mode) <==> s.seconds == 0
  {
    Duration(s.mode) - s.seconds
  }

  /** The countdown text `render` writes: always `MM:SS`, and it reads back as the remaining seconds. */
  function Display(s: State): (r: string)
    requires Inv(s)
    ensures |r| == 5 && r[2] == ':'
    ensures Clock.ParseClock(r) == Clock.Some(s.seconds)
  {
    Clock.FormatShape(s.seconds);
    Clock.FormatRoundTrip(s.seconds);
    Clock.Format(s.seconds)
  }

  // ---------------------------------------------------------------------------
  // Properties of the specification

  /** Every state reachable from the initial one by any sequence of events satisfies the invariant. */
  lemma {:induction false} RunKeepsInv(s: State, events: seq<Event>)
    requires Inv(s)
    ensures Inv(Run(s, events))
    decreases |events|
  {
    if events != [] {
      RunKeepsInv(Step(s, events[0]), events[1..]);
    }
  }

  lemma {:induction false} TicksSplit(s: State, a: nat, b: nat)
    ensures Ticks(s, a + b) == Ticks(Ticks(s, a), b)
    decreases a
  {
    if a > 0 {
      TicksSplit(Step(s, Tick), a - 1, b);
    }
  }

  /** While armed, the first `k` ticks, up to the remaining seconds, only count down: no completion, nothing else changes. */
  lemma {:induction false} CountdownTicks(s: State, k: nat)
    requires s.armed && k <= s.seconds
    ensures Ticks(s, k) == s.(seconds := s.seconds - k)
    decreases k
  {
    if k > 0 {
      CountdownTicks(s.(seconds := s.seconds - 1), k - 1);
    }
  }

  /**
   * While armed, the session completes on the tick after the countdown reaches
   * zero, that is on tick `seconds + 1`.
   */
  lemma CompletesAfterZero(s: State)
    requires s.armed
    ensures Ticks(s, s.seconds) == s.(seconds := 0)
    ensures Ticks(s, s.seconds + 1) == AfterCompletion(s.(seconds := 0))
  {
    CountdownTicks(s, s.seconds);
    TicksSplit(s, s.seconds, 1);
  }

  /** Once the interval is cleared, however many ticks pass, the state stays put. */
  lemma {:induction false} DisarmedTicks(s: State, n: nat)
    requires !s.armed
    ensures Ticks(s, n) == s
    decreases n
  {
    if n > 0 {
      DisarmedTicks(s, n - 1);
    }
  }

  /** A mode button or reset clears the interval: no later tick changes the state they leave. */
  lemma {:induction false} ControlsClearInterval(s: State, m: Mode, n: nat)
    ensures Ticks(Step(s, Select(m)), n) == Step(s, Select(m))
    ensures Ticks(Step(s, Reset), n) == Step(s, Reset)
  {
    DisarmedTicks(Step(s, Select(m)), n);
    DisarmedTicks(Step(s, Reset), n);
  }

  /** Exactly one completion happens: the completion clears the interval, so no later tick counts again. */
  lemma OneCompletion(s: State, n: nat)
    requires s.armed
    ensures Ticks(s, s.seconds + 1 + n) == AfterCompletion(s.(seconds := 0))
  {
    CompletesAfterZero(s);
    TicksSplit(s, s.seconds + 1, n);
    DisarmedTicks(AfterCompletion(s.(seconds := 0)), n);
  }

  /**
   * A fresh focus session, once started, still shows 00:00 and runs after
   * 1500 ticks; tick 1501 completes it into a stopped short break with both
   * counters at one.
   */
  lemma FreshFocusSession()
    ensures var started := AfterStartPause(Initial);
      Ticks(started, 1500) == State(Focus, 0, true, true, 0, 0) &&
      Ticks(started, 1501) == State(Short, 300, false, false, 1, 1)
  {
    CompletesAfterZero(AfterStartPause(Initial));
  }

  /** `n` full rounds: a focus completion followed by a break completion. */
  function Rounds(s: State, n: nat): State
    decreases n
  {
    if n == 0 then s else Rounds(AfterCompletion(AfterCompletion(s)), n - 1)
  }

  /** The stopped, full focus session with `c` sessions behind it. */
  function Rested(c: nat): State {
    Initial.(completedFocus := c, cycles := c)
  }

  lemma {:induction false} RoundsCount(c: nat, n: nat)
    ensures Rounds(Rested(c), n) == Rested(c + n)
    decreases n
  {
    if n > 0 {
      var rested := Rested(c);
      assert rested.mode == Focus && rested.completedFocus == c && rested.cycles == c;
      var onBreak := AfterCompletion(rested);
      assert onBreak.mode != Focus && onBreak.completedFocus == c + 1 && onBreak.cycles == c + 1;
      assert AfterCompletion(onBreak) == State(Focus, Duration(Focus), false, false, c + 1, c + 1);
      RoundsCount(c + 1, n - 1);
    }
  }

  /** The break that follows the focus session completed after `n` earlier ones. */
  function BreakAfter(n: nat): Mode {
    AfterCompletion(Rounds(Initial, n)).mode
  }

  /** Every fourth focus completion, and only those, leads to the long break. */
  lemma LongBreakEveryFourth(n: nat)
    ensures BreakAfter(n) == Long <==> (n + 1) % 4 == 0
    ensures BreakAfter(n) == Short <==> (n + 1) % 4 != 0
  {
    RoundsCount(0, n);
    assert Rounds(Initial, n) == Rested(n);
  }

  lemma FirstFourBreaks()
    ensures [BreakAfter(0), BreakAfter(1), BreakAfter(2), BreakAfter(3)] == [Short, Short, Short, Long]
  {
    assert BreakAfter(0) == Short by { LongBreakEveryFourth(0); }
    assert BreakAfter(1) == Short by { LongBreakEveryFourth(1); }
    assert BreakAfter(2) == Short by { LongBreakEveryFourth(2); }
    assert BreakAfter(3) == Long by { LongBreakEveryFourth(3); }
  }

  // ---------------------------------------------------------------------------
  // The script's variables and handlers

  class Timer {
    var mode: Mode
    var seconds: nat
    var running: bool
    ghost var armed: bool
    var completedFocus: nat
    var cycles: nat

    ghost function View(): State
      reads this
    {
      State(mode, seconds, running, armed, completedFocus, cycles)
    }

    ghost predicate Valid()
      reads this
    {
      Inv(View())
    }

    constructor ()
      ensures Valid() && View() == Initial
    {
      mode := Focus;
      seconds := Duration(Focus);
      running := false;
      armed := false;
      completedFocus := 0;
      cycles := 0;
    }

    method StopTimer()
      requires Valid()
      modifies this
      ensures Valid() && View() == AfterStop(old(View()))
      ensures !running && !armed
      ensures mode == old(mode) && seconds == old(seconds)
      ensures completedFocus == old(completedFocus) && cycles == old(cycles)
    {
      if armed {
        armed := false;
      }
      running := false;
    }

    method SwitchMode(next: Mode)
      requires Valid()
      modifies this
      ensures Valid() && View() == AfterSwitch(old(View()), next)
      ensures mode == next && seconds == Duration(next) && !running && !armed
      ensures completedFocus == old(completedFocus) && cycles == old(cycles)
    {
      mode := next;
      seconds := Duration(mode);
      StopTimer();
    }

    method AdvanceModeAfterCompletion()
      requires Valid()
      modifies this
      ensures Valid() && View() == AfterCompletion(old(View()))
      ensures !running && !armed && seconds == Duration(mode)
      ensures old(mode) == Focus ==>
        completedFocus == old(completedFocus) + 1 && cycles == old(cycles) + 1 &&
        mode == (if cycles % 4 == 0 then Long else Short)
      ensures old(mode) != Focus ==>
        mode == Focus && completedFocus == old(completedFocus) && cycles == old(cycles)
    {
      if mode == Focus {
        completedFocus := completedFocus + 1;
        cycles := cycles + 1;
        SwitchMode(if cycles % 4 == 0 then Long else Short);
        return;
      }
      SwitchMode(Focus);
    }

    method Tick()
      requires Valid()
      modifies this
      ensures Valid() && View() == AfterTick(old(View()))
      ensures old(seconds) > 0 ==> View() == old(View()).(seconds := old(seconds) - 1)
      ensures old(seconds) == 0 ==> View() == AfterCompletion(old(View()))
    {
      if seconds > 0 {
        seconds := seconds - 1;
        return;
      }
      AdvanceModeAfterCompletion();
    }

    /** The start/pause button's click handler. */
    method StartPause()
      requires Valid()
      modifies this
      ensures Valid() && View() == AfterStartPause(old(View()))
      ensures running == !old(running) && armed == running
      ensures running ==> !old(armed)
      ensures mode == old(mode) && seconds == old(seconds)
      ensures completedFocus == old(completedFocus) && cycles == old(cycles)
    {
      if running {
        StopTimer();
        return;
      }
      running := true;
      armed := true;
    }

    /** The reset button's click handler. */
    method Reset()
      requires Valid()
      modifies this
      ensures Valid() && View() == AfterReset(old(View()))
      ensures seconds == Duration(mode) && !running && !armed
      ensures mode == old(mode) && completedFocus == old(completedFocus) && cycles == old(cycles)
    {
      seconds := Duration(mode);
      StopTimer();
    }
  }
}
