/**
 * The component-based Pomodoro timer (advanced_pomodoro_web_app.jsx): four
 * pieces of component state changed by state-setter calls, modelled as pure
 * `State -> State` functions.
 *
 * It differs from the plain script in three ways: a session completes on the
 * tick that takes the countdown from 1 to 0, switching mode does not stop the
 * countdown, and the reset button is `switchMode(mode)`, which does not stop
 * it either.
 *
 * State is taken as current at every call. After a completion the countdown
 * holds the next mode's full duration, the value of the last `setSeconds`
 * that `switchMode` queues; the updater's own `0` does not survive.
 */
module PomodoroReact {
  import Clock

  datatype Mode = Pomodoro | Short | Long

  /** The fixed `MODES` table, in seconds. */
  function Modes(m: Mode): (d: nat)
    ensures 0 < d < 6000 && d % 60 == 0
    ensures d == match m case Pomodoro => 1500 case Short => 300 case Long => 900
  {
    match m
    case Pomodoro => 25 * 60
    case Short => 5 * 60
    case Long => 15 * 60
  }

  datatype State = State(mode: Mode, seconds: nat, running: bool, cycles: nat)

  /** The `useState` initial values. */
  const Initial: State := State(Pomodoro, Modes(Pomodoro), false, 0)

  /** A completion always refills the countdown, so it never rests at zero. */
  predicate Inv(s: State) {
    0 < s.seconds <= Modes(s.mode)
  }

  /** Result of the per-second `setSeconds` updater: the new count, and whether it called `handleComplete`. */
  datatype Update = Update(value: nat, completes: bool)

  /** The updater passed to `setSeconds` every second. */
  function SecondsUpdater(sec: nat): (u: Update)
    ensures u.completes <==> sec <= 1
    ensures u.completes ==> u.value == 0
    ensures !u.completes ==> u.value + 1 == sec
  {
    if sec <= 1 then Update(0, true) else Update(sec - 1, false)
  }

  /** `switchMode`: new mode and its full duration; `running` and `cycles` are not touched. */
  function SwitchMode(s: State, m: Mode): (r: State)
    ensures r.mode == m && r.seconds == Modes(m) && r.running == s.running && r.cycles == s.cycles
    ensures Inv(r)
  {
    s.(mode := m, seconds := Modes(m))
  }

  /**
   * `handleComplete`: stop at a full session; a pomodoro adds one cycle and
   * leads to the long break exactly when the new count is a multiple of 4;
   * a break leads back to a pomodoro and counts nothing.
   */
  function HandleComplete(s: State): (r: State)
    ensures !r.running && r.seconds == Modes(r.mode) && Inv(r)
    ensures s.mode == Pomodoro ==>
      r.cycles == s.cycles + 1 &&
      (r.mode == Long <==> (s.cycles + 1) % 4 == 0) &&
      (r.mode == Short <==> (s.cycles + 1) % 4 != 0)
    ensures s.mode != Pomodoro ==> r.mode == Pomodoro && r.cycles == s.cycles
  {
    var stopped := s.(running := false);
    if s.mode == Pomodoro then
      var next := if (s.cycles + 1) % 4 == 0 then Long else Short;
      SwitchMode(stopped.(cycles := s.cycles + 1), next)
    else
      SwitchMode(stopped, Pomodoro)
  }

  /**
   * One firing of the interval; the effect schedules no interval while
   * stopped. Running, it takes one second off, or completes the session on
   * the last second.
   */
  function AfterTick(s: State): (r: State)
    ensures !s.running ==> r == s
    ensures s.running && s.seconds > 1 ==>
      r.seconds + 1 == s.seconds && r.mode == s.mode && r.running && r.cycles == s.cycles
    ensures s.running && s.seconds <= 1 ==> r == HandleComplete(s) && !r.running
    ensures Inv(s) ==> Inv(r)
  {
    if !s.running then s
    else
      var u := SecondsUpdater(s.seconds);
      if u.completes then HandleComplete(s) else s.(seconds := u.value)
  }

  /** The three buttons and the interval. */
  datatype Action = Toggle | Reset | Select(m: Mode) | Tick

  /**
   * One action; every action keeps the invariant. The toggle flips `running`
   * only; reset and the mode buttons refill the countdown and keep `running`
   * and `cycles`.
   */
  function Step(s: State, a: Action): (r: State)
    ensures Inv(s) ==> Inv(r)
    ensures a.Toggle? ==>
      r.running == !s.running && r.mode == s.mode && r.seconds == s.seconds && r.cycles == s.cycles
    ensures a.Reset? ==>
      r.mode == s.mode && r.seconds == Modes(s.mode) && r.running == s.running && r.cycles == s.cycles
    ensures a.Select? ==>
      r.mode == a.m && r.seconds == Modes(a.m) && r.running == s.running && r.cycles == s.cycles
  {
    match a
    case Toggle => s.(running := !s.running)
    case Reset => SwitchMode(s, s.mode)
    case Select(m) => SwitchMode(s, m)
    case Tick => AfterTick(s)
  }

  function Run(s: State, actions: seq<Action>): State
    decreases |actions|
  {
    if actions == [] then s else Run(Step(s, actions[0]), actions[1..])
  }

  function Ticks(s: State, n: nat): State
    decreases n
  {
    if n == 0 then s else Ticks(AfterTick(s), n - 1)
  }

  /** The countdown text rendered by `format(seconds)`: `MM:SS`, reading back as the remaining seconds. */
  function Display(s: State): (r: string)
    requires Inv(s)
    ensures |r| == 5 && r[2] == ':' && r != "00:00"
    ensures Clock.ParseClock(r) == Clock.Some(s.seconds)
  {
    Clock.FormatShape(s.seconds);
    Clock.FormatRoundTrip(s.seconds);
    Clock.FormatRoundTrip(0);
    Clock.FormatExamples();
    Clock.Format(s.seconds)
  }

  // ---------------------------------------------------------------------------
  // Properties of the specification

  lemma {:induction false} RunKeepsInv(s: State, actions: seq<Action>)
    requires Inv(s)
    ensures Inv(Run(s, actions))
    decreases |actions|
  {
    if actions != [] {
      RunKeepsInv(Step(s, actions[0]), actions[1..]);
    }
  }

  lemma {:induction false} TicksSplit(s: State, a: nat, b: nat)
    ensures Ticks(s, a + b) == Ticks(Ticks(s, a), b)
    decreases a
  {
    if a > 0 {
      TicksSplit(AfterTick(s), a - 1, b);
    }
  }

  /** While running, the ticks before the last second only count down. */
  lemma {:induction false} CountdownTicks(s: State, k: nat)
    requires s.running && k < s.seconds
    ensures Ticks(s, k) == s.(seconds := s.seconds - k)
    decreases k
  {
    if k > 0 {
      CountdownTicks(s.(seconds := s.seconds - 1), k - 1);
    }
  }

  /** What a completion leads to does not depend on the count it was called at. */
  lemma CompletionIgnoresCount(s: State, k: nat)
    ensures HandleComplete(s.(seconds := k)) == HandleComplete(s)
  {
  }

  /** While running, the session completes on tick number `seconds`: the tick that would reach 0. */
  lemma CompletesOnLastSecond(s: State)
    requires s.running && 0 < s.seconds
    ensures Ticks(s, s.seconds - 1) == s.(seconds := 1)
    ensures Ticks(s, s.seconds) == HandleComplete(s)
  {
    var last := s.(seconds := 1);
    CountdownTicks(s, s.seconds - 1);
    TicksSplit(s, s.seconds - 1, 1);
    assert Ticks(last, 1) == HandleComplete(last);
    CompletionIgnoresCount(s, 1);
  }

  /** A stopped timer does not count down, however many ticks pass. */
  lemma {:induction false} StoppedTicks(s: State, n: nat)
    requires !s.running
    ensures Ticks(s, n) == s
    decreases n
  {
    if n > 0 {
      StoppedTicks(s, n - 1);
    }
  }

  /** A fresh pomodoro, once started, shows one second left after 1499 ticks and completes on tick 1500. */
  lemma FreshPomodoro()
    ensures var started := Step(Initial, Toggle);
      Ticks(started, 1499) == State(Pomodoro, 1, true, 0) &&
      Ticks(started, 1500) == State(Short, 300, false, 1)
  {
    CompletesOnLastSecond(Step(Initial, Toggle));
  }

  function Rounds(s: State, n: nat): State
    decreases n
  {
    if n == 0 then s else Rounds(HandleComplete(HandleComplete(s)), n - 1)
  }

  lemma {:induction false} RoundsCount(c: nat, n: nat)
    ensures Rounds(Initial.(cycles := c), n) == Initial.(cycles := c + n)
    decreases n
  {
    if n > 0 {
      var onBreak := HandleComplete(Initial.(cycles := c));
      assert onBreak.mode != Pomodoro && onBreak.cycles == c + 1;
      assert HandleComplete(onBreak) == Initial.(cycles := c + 1);
      RoundsCount(c + 1, n - 1);
    }
  }

  /** The break that follows the pomodoro completed after `n` earlier ones. */
  function BreakAfter(n: nat): Mode {
    HandleComplete(Rounds(Initial, n)).mode
  }

  lemma LongBreakEveryFourth(n: nat)
    ensures BreakAfter(n) == Long <==> (n + 1) % 4 == 0
    ensures BreakAfter(n) == Short <==> (n + 1) % 4 != 0
  {
    RoundsCount(0, n);
    assert Rounds(Initial, n) == Initial.(cycles := n);
  }

  lemma FirstFourBreaks()
    ensures [BreakAfter(0), BreakAfter(1), BreakAfter(2), BreakAfter(3)] == [Short, Short, Short, Long]
  {
    assert BreakAfter(0) == Short by { LongBreakEveryFourth(0); }
    assert BreakAfter(1) == Short by { LongBreakEveryFourth(1); }
    assert BreakAfter(2) == Short by { LongBreakEveryFourth(2); }
    assert BreakAfter(3) == Long by { LongBreakEveryFourth(3); }
  }
}
