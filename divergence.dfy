/**
 * How the two variants of the timer relate. Started from matching states,
 * they complete a session one tick apart and then agree again; their mode
 * buttons and reset buttons differ in whether the countdown keeps running.
 */
module Divergence {
  import S = PomodoroScript
  import R = PomodoroReact

  function ScriptMode(m: R.Mode): (n: S.Mode)
    ensures S.Duration(n) == R.Modes(m)
  {
    match m
    case Pomodoro => S.Focus
    case Short => S.Short
    case Long => S.Long
  }

  /** Same mode, countdown, running flag and cycle count. */
  predicate Agree(a: S.State, b: R.State) {
    a.mode == ScriptMode(b.mode) && a.seconds == b.seconds && a.running == b.running && a.cycles == b.cycles
  }

  /**
   * From matching running states, with the script's interval armed, the
   * component completes on tick `seconds` while the script still runs at
   * zero; the script completes on the next tick, and both then show the same
   * stopped break or focus session.
   */
  lemma OneTickApart(a: S.State, b: R.State)
    requires Agree(a, b) && a.running && a.armed && 0 < b.seconds
    ensures S.Ticks(a, a.seconds) == a.(seconds := 0) && S.Ticks(a, a.seconds).running
    ensures !R.Ticks(b, b.seconds).running
    ensures Agree(S.Ticks(a, a.seconds + 1), R.Ticks(b, b.seconds))
  {
    S.CompletesAfterZero(a);
    R.CompletesOnLastSecond(b);
  }

  /** Mode buttons and reset stop the script but leave the component running. */
  lemma ControlsDiverge(a: S.State, b: R.State, m: R.Mode)
    requires Agree(a, b) && a.running
    ensures !S.Step(a, S.Select(ScriptMode(m))).running && R.Step(b, R.Select(m)).running
    ensures !S.Step(a, S.Reset).running && R.Step(b, R.Reset).running
    ensures Agree(S.Step(a, S.Select(ScriptMode(m))).(running := true), R.Step(b, R.Select(m)))
    ensures Agree(S.Step(a, S.Reset).(running := true), R.Step(b, R.Reset))
  {
  }
}
