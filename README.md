# Pomodoro countdown timer, modelled in Dafny

The repository holds two versions of one Pomodoro widget. Each counts down a focus
session (25 minutes), a short break (5 minutes) or a long break (15 minutes), and every
fourth completed focus session leads to the long break.

- `app.js` keeps six module-level variables: `mode`, `seconds`, `timerId`, `running`,
  `completedFocus` and `cycles`. Button handlers and a one-second interval calling
  `tick` update them.
- `advanced_pomodoro_web_app.jsx` is a React component with four pieces of state:
  `mode`, `seconds`, `running` and `cycles`.

This project models the state machine behind both versions. The DOM, React, audio and
notifications are stripped away. It proves what each version does to its state.

- `clock.dfy`, module `Clock`: the `MM:SS` text both versions render.
  - `Format` is the shared expression: whole minutes and remaining seconds,
    `toString()` on each, then `padStart(2, "0")`.
  - `Decimal` models `toString()` on a non-negative integer.
  - `PadStart` models `padStart` with a one-character fill.
  - `ParseClock` is an independent reader for that text. The lemmas prove that it
    reads back every formatted value.
- `script_timer.dfy`, module `PomodoroScript`: `app.js`.
  - `State` is a value snapshot of the six variables. The interval handle `timerId`
    is reduced to the flag `armed`.
  - The functions `AfterStop`, `AfterSwitch`, `AfterCompletion`, `AfterTick`,
    `AfterStartPause` and `AfterReset` specify the operations.
  - `Step` covers the mode, start/pause and reset buttons and the interval. The
    interval fires only while one is armed, so after a mode button, reset or a
    completion, later ticks change nothing.
  - The class `Timer` holds the variables, with `armed` as a ghost field. Its methods
    update the fields statement by statement, as the script does. Each method is
    proved to give exactly the state its specification function gives, and to keep
    the invariant `Inv`:
    - `seconds` stays within the mode's duration;
    - `completedFocus == cycles`;
    - `running` holds exactly when an interval is armed.
- `react_timer.dfy`, module `PomodoroReact`: the component, as pure functions over
  `(mode, seconds, running, cycles)`.
  - `SecondsUpdater` is the per-second `setSeconds` updater.
  - `HandleComplete` and `SwitchMode` model the functions of the same name.
  - `Step` covers the toggle, reset and mode buttons and the interval.
- `divergence.dfy`, module `Divergence`: relates the two versions.
  - The component completes a session on the tick that takes the countdown from 1
    to 0. The script completes one tick later, on the tick that finds it at 0.
    After that, both versions are in the same state again.
  - In the component, the mode buttons and reset do not stop the countdown. In the
    script, they do.

Ticks are explicit calls. No real time, scheduling or I/O is modelled.

Two behaviours of the code are worth stating plainly:
- In `app.js`, the tick that finds the count at 0 completes the session. A started
  1500-second focus session therefore completes on tick 1501.
- The component's reset button calls `switchMode(mode)`. It refills the countdown
  without stopping the timer.

## Model

| member | source | states |
|---|---|---|
| Clock.Decimal | app.js:34-37 | `toString()` of a non-negative integer: at least one character, all decimal digits, no leading zero; one digit exactly below 10, at most two exactly below 100 |
| Clock.DecimalRoundTrip | app.js:34-37 | reading the digits of `toString()` back gives the original number |
| Clock.PadStart | app.js:34-37 | `padStart(width, fill)` has length `max(width, length)`: it pads short text and never truncates long text |
| Clock.PadStartParts | app.js:34-37 | the padded text is fill characters followed by the original text, unchanged |
| Clock.Format | app.js:33-39 | the `format` of both versions (also advanced_pomodoro_web_app.jsx:49-53) gives at least five characters: digits, a colon, and exactly two digits after it |
| Clock.FormatRoundTrip | app.js:33-39 | for every number of seconds, the formatted text reads back as exactly that number: minutes before the colon, a seconds part below 60 after it |
| Clock.FormatInjective | app.js:33-39 | different second counts never produce the same text |
| Clock.FormatShape | app.js:33-39 | below 6000 s the text is five characters: two digits, `:`, two digits; the seconds part is below 60; `minutes*60 + seconds` recombines to the input |
| Clock.FormatWide | app.js:33-39 | from 6000 s on, the minutes part has three or more digits and the text is longer than five characters; padding never truncates |
| Clock.FormatExamples | app.js:33-39 | `0` formats as `00:00`, `65` as `01:05`, `1500` as `25:00` |
| PomodoroScript.Duration | app.js:1-5 | every duration is a positive whole number of minutes below 100 minutes; focus 1500, short 300, long 900 seconds |
| PomodoroScript.Elapsed | app.js:49 | in every valid state, the elapsed time behind the progress ring is between 0 and the mode's duration; it is 0 exactly at a full countdown and equals the duration exactly at 0 |
| PomodoroScript.Display | app.js:42 | in every valid state, the rendered countdown is `MM:SS` and reads back as the remaining seconds |
| PomodoroScript.AfterStop | app.js:87-94 | stops and clears the interval; mode, countdown and both counters are unchanged; keeps the invariant |
| PomodoroScript.AfterSwitch | app.js:80-85 | the new mode with its full duration, stopped and disarmed; both counters unchanged; keeps the invariant |
| PomodoroScript.AfterCompletion | app.js:96-107 | stops at a full session; focus adds one to both counters and leads to the long break exactly when the new count is a multiple of 4, else the short break; a break returns to focus with the counters unchanged; keeps the invariant |
| PomodoroScript.AfterTick | app.js:109-117 | above 0, exactly one second less and nothing else changes; at 0, the completion, which stops the timer; keeps the invariant |
| PomodoroScript.AfterStartPause | app.js:125-136 | flips `running` and arms exactly while running; mode, countdown and counters unchanged; from a valid state it arms only when no interval was armed, so at most one interval is ever live |
| PomodoroScript.AfterReset | app.js:138-142 | the full duration of the current mode, stopped and disarmed; mode and counters unchanged; keeps the invariant |
| PomodoroScript.Step | app.js:119-142 | every mode button, start/pause, reset and interval firing keeps the invariant (seconds within the duration, `completedFocus == cycles`, running exactly when an interval is armed); with no interval armed, a tick changes nothing |
| PomodoroScript.RunKeepsInv | app.js:26-31 | every state reached by any sequence of events from a valid state (such as the initial one) is valid |
| PomodoroScript.CountdownTicks | app.js:109-114 | while the interval is armed, up to the remaining seconds, each tick takes exactly one second off and changes nothing else |
| PomodoroScript.CompletesAfterZero | app.js:109-117 | while armed, the countdown reaches 0 after `seconds` ticks without completing; tick `seconds + 1` performs the completion |
| PomodoroScript.DisarmedTicks | app.js:87-94 | once the interval is cleared, any number of ticks leave the state unchanged |
| PomodoroScript.ControlsClearInterval | app.js:80-94 | after a mode button or reset, any number of ticks leave the state those buttons produced unchanged |
| PomodoroScript.OneCompletion | app.js:96-117 | exactly one completion happens: every tick after tick `seconds + 1` leaves the completed state unchanged |
| PomodoroScript.FreshFocusSession | app.js:109-117 | a started fresh focus session still runs at 0 after 1500 ticks; tick 1501 leaves a stopped short break of 300 s with both counters at 1 |
| PomodoroScript.RoundsCount | app.js:96-107 | a focus completion followed by a break completion returns to a stopped full focus session, one cycle further on |
| PomodoroScript.LongBreakEveryFourth | app.js:98-100 | after `n` earlier rounds, the next focus completion leads to the long break exactly when `n + 1` is a multiple of 4 |
| PomodoroScript.FirstFourBreaks | app.js:98-100 | from zero cycles, four focus completions lead to short, short, short, long |
| PomodoroScript.Timer.constructor | app.js:26-31 | the variables start as focus, 1500 s, stopped, no interval, zero counters |
| PomodoroScript.Timer.StopTimer | app.js:87-94 | clears the interval if armed and stops; nothing else changes |
| PomodoroScript.Timer.SwitchMode | app.js:80-85 | sets the mode and its full duration and stops; counters unchanged; equals `AfterSwitch` |
| PomodoroScript.Timer.AdvanceModeAfterCompletion | app.js:96-107 | the completion rule on the variables, equal to `AfterCompletion` |
| PomodoroScript.Timer.Tick | app.js:109-117 | above zero, the new state is the old one with one second less; at zero, the new state is exactly one completion; equals `AfterTick` |
| PomodoroScript.Timer.StartPause | app.js:125-136 | flips `running`, arms an interval on start only when none was armed, clears it on pause; mode, countdown and counters unchanged |
| PomodoroScript.Timer.Reset | app.js:138-142 | full duration of the current mode, stopped; mode and counters unchanged |
| PomodoroReact.Modes | advanced_pomodoro_web_app.jsx:6-10 | every duration is a positive whole number of minutes below 100 minutes; pomodoro 1500, short 300, long 900 seconds |
| PomodoroReact.SecondsUpdater | advanced_pomodoro_web_app.jsx:21-27 | the updater completes exactly when the count is at most 1, and then returns 0; otherwise it returns one less and does not complete |
| PomodoroReact.SwitchMode | advanced_pomodoro_web_app.jsx:44-47 | sets the mode and its full duration and leaves `running` and `cycles` untouched; the result is always valid |
| PomodoroReact.HandleComplete | advanced_pomodoro_web_app.jsx:32-42 | stops at a full session; from a pomodoro it adds one cycle and picks the long break exactly when the new count is a multiple of 4, else the short break; from a break it returns to a pomodoro with `cycles` unchanged |
| PomodoroReact.AfterTick | advanced_pomodoro_web_app.jsx:18-28 | stopped, nothing changes; running above 1 s, exactly one second less and nothing else; running at 1 s or less, the completion, which stops; keeps `0 < seconds <= MODES[mode]` |
| PomodoroReact.Step | advanced_pomodoro_web_app.jsx:63-80 | every action keeps `0 < seconds <= MODES[mode]`; the toggle flips `running` only; reset and the mode buttons refill the countdown and keep `running` and `cycles` |
| PomodoroReact.Display | advanced_pomodoro_web_app.jsx:49-53 | in every valid state, the rendered countdown is `MM:SS`, never `00:00`, and reads back as the remaining seconds |
| PomodoroReact.RunKeepsInv | advanced_pomodoro_web_app.jsx:13-16 | every state reached from a valid state (such as the initial one) by any sequence of actions is valid |
| PomodoroReact.CountdownTicks | advanced_pomodoro_web_app.jsx:21-27 | while running, each tick before the last second takes exactly one second off and changes nothing else |
| PomodoroReact.CompletionIgnoresCount | advanced_pomodoro_web_app.jsx:32-40 | the state after a completion does not depend on the count it was called at |
| PomodoroReact.CompletesOnLastSecond | advanced_pomodoro_web_app.jsx:21-27 | while running, one second is left after `seconds - 1` ticks, and tick `seconds` completes the session |
| PomodoroReact.StoppedTicks | advanced_pomodoro_web_app.jsx:18-19 | no interval runs while stopped, so the state stays put |
| PomodoroReact.FreshPomodoro | advanced_pomodoro_web_app.jsx:13-27 | a started fresh pomodoro shows 1 s after 1499 ticks; tick 1500 leaves a stopped short break of 300 s with one cycle |
| PomodoroReact.RoundsCount | advanced_pomodoro_web_app.jsx:32-40 | a pomodoro completion followed by a break completion returns to a stopped full pomodoro, one cycle further on |
| PomodoroReact.LongBreakEveryFourth | advanced_pomodoro_web_app.jsx:35 | after `n` earlier rounds, the next completion picks the long break exactly when `n + 1` is a multiple of 4 |
| PomodoroReact.FirstFourBreaks | advanced_pomodoro_web_app.jsx:35-37 | from zero cycles, four pomodoro completions lead to short, short, short, long |
| Divergence.ScriptMode | advanced_pomodoro_web_app.jsx:6-10 | the component's modes correspond to the script's with equal durations |
| Divergence.OneTickApart | advanced_pomodoro_web_app.jsx:21-27 | from matching running states, with the script's interval armed, the component has completed after `seconds` ticks while the script still runs at 0; one tick later the two states match again |
| Divergence.ControlsDiverge | advanced_pomodoro_web_app.jsx:44-47 | from matching running states, a mode button or reset stops the script but leaves the component running; otherwise the two results match |

## Left out

- Rendering is not modelled: element lookups, `textContent`, `classList`, button labels, the status text and `MODE_COLORS` (app.js:7-21, 41-56, 119-123, 144-151). The countdown text and the elapsed seconds are modelled; the rest is UI with no state of its own.
- The progress-ring geometry is left out because it is floating point (`2 * Math.PI * 104`, app.js:23-24, 49-50). Only the integer elapsed value is modelled (`PomodoroScript.Elapsed`).
- Audio and notifications are left out: `notify`, `requestNotifications`, `Notification.permission`, and `new Audio(...).play()` in both files (app.js:58-78, 146-149; advanced_pomodoro_web_app.jsx:41). They are asynchronous browser calls that do not change timer state. The model has no hook where `notify` is called.
- Real `setInterval`/`clearInterval` timing is not modelled. Ticks are explicit calls, and `timerId` is the ghost flag `armed`.
- React hook semantics are left out: the `useEffect` dependency on `running` and its cleanup (advanced_pomodoro_web_app.jsx:18-30).
- React's stale closure is left out. In the component, `handleComplete` sees `mode` and `cycles` as they were when `running` last changed, so a mode switch while running can be completed as the old mode. The model reads current state at every step.
- The order of React's queued updates is not modelled. `handleComplete` runs inside a `setSeconds` updater and queues `setSeconds(MODES[next])`, so the final count (0 or `MODES[next]`) depends on the scheduler. The model takes `MODES[next]`. This is why `PomodoroReact.Inv` states that the count is positive.
- Clock.Decimal and Clock.Format: counts are modelled as unbounded naturals. JavaScript numbers are doubles, so `toString()` switches to exponent notation from 10^21 and integers above 2^53 lose precision. Neither is captured; the timers' counts never exceed 1500.
- Mode strings that are not keys of the duration table (`btn.dataset.mode`, app.js:121) are outside the model. Modes are an enumeration.
- The JSX markup and the imported UI components and icons are not modelled (advanced_pomodoro_web_app.jsx:2-4, 55-87).
