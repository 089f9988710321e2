# Work/rest timer: accrual state machine and clock readout

This project models the core of a single-screen work/rest timer app. The user
works, and every second of work earns a fifth of a second of rest credit. When
the user rests, the credit counts down. An alarm sounds when the credit runs
out. The screen shows both counters as `HH:MM:SS`. When the app comes back
from the background, it credits the time it missed in one lump.

The model has three modules:

- `Clock` (`clock.dfy`) is the pure `formatTime`. It follows JavaScript's
  number semantics: `Math.floor`, the `%` operator that truncates toward zero,
  `String(n)` with its minus sign, and `padStart(2, "0")`. It includes a
  reader that turns a readout back into seconds.
- `Accrual` (`accrual.dfy`) holds the screen's state as a value. It has one
  function per handler and the button guards (`Enabled`). It also has runs of
  events and the lemmas about them.
- `Screen` (`screen.dfy`) is the component itself: a class whose fields are
  the state hooks, with one method per handler. The button guards are the
  methods' preconditions. Each method's new state is the matching `Accrual`
  function applied to the old state, and each method keeps the mode
  invariant.

Choices made in the model:

- Rest credit (`restingMillis`) is a `real`. The catch-up adds `elapsed / 5`,
  which JavaScript computes as a fraction. Work elapsed stays an `int`,
  because the time library returns a whole number of milliseconds for a
  difference.
- Each handler runs atomically and to completion.
- Each firing of the one-second interval is one `Tick`. The interval exists
  only while working or resting, so `Tick` requires one of the two.
- The wall-clock time of a lifecycle change is a parameter (`now`). When no
  background time has been recorded, the time library reads the clock a
  second time for the missing date; that reading is a second parameter
  (`later`), and `Elapsed` is then `now - later`.
- `Resume` takes the elapsed milliseconds as a parameter.

Behaviour of the code that a reader might not expect, which the model keeps:

- The catch-up ignores the mode. It adds work and rest credit while idle and
  while resting too, so a rest's credit grows after a background period
  (`CatchUpDuringRest`).
- Rest credit is not clamped. Ticks go on during the alarm, so the credit
  goes negative, and `formatTime` prints a negative count with minus signs,
  for example `"-1:-1:-1"`. The readouts are hidden while the alarm plays,
  though. No readout on screen is ever negative as long as every catch-up
  is non-negative (`RunKeepsSound`, `ShownClocksNotNegative`). That requires
  a wall clock that does not run backwards. It also requires that an
  "active" with no earlier "background" has both clock readings on the same
  millisecond. A clock that runs backwards can leave a rest with zero credit
  and no alarm (`BackwardClockSilencesAlarm`). An "active" before any
  "background" whose second reading is a millisecond later makes both idle
  readouts `"-1:-1:-1"` (`ActiveBeforeBackground`).
- "Stop Alarm" clears the resting flag, the alarm and the credit. It does not
  touch the working flag, which the mode invariant already keeps false, so
  the screen still ends idle (`StopAlarmEndsIdle`).
- "Pause" and "Reset" are enabled only while working or resting. "Work" is
  disabled while already working.
- The recorded background time is never cleared. A second "active" with no
  "background" in between credits the same period again
  (`RepeatedActivation`).

## Model

| member | source | states |
|---|---|---|
| Clock.Digits | app/index.tsx:125-127 | `String(n)` of a natural: at least one character, all decimal digits; one digit exactly below 10, two for 10..99 |
| Clock.DigitsCanonical | app/index.tsx:125-127 | `String(n)` has no leading zero except for 0 itself, so an hours field of 100 or more is printed unpadded |
| Clock.ValueOfDigits | app/index.tsx:125-127 | reading back the digits `String(n)` prints gives `n` |
| Clock.ValueOfZeroPadded | app/index.tsx:125-127 | the zeros `padStart` puts in front do not change the value read back |
| Clock.NumberToString | app/index.tsx:125-127 | `String(n)` starts with `-` exactly for negative `n`; the rest is decimal digits that read back as the absolute value of `n` |
| Clock.PadStart | app/index.tsx:125-127 | `padStart(width, fill)`: the result is as long as the longer of `s` and `width`, ends with `s`, and is `fill` before it |
| Clock.JsRem | app/index.tsx:122-123 | JavaScript `%`: remainder of the quotient truncated toward zero, smaller than the divisor in magnitude, with the sign of the dividend |
| Clock.WholeSecondsFloor | app/index.tsx:120 | `WholeSeconds`, the model of `Math.floor(ms / 1000)`, is the largest whole number of seconds whose milliseconds do not exceed `ms` |
| Clock.FieldsRange | app/index.tsx:120-123 | `FieldsOf` for any count: hours are non-negative exactly for a non-negative count; minutes lie in -60..59 and seconds in -59..59; for a negative count no field is positive |
| Clock.FieldsDecompose | app/index.tsx:119-123 | for `ms >= 0`: `hours*3600 + minutes*60 + seconds == floor(ms/1000)`, with `0 <= minutes, seconds < 60` and `hours >= 0` |
| Clock.FieldOfNatural | app/index.tsx:125-127 | a non-negative field prints as digits only, reads back as itself, and is exactly two characters below 100 |
| Clock.Field | app/index.tsx:125-127 | one field `String(n).padStart(2, "0")` is at least two characters; `FieldOfNatural` gives its digits and value |
| Clock.FormatTime | app/index.tsx:119-130 | `formatTime` is at least eight characters; `FormatTimeRoundTrip`, `FormatTimeEightChars`, `FormatTimeNegative` and `FormatTimeJustBelowZero` state its contents |
| Clock.FormatTimeRoundTrip | app/index.tsx:119-130 | for `ms >= 0` the readout is digits with `:` sixth and third from the end, at least 8 long, and reads back as `floor(ms/1000)` seconds |
| Clock.FormatTimeEightChars | app/index.tsx:119-130 | for `0 <= ms < 360,000,000` the readout is exactly 8 characters with `:` at indices 2 and 5 |
| Clock.FormatTimeNegative | app/index.tsx:119-130 | a negative count prints with a leading `-`; nothing clamps at zero |
| Clock.FormatTimeJustBelowZero | app/index.tsx:119-130 | every count in `[-1000, 0)` prints as `"-1:-1:-1"` |
| Accrual.StartWorking | app/index.tsx:108-111 | the Work handler leaves the screen working, keeps both counters and the alarm |
| Accrual.StartResting | app/index.tsx:113-117 | the Rest handler leaves the screen resting with work zeroed, keeps the credit and the alarm |
| Accrual.PauseTimers | app/index.tsx:103-106 | the Pause handler leaves the screen idle, keeps both counters and the alarm |
| Accrual.RestartTimers | app/index.tsx:96-101 | the Reset handler leaves the screen idle with both counters zeroed, keeps the alarm |
| Accrual.PauseAlarm | app/index.tsx:90-94 | the Stop Alarm handler silences the alarm, clears resting, zeroes the credit, and keeps the working flag and work elapsed |
| Accrual.Tick | app/index.tsx:26-39 | one firing keeps the mode; working, work gains 1000 and rest a fifth of that; resting, credit loses 1000 and the alarm is raised iff it already was or the credit crossed from positive to at most zero |
| Accrual.Resume | app/index.tsx:49-52 | the catch-up keeps mode and alarm and adds `elapsed` to work and a fifth of it to rest |
| Accrual.Elapsed | app/index.tsx:50 | with a recorded background time, the time from it to `now`; with none, the first reading minus the second, which is at most zero for a forward clock and zero exactly when both readings agree |
| Accrual.ChangeAppState | app/index.tsx:46-53 | keeps mode and alarm; "background" records `now`, other changes keep the recorded time; only "active" changes the counters |
| Accrual.AlarmButtons | app/index.tsx:143-189 | the button guards (`Enabled`): while the alarm plays, Stop Alarm is the only button that can be pressed, and it can be pressed only then |
| Accrual.InitialInv | app/index.tsx:14-21 | the initial state is idle, satisfies the mode invariant, and has sound counters (the base case of `RunKeepsSound`) |
| Accrual.ButtonModes | app/index.tsx:96-117 | Work selects working and Rest selects resting, with work zeroed and credit kept; Pause goes idle keeping both counters; Reset goes idle with both zeroed; none touches the alarm |
| Accrual.StepKeepsInv | app/index.tsx:26-117 | every enabled handler keeps "never working and resting at once, alarm only while resting" |
| Accrual.RunKeepsInv | app/index.tsx:26-117 | every admissible sequence of handlers keeps the mode invariant |
| Accrual.StopAlarmEndsIdle | app/index.tsx:90-94 | Stop Alarm ends idle, silent, with zero credit, whatever the credit's sign, and keeps work elapsed |
| Accrual.WorkingTicks | app/index.tsx:26-30 | n working ticks add exactly `1000*n` to work and `200*n` to rest and change no flag |
| Accrual.WorkIsFiveTimesRest | app/index.tsx:26-30 | from zero, n working ticks give work `1000*n`, rest `200*n`, so work is five times rest |
| Accrual.RestingTicks | app/index.tsx:31-38 | n resting ticks take `1000*n` of credit; the alarm is raised iff it already was or the credit went from positive to at most zero |
| Accrual.NoAlarmBelowZero | app/index.tsx:33-38 | ticks at or below zero credit never raise a stopped alarm again |
| Accrual.OneSecondRest | app/index.tsx:33-38 | one second of credit runs out, raising the alarm, on the first resting tick; the next tick takes the credit to -1000 |
| Accrual.CatchUpMatchesTicks | app/index.tsx:46-53 | while working, a catch-up of `1000*n` ms gives the same state as n live ticks |
| Accrual.CatchUpDuringRest | app/index.tsx:46-53 | during a rest the catch-up adds credit where a tick takes it, and changes no flag |
| Accrual.RepeatedActivation | app/index.tsx:46-53 | two "active" changes after one "background" credit the time since that background twice; the timestamp stays |
| Accrual.StepKeepsSound | app/index.tsx:26-117 | with a non-negative catch-up, every enabled handler keeps work non-negative, rest negative only while the alarm plays, and rest positive during a rest before the alarm |
| Accrual.RunKeepsSound | app/index.tsx:26-117 | every admissible run whose catch-ups are non-negative keeps the counters sound |
| Accrual.ShownClocksNotNegative | app/index.tsx:137-141 | in a sound state with no alarm, both readouts on screen are digits and colons only |
| Accrual.BackwardClockSilencesAlarm | app/index.tsx:46-53 | a catch-up with a clock that runs backwards can leave a rest at zero credit whose later ticks never sound the alarm |
| Accrual.ActiveBeforeBackground | app/index.tsx:46-53 | an "active" with no recorded background time, whose second clock reading is one millisecond later, leaves the idle screen unsound with both readouts `"-1:-1:-1"` |
| Screen.TimerScreen.constructor | app/index.tsx:14-21 | the component starts idle, silent, with both counters at zero and no background time |
| Screen.TimerScreen.StartWorking | app/index.tsx:108-111 | enabled when no alarm plays and not already working; sets working, clears resting, keeps the counters |
| Screen.TimerScreen.StartResting | app/index.tsx:113-117 | enabled when no alarm plays and credit is at least 1000; sets resting, clears working, zeroes work, keeps the credit |
| Screen.TimerScreen.PauseTimers | app/index.tsx:103-106 | enabled while working or resting; clears both mode flags and keeps the counters |
| Screen.TimerScreen.RestartTimers | app/index.tsx:96-101 | enabled while working or resting; clears both mode flags and zeroes both counters |
| Screen.TimerScreen.PauseAlarm | app/index.tsx:90-94 | offered only while the alarm plays; clears the alarm and resting and zeroes the credit, keeping the working flag and work elapsed |
| Screen.TimerScreen.Tick | app/index.tsx:26-39 | one interval firing: +1000/+200 while working; -1000 while resting, raising the alarm on the positive to non-positive crossing |
| Screen.TimerScreen.Resume | app/index.tsx:49-52 | adds `elapsed` to work and `elapsed/5` to rest whatever the mode, and changes no flag |
| Screen.TimerScreen.ChangeAppState | app/index.tsx:46-53 | "background" records the time; "active" applies the catch-up `Elapsed` gives, from the recorded time or, with none, between the two clock readings; other states do nothing |
| Screen.WorkRestSession | app/index.tsx:26-39 | five working ticks earn one second of rest; resting then sounds the alarm on the first tick, and Stop Alarm leaves work and rest at zero, silent |

## Left out

- Rendering, styles and button layout are not modelled. Only the enable conditions of the buttons are kept, as preconditions (`Enabled`).
- Scheduling the interval with `setInterval`/`clearInterval`, and re-subscribing the effect, are not modelled. Each firing is one atomic `Tick`.
- The `AppState` subscription and the time library's clock reads are not modelled. The clock readings are parameters (`now` and `later`, or `elapsed` for `Resume`).
- Loading the alarm sound and playing or stopping it are not modelled. These are asynchronous foreign calls that never affect the counters; only the alarm flag is modelled.
- Floating-point rounding is not modelled. Rest credit is an exact `real`, and `Math.floor(ms / 1000)` is the exact floor.
- Clock.NumberToString: models `String(n)` only as plain decimal digits. JavaScript switches to exponent notation from 10^21, which would need about 3.6·10^27 ms.
