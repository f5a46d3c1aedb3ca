# Metronome transport and beat model

A Dafny model of the metronome component in `src/Metronome.tsx`: a tempo
slider and a Start/Stop button that drive a click track whose first beat in
every measure of four is accented. The component holds three state cells
(`bpm`, `isPlaying`, `count`) and one module-level interval handle (`timer`).
A click (`playClick`) chooses the accent or the regular cue from the count its
render captured and advances the count modulo 4. The Start/Stop handler resets
the count and fires one click when starting. Two effects keep the one repeating
interval in step with the play state and the tempo, always clearing the held
handle before arming a new one.

The model has four modules:

- `Beats` (`beats.dfy`): the cue choice and the count update, with
  JavaScript's truncating `%` written out (`MeasureRem`). It also proves the
  cycle 0, 1, 2, 3, 0, … and that the accent falls on every fourth click.
- `Timers` (`timers.dfy`): a history of `clearInterval`/`setInterval` calls
  on the handle, and the intervals that history leaves scheduled. Its main
  lemma: when every arm comes right after a clear of the held handle, at most
  one interval is live, and it is the one `timer` holds.
- `NumberInput` (`number_input.dfy`): `Number(text)` on the digit strings a
  range control produces, and `String(n)` for the value the control shows. It
  proves that converting a tempo's text back gives the tempo.
- `MetronomeWidget` (`metronome.dfy`): class `Metronome`, with one method per
  handler and effect. It also holds the host's scheduled intervals (handle →
  the tempo and rendered count of the `playClick` it runs), a ghost log of
  cues played and a ghost log of timer calls. `Valid()` says that the count is
  a beat position, that the intervals are the ones the timer log leaves, and
  that at most the interval `timer` holds is scheduled. Every method keeps
  `Valid()`. After `PlayStateEffect` an interval is scheduled exactly while
  playing (`Reconciled()`).

React is modelled as a sequence of method calls in program order. State
updates are applied at once, so a functional update sees the value queued
before it. A handler or effect reads the state of its render, and in a
sequential run that is the committed state when it starts. The caller stands
for React and runs the effects whose dependencies changed. For example,
`Beat` is one beat of a playing metronome: the interval fires, the new count
gives a new `playClick`, and the play-state effect's cleanup and re-run re-arm
the interval with it. `RunBeats` repeats it. A tempo change runs the effect on
`[bpm]` only when the value differs from the held one, so
`ChangeTempoWhilePlaying` takes a different tempo.

Where the code and the design intent differ, the model follows the code:

- The click fired by `startStop` (src/Metronome.tsx:46) belongs to the
  current render. It reads that render's `count`, not the 0 queued at line
  44. Starting from a fresh component it plays the accent. Restarting after a
  stop at any other beat plays the regular cue first
  (`RestartAfterOneClick`), although the comment at line 18 says the first
  beat sounds different.
- Starting leaves the count at 1, not 0: the reset to 0 is followed by the
  click's own increment (line 26).

## Model

| member | source | states |
|---|---|---|
| Beats.MeasureRem | src/Metronome.tsx:19 | JavaScript `%` by 4: the dividend minus the result is a multiple of 4; the result is in [0, 4) for a non-negative dividend and in (-4, 0] for a negative one |
| Beats.CueFor | src/Metronome.tsx:19-23 | the accent is chosen exactly when the rendered count is a multiple of 4, and the regular cue otherwise |
| Beats.NextCount | src/Metronome.tsx:26 | from a non-negative count the next count is in [0, 4); from a beat position it is the next one, wrapping from 3 to 0 |
| Beats.CountAfter | src/Metronome.tsx:26 | after at least one click from a non-negative count, the count is a beat position in [0, 4), so clicking never leaves the measure |
| Beats.CuesFrom | src/Metronome.tsx:17-27 | n clicks, each reading the count the previous one left, play exactly n cues |
| Beats.CountCycle | src/Metronome.tsx:26 | after n clicks from beat s the count is (s + n) mod 4, giving the cycle 0, 1, 2, 3, 0, … |
| Beats.CuesFromAt | src/Metronome.tsx:17-27 | the i-th of n cues is chosen from the count after i clicks |
| Beats.AccentEveryFourth | src/Metronome.tsx:19-26 | click i from beat s is accented if and only if s + i is a multiple of 4 |
| Beats.StartedCuesAccents | src/Metronome.tsx:38-47 | a start from count 0 followed by n beats gives n + 1 cues, and cue i is the accent if and only if i is a multiple of 4 |
| Timers.AtMostOneLive | src/Metronome.tsx:49-70 | if every arm directly follows a clear of the held handle, the scheduled intervals are at most the one `timer` holds |
| Timers.ClearHeld | src/Metronome.tsx:56 | clearing the held handle keeps that discipline, cancels that interval and leaves `timer` as it was |
| Timers.ClearThenArm | src/Metronome.tsx:52-53 | a clear of the held handle followed by an arm keeps the discipline and leaves only the new interval scheduled, held by `timer` |
| NumberInput.DigitsValue | src/Metronome.tsx:31 | `Number` of a digit string is 0 exactly when every digit is 0, the empty string included |
| NumberInput.LeadingZeroIgnored | src/Metronome.tsx:31 | `Number` ignores a leading zero, so `"0100"` and `"100"` store the same tempo |
| NumberInput.DecimalText | src/Metronome.tsx:80 | the text of a tempo is a non-empty digit string with no leading zero |
| NumberInput.NumberOfDecimalText | src/Metronome.tsx:31 | `Number` of the text the control holds for tempo n is n, so the stored tempo is the chosen one |
| MetronomeWidget.Metronome.constructor | src/Metronome.tsx:10-15 | a new component is at tempo 100, stopped, at count 0, with `timer` undefined and nothing scheduled |
| MetronomeWidget.Metronome.PlayClick | src/Metronome.tsx:17-27 | appends the cue for the rendered count to the cue log and sets the count to the next beat after the queued one; nothing else changes |
| MetronomeWidget.Metronome.HandleBpmChange | src/Metronome.tsx:29-36 | stores the converted value of the control's text as the tempo; there is no error outcome; nothing else changes |
| MetronomeWidget.Metronome.StartStop | src/Metronome.tsx:38-47 | flips `isPlaying`; stopping plays nothing and keeps the count; starting plays exactly one click, chosen from the count before the reset, and leaves the count at 1 |
| MetronomeWidget.Metronome.ClearTimer | src/Metronome.tsx:56 | `clearInterval(timer)` leaves no interval scheduled and logs the clear of the held handle |
| MetronomeWidget.Metronome.Rearm | src/Metronome.tsx:52-53 | clears the held interval, then schedules the given one under a new handle; that interval is the only one scheduled and `timer` holds it |
| MetronomeWidget.Metronome.PlayStateEffect | src/Metronome.tsx:49-58 | afterwards an interval is scheduled if and only if playing; while playing it is a fresh one at the current tempo reading the current count; while stopped none remains and `timer` keeps its handle; a new handle is used only while playing |
| MetronomeWidget.Metronome.PlayStateCleanup | src/Metronome.tsx:59 | the cleanup leaves no interval scheduled, so no further click can fire |
| MetronomeWidget.Metronome.TempoEffect | src/Metronome.tsx:62-70 | while playing: re-arms one fresh interval at the new tempo and resets the count to 0, using one new handle; the re-armed interval reads the count from before the reset, the render's stale count; while stopped: changes nothing at all |
| MetronomeWidget.Metronome.Tick | src/Metronome.tsx:53 | a scheduled interval firing plays the cue for the count captured by the render that armed it and advances the count |
| MetronomeWidget.Metronome.Beat | src/Metronome.tsx:17-60 | one beat of a playing metronome plays the cue for the current count, advances it, and re-arms one fresh interval, now held by `timer`, at the current tempo reading the new count; the timer log grows by the cleanup's clear, then the effect's clear and arm |
| MetronomeWidget.Metronome.RunBeats | src/Metronome.tsx:17-60 | n beats of a playing metronome leave count CountAfter(c, n), append exactly the cues CuesFrom(c, n) and use n new handles, the last of which `timer` holds (no beats change neither `timer` nor the timer log); the log grows by three calls per beat; one interval stays scheduled at the current tempo |
| MetronomeWidget.StartFromMount | src/Metronome.tsx:38-60 | pressing Start on a freshly mounted component plays the accent, leaves the count at 1 and one interval at tempo 100 reading count 1 |
| MetronomeWidget.StartAndPlay | src/Metronome.tsx:38-60 | after starting and n beats, n + 1 cues were played and cue i is the accent exactly when i is a multiple of 4 |
| MetronomeWidget.RestartAfterOneClick | src/Metronome.tsx:38-47 | start, stop and restart play the accent and then the regular cue, leave the count at 1 and one interval scheduled |
| MetronomeWidget.ChangeTempoWhilePlaying | src/Metronome.tsx:29-70 | a change to a different tempo while playing leaves the new tempo, count 0, and a single interval at the new tempo reading count 0 |

## Left out

- Audio playback (`CLICK1.play()`, `CLICK2.play()`), its asset loading and its rejected promises: a click appends its cue to a ghost log.
- The rendered markup, `memo`, the stylesheet, and the slider's `min`/`max` of 60 and 240: the tempo in the model is not bounded, and no model operation depends on a bound.
- The interval length `(60 / bpm) * 1000` is a floating-point value: an interval records the tempo it was armed with, which stands for a period of 60000/bpm milliseconds. Wall-clock timing, jitter and a tick already in flight when the interval is cleared are not modelled.
- React's scheduling, batching, `await` on a state setter and dependency tracking: each handler, effect and cleanup is a method the caller invokes in the order React would run it.
- MetronomeWidget.Metronome.HandleBpmChange: models `Number()` only on digit strings, the text a range control with integer steps produces. What `Number` does with other text (NaN, whitespace, signs, exponents) is not modelled.
- The host's choice of interval handles is a counter of positive integers. The module-level `timer` is a field of one component, so interference between two mounted components through that shared variable is not captured.
