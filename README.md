# PodCoach session core in Dafny

This project models the client-side logic of the PodCoach coaching app: a web front end where a guest starts a voice-coaching session of up to 20 minutes. It covers four parts:

- **The session page.** A session is started, ended in two steps or by the countdown, counts its elapsed seconds and cycles a visualization label.
- **The countdown `Timer`.** It resets its remaining time when its duration prop changes, and its one-second updater clamps at zero and calls `onComplete`. It also formats `mm:ss`.
- **The `WaveAnimation` voice indicator.** The model covers its discrete choices: defaults, glow colours, ring and sway constants, icon, frame-loop guard and size class.
- **The QR scanner overlay.** This covers scan routing, the camera toggle, the error message and the button label.

JavaScript behaviour is written out explicitly in `js_runtime.dfy`:

- `Math.floor` of a quotient;
- the truncating `%`;
- `Number.prototype.toString` for integers;
- `padStart`, `indexOf` and `startsWith`.

`time_format.dfy` proves that the shared `formatTime` reads back as the number it formats, for every non-negative number of seconds.

Handlers are pure functions over a state datatype. Where the source keeps mutable component state, the model also has a class whose methods are tied to those functions. Navigation, `window.location`/`window.open` and `onComplete` calls are recorded as data instead of performed: a list of routes, a list of actions, a completion count. Intervals are explicit one-second steps. `session_clock.dfy` puts the page and its timer together. There, the two intervals may fire in any order.

Four facts about the code shape the model:

- The page has no pause or resume, and starting a session checks no credentials.
- A scanned "session" text is not treated as a token: anything not starting with `http` opens in a new tab.
- A `Timer` whose duration is 0 or less never calls `onComplete`, because its interval is never created.
- The page's `WaveAnimation` is never given `isSpeaking` or `speakerType`, so it always shows the silent look.

## Model

| member | source | states |
|---|---|---|
| JsRuntime.IndexOf | src/pages/SessionPage.tsx:62 | `indexOf`: -1 exactly when the value is absent, otherwise the position of its first occurrence |
| JsRuntime.FloorDiv | src/pages/SessionPage.tsx:68 | `Math.floor(a / b)` for positive `b`: the largest `q` with `q*b <= a` |
| JsRuntime.JsRem | src/pages/SessionPage.tsx:69 | JavaScript `%`: takes the sign of the dividend, its magnitude is below the divisor, it differs from the dividend by a multiple of the divisor (so it is the truncated remainder), and it agrees with the mathematical remainder for non-negative dividends |
| JsRuntime.NatToString | src/pages/SessionPage.tsx:70 | decimal `toString`: non-empty, all digits, denotes the number, a single digit exactly below 10, no leading zero |
| JsRuntime.IntToString | src/pages/SessionPage.tsx:70 | integer `toString`: the decimal digits of the magnitude, preceded by `-` exactly for a negative number |
| JsRuntime.StartsWith | src/components/QRCodeScanner.tsx:20 | `startsWith`: the prefix is no longer than the text and agrees with it character by character |
| JsRuntime.PadStart | src/pages/SessionPage.tsx:70 | `padStart`: length is the larger of the width and the input length, the input is a suffix, and everything before it is the fill character |
| TimeFormat.FormatTime | src/pages/SessionPage.tsx:67-71 | `formatTime`: the padded floor quotient by 60, a colon, the padded truncated remainder; its meaning is stated by the lemmas below |
| TimeFormat.Pad2 | src/pages/SessionPage.tsx:70 | `toString().padStart(2, '0')`; `PaddedNat` and `PaddedNegative` state what it yields |
| TimeFormat.FormatTimeRoundTrip | src/pages/SessionPage.tsx:67-71 | for every `s >= 0`, parsing `formatTime(s)` as minutes (digits), a colon, and seconds (two digits below 60) gives back `s` |
| TimeFormat.ReadBack | src/components/Timer.tsx:42-46 | the timer's copy of `formatTime` reads back as its argument whenever the argument is non-negative |
| TimeFormat.FormatTimeInjective | src/pages/SessionPage.tsx:67-71 | different non-negative second counts are displayed differently |
| TimeFormat.FormatTimeShape | src/components/Timer.tsx:42-46 | below 100 minutes the text is exactly `mm:ss`: five characters, colon at index 2, digits elsewhere encoding `s / 60` and `s % 60` |
| TimeFormat.FormatTimeLong | src/pages/SessionPage.tsx:68-70 | from 100 minutes on, the padded minutes take more than two characters and the text is longer than five characters |
| TimeFormat.FormatZero | src/pages/SessionPage.tsx:172 | `formatTime(0)` is the `00:00` the footer shows outside a session |
| TimeFormat.FormatNegative | src/components/Timer.tsx:43-45 | for every negative count: the minutes are `-` and the magnitude rounded up to whole minutes; the seconds are `-` and the magnitude's remainder by 60, except at a multiple of 60, where they are `00`; the first colon separates the two |
| TimeFormat.FiveSecondsBeforeZero | src/components/Timer.tsx:42-46 | `formatTime(-5)` is `-1:-5` |
| TimeFormat.MinuteBeforeZero | src/components/Timer.tsx:42-46 | `formatTime(-60)` is `-1:00`: JavaScript's `-0` remainder prints as `0` |
| CountdownTimer.Scheduled | src/components/Timer.tsx:24 | the effect's guard: an interval exists exactly while running with time left |
| CountdownTimer.TickUpdate | src/components/Timer.tsx:26-33 | the updater never yields a negative value, decrements above 1, clamps 1 and below to 0, and calls `onComplete` exactly when it yields 0 |
| CountdownTimer.Mount | src/components/Timer.tsx:15-19 | the first render starts `timeLeft` at the duration |
| CountdownTimer.Rerender | src/components/Timer.tsx:17-19 | a re-render resets `timeLeft` to the duration exactly when the duration prop changed, otherwise keeps it |
| CountdownTimer.Second | src/components/Timer.tsx:21-40 | a second passes: nothing changes without a scheduled interval; otherwise one second is lost, and completion happens exactly on reaching 0 |
| CountdownTimer.Run | src/components/Timer.tsx:21-40 | `n` seconds of the timer, with one completion flag per second |
| CountdownTimer.FrozenWhenNotScheduled | src/components/Timer.tsx:24 | not running, or at 0 or below, the timer never changes and never completes, including a non-positive initial duration |
| CountdownTimer.CountsDown | src/components/Timer.tsx:24-33 | before reaching zero, `n` seconds take exactly `n` off and do not complete |
| CountdownTimer.ReachesZero | src/components/Timer.tsx:24-33 | from `D > 0`, running, exactly `D` seconds reach 0 with one completion, on the last second |
| CountdownTimer.CompletesOnce | src/components/Timer.tsx:21-40 | however long it runs past `D`, `onComplete` is called exactly once and the timer stays at 0 |
| CountdownTimer.StopAndResume | src/components/Timer.tsx:17-24 | stopping and restarting with the same duration keeps the remaining time, and nothing completes while stopped |
| CountdownTimer.DisplaysZeroAtEnd | src/components/Timer.tsx:50 | at the end of a countdown the display reads `00:00` |
| CountdownTimer.RunAppend | src/components/Timer.tsx:21-40 | `a` seconds followed by `b` seconds is `a + b` seconds, traces concatenated |
| CountdownTimer.Timer.constructor | src/components/Timer.tsx:15 | a new timer holds its duration as remaining time and has completed nothing |
| CountdownTimer.Timer.Render | src/components/Timer.tsx:17-19 | the new fields are the re-render of the old ones; the completion count is unchanged |
| CountdownTimer.Timer.Tick | src/components/Timer.tsx:24-33 | the new fields are one second of the old ones, and the completion count grows exactly when `onComplete` was called |
| CountdownTimer.Timer.Display | src/components/Timer.tsx:50 | the rendered text reads back as the remaining time whenever that is non-negative |
| SessionLifecycle.Started | src/pages/SessionPage.tsx:32-34 | `handleStartSession`; `StartKeepsElapsed` states its effect |
| SessionLifecycle.Ended | src/pages/SessionPage.tsx:49-54 | `endSession`; `EndForgetsElapsed` and `ConfirmedEndRequest` state its effect |
| SessionLifecycle.AfterEndRequest | src/pages/SessionPage.tsx:36-43 | `handleEndSession`; `TwoStepEnd` states its two steps |
| SessionLifecycle.AfterCancel | src/pages/SessionPage.tsx:45-47 | `handleCancelEnd`; `CancelUndoesEndRequest` states its effect |
| SessionLifecycle.AfterTimerComplete | src/pages/SessionPage.tsx:56-58 | `handleTimerComplete`; `TimerCompleteSkipsConfirmation` states its effect |
| SessionLifecycle.AfterSecond | src/pages/SessionPage.tsx:20-30 | one second of the elapsed-time interval; `SecondsCount` states its effect |
| SessionLifecycle.Apply | src/pages/SessionPage.tsx:20-65 | any handler navigates at most once, and only to `/` with the session ended and the elapsed time 0 |
| SessionLifecycle.NextComplexity | src/pages/SessionPage.tsx:60-65 | the next label is always one of the three; an unknown label (position -1) becomes the first |
| SessionLifecycle.ComplexityCycle | src/pages/SessionPage.tsx:60-65 | simple → medium → complex → simple; three toggles restore any listed label |
| SessionLifecycle.FooterTime | src/pages/SessionPage.tsx:172 | the footer reads back as the elapsed time while active and as 0 otherwise |
| SessionLifecycle.FooterShowsElapsed | src/pages/SessionPage.tsx:172 | on a consistent page the `00:00` branch coincides with `formatTime(elapsedTime)` |
| SessionLifecycle.TwoStepEnd | src/pages/SessionPage.tsx:36-43 | the first end request only arms the confirmation, without navigating; the second ends the session and navigates home |
| SessionLifecycle.ConfirmedEndRequest | src/pages/SessionPage.tsx:42-54 | an end request while confirming resets to inactive, 0 elapsed, no confirmation, label kept, one navigation to `/` |
| SessionLifecycle.CancelUndoesEndRequest | src/pages/SessionPage.tsx:45-47 | cancel clears only the confirmation flag, so it undoes a first end request exactly |
| SessionLifecycle.TimerCompleteSkipsConfirmation | src/pages/SessionPage.tsx:56-58 | timer completion gives the same result as a confirmed end, without the confirmation step |
| SessionLifecycle.EndForgetsElapsed | src/pages/SessionPage.tsx:49-54 | ending does not depend on the elapsed time and leaves it 0 and the session inactive |
| SessionLifecycle.StartKeepsElapsed | src/pages/SessionPage.tsx:32-34 | starting only sets the active flag |
| SessionLifecycle.SecondsCount | src/pages/SessionPage.tsx:20-30 | while active, `n` seconds add exactly `n`; while inactive the elapsed time stands still |
| SessionLifecycle.TimerGetsRemaining | src/pages/SessionPage.tsx:86-90 | the timer's duration plus the elapsed time is 1200; before start the timer gets all 1200 seconds |
| SessionLifecycle.ApplyPreservesConsistent | src/pages/SessionPage.tsx:20-65 | every handler keeps the elapsed time non-negative and 0 outside a session |
| SessionLifecycle.ApplyReachable | src/pages/SessionPage.tsx:95-151 | an event the rendered UI allows keeps the page reachable and navigates only to `/` |
| SessionLifecycle.ReplayReachable | src/pages/SessionPage.tsx:95-151 | any sequence of allowed events keeps the page reachable: consistent, no confirmation outside a session, a listed label; every navigation is to `/` |
| SessionLifecycle.InitialReachable | src/pages/SessionPage.tsx:12-16 | the initial state is reachable |
| SessionLifecycle.CancelKeepsSession | src/pages/SessionPage.tsx:32-47 | start, `n` seconds, end request and cancel leave an active session with `n` seconds elapsed |
| SessionLifecycle.SessionPage.constructor | src/pages/SessionPage.tsx:12-16 | the fields start at the initial `useState` values and nothing is navigated |
| SessionLifecycle.SessionPage.HandleStartSession | src/pages/SessionPage.tsx:32-34 | the new state is the started page; consistency kept; no navigation |
| SessionLifecycle.SessionPage.EndSession | src/pages/SessionPage.tsx:49-54 | the new state is the ended page with `/` appended to the navigations |
| SessionLifecycle.SessionPage.HandleEndSession | src/pages/SessionPage.tsx:36-43 | the new state and navigations are those of the two-step end request |
| SessionLifecycle.SessionPage.HandleCancelEnd | src/pages/SessionPage.tsx:45-47 | only the confirmation flag is cleared |
| SessionLifecycle.SessionPage.HandleTimerComplete | src/pages/SessionPage.tsx:56-58 | the session ends and the page navigates to `/` |
| SessionLifecycle.SessionPage.ElapsedTick | src/pages/SessionPage.tsx:20-30 | one second of the interval: +1 while active, else unchanged |
| SessionLifecycle.SessionPage.ToggleVisualization | src/pages/SessionPage.tsx:60-65 | the label becomes the next one in the cycle, nothing else changes |
| SessionLifecycle.SessionPage.TimerDurationProp | src/pages/SessionPage.tsx:87 | the `duration` prop is what remains of the session, never more than 1200 |
| SessionLifecycle.SessionPage.Footer | src/pages/SessionPage.tsx:172 | the footer text is `formatTime(elapsedTime)` on every consistent state |
| SessionClock.Step | src/pages/SessionPage.tsx:20-90 | every input leaves the timer holding the page's props and only appends to the navigations |
| SessionClock.Rendered | src/pages/SessionPage.tsx:86-90 | after every page render the timer holds the props `1200 - elapsedTime` and `isSessionActive` |
| SessionClock.PageDragsTimer | src/components/Timer.tsx:17-19 | with only the page's interval firing, each re-render resets the timer to `1200 - elapsedTime`, and the timer never completes |
| SessionClock.PageFirst | src/pages/SessionPage.tsx:20-30 | the schedule of a start followed by the page's interval alone |
| SessionClock.StartThenPageSeconds | src/pages/SessionPage.tsx:20-34 | that schedule is allowed from the mounted page and amounts to page seconds after a start |
| SessionClock.TimerMissesCompletion | src/components/Timer.tsx:17-40 | as written, under that schedule the session is still active at every `n >= 1200` seconds: nothing navigated, the timer at `1200 - n` with no interval; at 1201 it shows `-1:-1` |
| SessionClock.MinusOneSecond | src/components/Timer.tsx:42-46 | `formatTime(-1)` is `-1:-1` |
| SessionClock.Settle | src/components/Timer.tsx:21-40 | the correction: a running timer at or below 0 completes and ends the session with one navigation to `/`; afterwards a running timer has time left; otherwise nothing changes |
| SessionClock.FixedStepKeepsSync | src/components/Timer.tsx:17-40 | with completion also on a non-positive reset, every allowed input keeps the timer in step with the page |
| SessionClock.FixedNeverOverruns | src/components/Timer.tsx:17-40 | with the correction, in every interleaving of the two intervals an active session has fewer than 1200 seconds elapsed |
| SessionClock.InitialSynced | src/pages/SessionPage.tsx:12-16 | the mounted page and timer are in step |
| SessionClock.FixedEndsOnTime | src/pages/SessionPage.tsx:49-58 | with the correction, the schedule that overran ends the session after 1200 seconds with one navigation to `/` |
| WaveAnimation.WithDefaults | src/components/WaveAnimation.tsx:14-20 | omitted props default to `md`, active, not speaking, `idle`; given props are kept |
| WaveAnimation.FlowAmplitude | src/components/WaveAnimation.tsx:51-70 | the sway of each line family; `SpeakingTriplesSway` states its values |
| WaveAnimation.SpeakingTriplesSway | src/components/WaveAnimation.tsx:51-70 | both line families sway by the same factor: 5 silent, 15 speaking |
| WaveAnimation.GlowColors | src/components/WaveAnimation.tsx:73-93 | the glow's colour pair; the three lemmas below state its choices |
| WaveAnimation.GlowIsOneColour | src/components/WaveAnimation.tsx:73-97 | each glow's outer stop is its inner colour at alpha 0.05, and the inner stop is brighter |
| WaveAnimation.GlowFollowsSpeaker | src/components/WaveAnimation.tsx:75-93 | silent, all speaker types look alike; the glow is white exactly when silent or `idle`; agent blue, user green |
| WaveAnimation.InnerGlowsDistinct | src/components/WaveAnimation.tsx:75-93 | the four inner glow colours are pairwise different |
| WaveAnimation.PulseBase | src/components/WaveAnimation.tsx:106 | `pulseBase`; `SpeakingStrengthensRing` states its values |
| WaveAnimation.PulseFrequency | src/components/WaveAnimation.tsx:107 | the pulse's time factor; `SpeakingStrengthensRing` states its values |
| WaveAnimation.RingLineWidth | src/components/WaveAnimation.tsx:112 | the ring's stroke width; `SpeakingStrengthensRing` states its values |
| WaveAnimation.SpeakingStrengthensRing | src/components/WaveAnimation.tsx:106-112 | speaking doubles the ring's width and pulse frequency and raises its base by 0.2 |
| WaveAnimation.IconFor | src/components/WaveAnimation.tsx:153-157 | the centre glyph and its colour; `IconChoice` states the choice |
| WaveAnimation.IconChoice | src/components/WaveAnimation.tsx:153-157 | the speaker glyph shows exactly when the agent speaks; the microphone is green while speaking and dim otherwise |
| WaveAnimation.SpeakersDistinguishable | src/components/WaveAnimation.tsx:73-157 | agent speaking, user speaking and silence differ in both glow and icon |
| WaveAnimation.StartsFrameLoop | src/components/WaveAnimation.tsx:24-29 | the effect's three early returns; `FrameLoopGuard` states them |
| WaveAnimation.FrameLoopGuard | src/components/WaveAnimation.tsx:24-29 | no frame is requested without a canvas, while inactive, or without a 2D context; with all three it is |
| WaveAnimation.ContainerClasses | src/components/WaveAnimation.tsx:127-131 | `containerClasses`; `OneSizeClass` states which class applies |
| WaveAnimation.OneSizeClass | src/components/WaveAnimation.tsx:127-131 | exactly one size class applies, and different sizes get different classes |
| WaveAnimation.PageIndicatorIsSilent | src/pages/SessionPage.tsx:111 | the page's indicator is large, active and silent: dim white glow, dim microphone, sway 5 |
| QrScanner.ScanAction | src/components/QRCodeScanner.tsx:16-26 | no action exactly for `null` or empty text; otherwise the scanned text is the URL, redirected in place exactly when it starts with `http` and opened in a new tab otherwise |
| QrScanner.ScanActions | src/components/QRCodeScanner.tsx:16-26 | a scan triggers at most one action, and exactly one for non-empty text |
| QrScanner.ScanExamples | src/components/QRCodeScanner.tsx:20-24 | a URL redirects; `session` opens a tab; `httpish` redirects; upper-case `HTTP://` opens a tab; empty and `null` do nothing |
| QrScanner.Toggled | src/components/QRCodeScanner.tsx:33-35 | the toggle always changes the facing mode |
| QrScanner.ToggleTwice | src/components/QRCodeScanner.tsx:33-35 | toggling twice restores the mode |
| QrScanner.CameraLabel | src/components/QRCodeScanner.tsx:73 | the label is `Front` exactly for the rear camera and `Back` exactly for the front one |
| QrScanner.Scanner.constructor | src/components/QRCodeScanner.tsx:13-14 | no error, rear camera, no actions |
| QrScanner.Scanner.HandleScan | src/components/QRCodeScanner.tsx:16-26 | appends exactly the scan's actions and leaves error and camera alone |
| QrScanner.Scanner.HandleError | src/components/QRCodeScanner.tsx:28-31 | sets the fixed permission message whatever the error; camera and actions unchanged |
| QrScanner.Scanner.ToggleCamera | src/components/QRCodeScanner.tsx:33-35 | the mode becomes the toggled one; nothing else changes |
| QrScanner.Scanner.ButtonText | src/components/QRCodeScanner.tsx:73 | the button reads `Switch Camera (Front)` exactly while the rear camera is selected and `Switch Camera (Back)` exactly while the front one is |

## Findings

| source | as written | input that shows it | evidently intended | confidence | as-written member | corrected member |
|---|---|---|---|---|---|---|
| src/components/Timer.tsx:17-40 | `onComplete` is called only by the interval's updater, on a tick from 1 or below. The page lowers the timer's `duration` every second, and each change resets `timeLeft` and re-creates the interval. When the reset itself brings `timeLeft` to 0, no interval is created and nothing ends the session | start the session, then let the page's interval fire before the timer's every second, for 1201 seconds: the session is still active at 1201 s, nothing navigated, and the timer shows `-1:-1` | the session ends by itself once its 20 minutes are up ("Your session will last up to 20 minutes") | medium, not executed: it needs the page's interval to fire first in the last second, which the interval phases make likely but do not force | SessionClock.TimerMissesCompletion | SessionClock.FixedNeverOverruns |

The correction, `SessionClock.Settle`, has the timer call `onComplete` whenever it is running with `timeLeft` at or below 0, whether that value came from a tick or from a reset. With it, no interleaving lets an active session reach 1200 seconds (`SessionClock.FixedNeverOverruns`), and the schedule above ends on time (`SessionClock.FixedEndsOnTime`). The single-component `Timer` class keeps modelling the code as written.

## Left out

- `ElevenLabsAPI.tsx`, `ScanQRButton.tsx` and `Index.tsx`: the external voice API, a button wrapper and the landing page. They are not part of this model.
- Canvas drawing in `drawFrame`: grid lines, arcs, gradient geometry, and the `sin`/`cos` values of the sway and pulse. These are floating-point rendering; only the discrete constants and choices are modelled.
- The `requestAnimationFrame` loop, its cancellation and `requestIdRef`: browser scheduling. Only the guard deciding whether the loop starts is modelled.
- Real `setInterval` timing: intervals are explicit one-second steps. In `SessionClock` they may fire in any order, which over-approximates the browser's schedules.
- React internals:
  - effect ordering within a render;
  - batching;
  - StrictMode's double-invoked updaters;
  - the new `onComplete` identity on every render.
  
  The model treats each render as one atomic step.
- The optional call `onComplete?.()` with no handler: the page always passes one.
- `console.log` and `console.error` calls: output only.
- Real navigation, `window.location.href` and `window.open`: recorded as lists of routes and actions, not performed. The page's unmounting after `navigate('/')` is not modelled.
- The scanner's `onClose` prop and the scanning library's `delay` and constraints. These are foreign calls; scan and error results enter as parameters.
- The `className` props and the Tailwind configuration: styling only.
- Non-integer JavaScript numbers: all times are integers, as the intervals only ever add or subtract 1.
- CountdownTimer.Timer.Tick: the one-second step stands for the whole interval. The interval being cleared and re-created after every change of `timeLeft` is not modelled separately.
