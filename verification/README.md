# ECG day quiz — a Dafny model of the trace engine and the quiz

This project models the two sequential cores of a quiz game. The game shows a
heart-monitor trace and asks the player what the person is doing at each of
six times of day.

- **The trace engine** (`components/ECGMonitor.tsx`). One animation frame
  does four things. It advances the phase clock at a speed that depends on
  the activity. It generates one amplitude sample. It pushes that sample into
  a rolling buffer of 801 points. It maps the buffer to canvas pixels, which
  gives a polyline and a leader dot. The sample is a piecewise function of
  the cycle position for sleeping, walking and sprinting. For the crisis
  rhythm it is one of three erratic patterns, and a two-second bucket of the
  wall clock picks which one.
- **The quiz** (`App.tsx`). These are starting a game, answering a round,
  and the two delayed callbacks: "get ready" → playing, and the resolution of
  an answer. They are pure functions over the game state. Each timer is a
  value that carries what its callback captured. `App` pairs the game state
  with the one pending timer.
- **The tables** (`constants.ts`, `types.ts`). These are the number of
  rounds, the day's schedule, the rate of each activity and the fact shown
  for each activity, together with the data types.

Modules and files:

| file | module | models |
|---|---|---|
| `js_numbers.dfy` | `JsNumbers` | JavaScript's `%` on reals and on integers, `Math.PI`, a bounded stand-in for `Math.sin` |
| `types.dfy` | `Types` | `ActivityLevel`, `GamePhase`, the feedback record, `GameState`, `DayEvent` |
| `constants.dfy` | `Constants` | `MAX_ROUNDS`, `DAILY_SCHEDULE`, `BPM_MAP`, `SCIENTIFIC_FACTS` and the facts about them |
| `waveform.dfy` | `Waveform` | `generateHeartbeat`: the regular cycle's segments and the crisis patterns |
| `monitor.dfy` | `Monitor` | pre-fill, push/shift, cycle speed, phase update, one `draw` frame, point-to-pixel mapping, the frame loop |
| `quiz.dfy` | `Quiz` | `startGame`, `handleChoice`, both timer callbacks, and the application's inductive invariant |

Numbers are Dafny `real`s and `int`s, not IEEE doubles. `Math.sin` is a
parameter of subset type `Sine`, meaning any function whose values stay in
[-1, 1]. `Math.random()` and `Date.now()` are parameters of the frame.
`Math.PI` is the exact value of the double nearest to pi, written out in
full (3.141592653589793115997963468544185161590576171875).

Behaviours worth noting:

- A frame that finds no canvas or 2D context returns before updating
  anything and schedules no further frame, so the loop ends
  (components/ECGMonitor.tsx:55-58, 122). `Monitor.Draw` returns `Stopped`
  for it, and `Monitor.RunFrames` draws nothing after it.
- The leader dot is drawn at x = canvas width, not at the last sample's x.
  The two agree only for the 1200-pixel canvas and a full buffer of 801
  points, which is the configuration the component always has
  (`Monitor.TraceSpansCanvas`).
- The resolution callback of an answer uses the round index and verdict
  captured when the answer was given (a stale closure), not the values at
  the time it fires. `Quiz.Timer` carries the captured values. `Quiz.Inv`
  proves that they always equal the current ones, because a timer is only
  scheduled when none is pending.

## Model

| member | source | states |
|---|---|---|
| `Constants.ScheduleHasOneEventPerRound` | constants.ts:4-13 | the schedule has exactly `MAX_ROUNDS` = 6 entries |
| `Constants.Bpm` | constants.ts:15-20 | the rate looked up for an activity comes from `BPM_MAP`; it is 0 exactly for CRISIS |
| `Constants.BpmMapTotal` | constants.ts:15-20 | `BPM_MAP` has an entry for all four activities, and only CRISIS maps to 0 (no defined rate) |
| `Constants.RatesIncreaseWithExertion` | constants.ts:15-18 | SLEEPING 60 < WALKING 100 < SPRINTING 170 |
| `Constants.FactsCoverEveryActivity` | constants.ts:22-27 | every activity has a fact, and no fact is empty |
| `Constants.ScheduleIsChronological` | constants.ts:6-13 | every schedule time is a well-formed HH:MM value with hour < 24 and minute < 60, and the times strictly increase through the day |
| `JsNumbers.Mod1` | components/ECGMonitor.tsx:69 | `x % 1.0` lies in [0,1) for non-negative x and in (-1,0] for negative x |
| `JsNumbers.Mod1Periodic` | components/ECGMonitor.tsx:42 | on non-negative reals `% 1.0` repeats with period one |
| `JsNumbers.Rem` | components/ECGMonitor.tsx:37 | JavaScript's integer `%`: the dividend minus the result is a multiple of the modulus, and the result has the sign of the dividend and magnitude below the modulus, which together fix it uniquely |
| `Waveform.Wave` | components/ECGMonitor.tsx:42-51 | a regular sample lies in [-8, 36], equals the peak 36 at 0.32, and is 0 on every baseline segment |
| `Waveform.BreaksPartitionCycle` | components/ECGMonitor.tsx:43-51 | the segment breakpoints start at 0, end at 1 and strictly increase, so the segments tile [0,1) with no gaps or overlaps |
| `Waveform.SegmentAtMatchesTable` | components/ECGMonitor.tsx:42-51 | every position in [0,1) falls in one interval of the breakpoint table, and the generator's chain of comparisons selects that interval's segment |
| `Waveform.WaveBumps` | components/ECGMonitor.tsx:44-50 | the P wave on [0.1,0.2) stays in [-5, 5] and the T wave on [0.45,0.6) in [-8, 8] |
| `Waveform.FlatStretches` | components/ECGMonitor.tsx:43-51 | the output is exactly 0 on [0,0.1), [0.2,0.25), [0.35,0.45) and [0.6,1) |
| `Waveform.LinearPieces` | components/ECGMonitor.tsx:46-48 | the linear pieces lie in (-4,0], [-4,36) and (21,36], start at 0, and join continuously at 0.27 (value -4) and 0.32 (value 36) |
| `Waveform.RecoveryCutOff` | components/ECGMonitor.tsx:48-49 | the fall from the peak reaches only 21 at 0.35, where the output drops back to 0 |
| `Waveform.PatternAt` | components/ECGMonitor.tsx:37-40 | for a non-negative clock, pattern 0, 1 or 2 is chosen exactly when `floor(now/2000)` leaves that remainder modulo 3 |
| `Waveform.PatternStableWithinBucket` | components/ECGMonitor.tsx:37 | the crisis pattern is constant within a two-second bucket of the clock |
| `Waveform.PatternsRotate` | components/ECGMonitor.tsx:37 | from the epoch on, each bucket shows the next of the three patterns, two consecutive buckets differ, and the cycle repeats every 6 s |
| `Waveform.NoFastSineBeforeEpoch` | components/ECGMonitor.tsx:37-40 | for a negative clock the truncating `%` never selects the fast-sine pattern |
| `Waveform.CrisisSample` | components/ECGMonitor.tsx:38-40 | for `random` in [0,1): pattern 0 lies in [-22.5, 22.5) and pattern 2 in [-2.5, 2.5); pattern 1 lies in [-20, 20] |
| `Waveform.CrisisFollowsClock` | components/ECGMonitor.tsx:36-40 | a crisis sample lies in the band of the pattern `floor(now/2000) % 3` selects, and only the fast-sine pattern depends on the phase |
| `Waveform.Heartbeat` | components/ECGMonitor.tsx:35-51 | a regular sample lies in [-8, 36]; a crisis sample with `random` in [0,1) lies in [-22.5, 22.5) |
| `Waveform.RegularSampleDependsOnPhaseOnly` | components/ECGMonitor.tsx:35-51 | a regular sample ignores the rate, the clock and the random draw, and for t in [0,1) it is the cycle waveform at t |
| `Waveform.RegularSamplePeriodic` | components/ECGMonitor.tsx:42 | the regular waveform repeats every whole cycle of phase |
| `Monitor.PreFill` | components/ECGMonitor.tsx:25-29 | an empty buffer becomes exactly 801 zeros; a non-empty one is kept |
| `Monitor.Mount` | components/ECGMonitor.tsx:17-29 | a new session has phase 0 and 801 zero samples, and is valid |
| `Monitor.Push` | components/ECGMonitor.tsx:72-76 | the buffer after a push is a suffix of old + [y] that ends in y and has dropped at most the oldest sample; it grows by one only while below capacity |
| `Monitor.PushOnFullBuffer` | components/ECGMonitor.tsx:72-76 | on a full buffer a push gives `old[1..] + [y]`: the length stays 801, the oldest leaves, every other sample moves one place forward |
| `Monitor.PushAllKeepsWindow` | components/ECGMonitor.tsx:72-76 | after any number of pushes a full buffer holds exactly the last 801 samples of its history, oldest first |
| `Monitor.RateSpeedStrictlyIncreasing` | components/ECGMonitor.tsx:68 | the per-frame increment `(bpm/60)*0.012` strictly increases with the rate |
| `Monitor.CycleSpeed` | components/ECGMonitor.tsx:64-68 | the increment is 0.04 for CRISIS and 0.0002 per beat per minute otherwise, always in (0,1) |
| `Monitor.CycleSpeedsOfActivities` | components/ECGMonitor.tsx:68 | SLEEPING 0.012 < WALKING 0.02 < SPRINTING 0.034 < CRISIS 0.04 |
| `Monitor.NextPhase` | components/ECGMonitor.tsx:69 | the new phase lies in [0,1); from a phase in [0,1) with an increment below one it wraps at most once |
| `Monitor.PixelY` | components/ECGMonitor.tsx:62-103 | a sample's pixel row is `h*(200-v)/400`, the same as `midY - v*(h/400)`: zero is on the mid-line and positive samples are drawn above it |
| `Monitor.Plot` | components/ECGMonitor.tsx:101-109 | one vertex per sample, vertex i at x = i*1.5 and at the pixel row of sample i |
| `Monitor.PixelYInvertible` | components/ECGMonitor.tsx:103 | on a canvas of positive height the sample can be read back from its pixel row |
| `Monitor.PixelYInsideCanvas` | components/ECGMonitor.tsx:103 | a sample is drawn inside the canvas iff it lies in [-200, 200]; zero is drawn on the mid-line |
| `Monitor.Render` | components/ECGMonitor.tsx:99-120 | vertex i of the polyline is at x = i*1.5 and y = midY - v_i*(h/400); the leader dot exists iff the buffer is non-empty and sits at x = canvas width, at the newest vertex's height |
| `Monitor.TraceSpansCanvas` | components/ECGMonitor.tsx:101-118 | the polyline starts at x = 0 and strictly increases in x; the last of 801 points lands at x = 1200, the canvas width, where the leader dot is |
| `Monitor.Draw` | components/ECGMonitor.tsx:54-76 | a frame without a canvas stops the loop and changes nothing; otherwise it advances the phase, pushes one sample and paints the new buffer, keeping a valid session valid |
| `Monitor.DrawAppendsHeartbeat` | components/ECGMonitor.tsx:64-72 | the newest sample is the generator's value at the new phase for the activity current at that frame |
| `Monitor.SwitchingActivityKeepsTrace` | components/ECGMonitor.tsx:64-76 | a change of activity does not reset or cut the buffer; frames for different activities differ only in the newest sample |
| `Monitor.TraceStaysOnCanvas` | components/ECGMonitor.tsx:99-109 | every vertex of a valid session's polyline lies within the canvas height |
| `Monitor.RunFrames` | components/ECGMonitor.tsx:54-122 | the frame loop: a drawn frame schedules the next one and a frame without a canvas ends it, so a run stops exactly when some frame has no canvas |
| `Monitor.RunFramesKeepsValid` | components/ECGMonitor.tsx:54-76 | any run of frames from a valid session keeps the phase in [0,1) and the buffer at 801 samples in range, and stops exactly when a frame finds no canvas |
| `Monitor.Animate` | components/ECGMonitor.tsx:54-122 | the loop from mounting returns exactly what folding `Draw` over the frames gives, up to the first frame without a canvas; the result is valid, and the loop stopped iff some frame had no canvas |
| `Quiz.StartGame` | App.tsx:21-27 | a new game has score 0, round 0 and phase READY, and the feedback is unchanged |
| `Quiz.FactFor` | App.tsx:37 | the fact looked up for an answer is the activity's non-empty fact |
| `Quiz.Scored` | App.tsx:41 | +10 for a correct answer, `max(0, score-5)` for a wrong one, never negative from a non-negative score |
| `Quiz.HandleChoice` | App.tsx:33-49 | a choice while feedback shows changes nothing; otherwise `isCorrect` holds iff the choice is the round's activity, the message is that activity's fact or the retry text, the score is updated, round and phase are kept, and a resolution capturing the verdict and round is scheduled |
| `Quiz.Resolve` | App.tsx:53-64 | feedback is hidden in every branch; correct on round >= MAX_ROUNDS-1 finishes, correct otherwise advances the round, wrong changes neither round nor phase |
| `Quiz.Fire` | App.tsx:28-65 | the "get ready" timer sets phase PLAYING and keeps score, round and feedback; a resolution timer hides the feedback, keeps the score and resolves with its captured values |
| `Quiz.StartGameThenPlay` | App.tsx:21-30 | after a start and the "get ready" timer the game is PLAYING from round 0 with score 0, feedback untouched |
| `Quiz.FinishOnlyOnLastCorrect` | App.tsx:54-55 | FINISHED is entered only through a correct answer captured on the last round |
| `Quiz.Offered` | App.tsx:95-182 | which inputs each screen accepts: the intro and final screens show only the start button, the "get ready" screen no button, the playing screen only the answer buttons; a pending timer may fire on any screen |
| `Quiz.AppStep` | App.tsx:19-65 | an input the screen does not offer, a tick with no pending timer, and a choice while feedback shows change nothing; a start runs `startGame` and schedules the ready timer; a choice runs `handleChoice` and schedules a resolution capturing the verdict and round; a tick fires the pending timer and clears it |
| `Quiz.InitialAppValid` | App.tsx:8-17 | the application starts on the intro screen with score 0 in a state satisfying the invariant |
| `Quiz.AppStepPreservesInv` | App.tsx:19-65 | every input keeps `0 <= currentRoundIndex <= MAX_ROUNDS-1`, a non-negative score that is a multiple of 5, and the pending timer consistent with the screen; a timer is scheduled only when none is pending |
| `Quiz.RoundAdvancesOnlyOnCorrect` | App.tsx:56-61 | apart from a restart, the round changes only by +1, when the resolution of a correct answer on the current round fires |
| `Quiz.AppFinishesOnlyOnLastCorrect` | App.tsx:54-55 | the application reaches FINISHED only when the resolution of a correct answer on round MAX_ROUNDS-1 fires |
| `Quiz.Run` | App.tsx:19-65 | applying a sequence of inputs one step at a time from a valid state always reaches a valid state |
| `Quiz.RunAppend` | App.tsx:19-65 | running a sequence and then one more input is the same as running the longer sequence, so every prefix of a session is a run from the start |
| `Quiz.ReachableStatesValid` | App.tsx:8-65 | every state reachable from the initial one, after every prefix of any input sequence, satisfies the invariant |
| `Quiz.Play` | App.tsx:19-65 | the session's final state is exactly the run of its inputs from the initial state; the round indexes `DAILY_SCHEDULE`, the score is a non-negative multiple of 5, and feedback shows exactly while a resolution is pending |

## Left out

- React hooks and refs, and the `requestAnimationFrame` / `cancelAnimationFrame` scheduling (components/ECGMonitor.tsx:25-33, 122-128). These are framework lifecycle. One frame is the pure function `Monitor.Draw`, and the loop is `Monitor.RunFrames` (run by `Monitor.Animate`) over a sequence of frame inputs. The activity is read afresh on every frame.
- Canvas 2D drawing calls: background fill, grid lines, stroke styles, glow and line joins (components/ECGMonitor.tsx:78-97, 110-119). These are foreign side effects. Only the coordinates of the polyline and the leader dot are kept.
- IEEE-754 rounding and the true values of `Math.sin`. The model uses exact reals, and `Math.sin` is only known to stay in [-1, 1]. So the P and T waves are known only through their bounds (`Waveform.WaveBumps`).
- `Math.random()` and `Date.now()` are not sources of values. They are parameters of each frame.
- The `setTimeout` delays of 1800, 3000 and 4000 ms (App.tsx:28-30, 51-65). Wall-clock timing is replaced by the `TimerElapses` input, which fires the single pending timer.
- JSX, CSS, labels and the display strings of the screens (App.tsx:68-231, components/ECGMonitor.tsx:130-160), as well as `ECG_COLORS` (constants.ts:29-33). These are presentational. The only display text the model keeps is the data in constants.ts and the retry message, stored as opaque strings.
- `Quiz.Offered` follows the screen. The start button appears only on the intro and final screens, and the answer buttons appear only on the playing screen. Their `disabled` flag while feedback shows is not modelled, because `handleChoice` ignores such a click anyway.
- `Quiz.HandleChoice` and `Quiz.AppStep` require the round to index the schedule. The code would fail on an out-of-range round when it reads the round's activity. `Quiz.AppStepPreservesInv` proves that this never happens.
- `JsNumbers.Mod1`: for negative x only the range (-1, 0] is stated, not that x - r is a whole number. Phases are never negative, so the model never relies on that case.
- `Waveform.Wave`: its contract bounds the whole cycle by [-8, 36]. With an abstract sine, `Waveform.WaveBumps` bounds the P and T waves by [-5, 5] and [-8, 8], but their shape and their joins at 0.1, 0.2, 0.45 and 0.6 are not stated.
