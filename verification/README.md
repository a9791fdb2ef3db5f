# Bink racing game — a Dafny model of the race core

This project models the game logic of a small browser arcade racer. Four
racers race three laps around an elliptical track, and the player's finishing
time is posted to a bounded leaderboard. A lap counts when a racer's bearing
about the track centre wraps past 0. Racers start near bearing 1.5π, a
quarter turn before that line, so the first lap is about a quarter turn and
the whole race about two and a quarter turns. The model covers the parts of the game
that decide outcomes:

- **Track geometry** (`geometry.dfy`, module `Geometry`): angle normalisation,
  JavaScript's truncating `%` for `normalizeAngle`, `shortestAngle` with its two
  loops, `clamp`, and the ellipse value of an offset.
- **Surfaces** (`surface.dfy`, modules `Surface` and `SurfaceFacts`):
  `Track.surfaceAt`. It returns one of six fixed descriptors, chosen by the
  ordered overrides: off the outer margin, inside the infield, the detail band,
  the lane band, and the first boost pad hit.
- **Lap progress** (`racer.dfy`, module `LapProgress`): `Racer.updateLapProgress`
  and the `finished` guard of `Racer.update`, with an invariant for one
  racer's race state. Over a forward run, the laps counted equal the whole
  turns the bearing makes, up to the race length.
- **Stable sort** (`sort.dfy`, module `StableSort`): `Array.prototype.sort` with
  a numeric comparator, modelled as a stable insertion sort by key.
- **Leaderboard** (`leaderboard.dfy`, module `Leaderboard`): `push` (append,
  sort by time, keep the first `limit`), plus the truncation done by `load` and
  `save`.
- **Standings** (`standings.dfy`, module `Standings`): `Game.resolvePosition`.
  The player's place is its 1-based index in the field sorted by progress,
  highest first.
- **Race controller** (`game.dfy`, module `Race`): the constructor,
  `startRace`, `update` and `checkFinish`, as a phase machine
  idle → countdown → running → finished.
- **Time display** (`timeformat.dfy` and `text.dfy`, modules `TimeFormat` and
  `Text`): `formatTime`, with decimal rendering and `padStart(2, "0")`.

How inputs enter the model:

- JavaScript numbers are exact reals. `Math.PI` is the decimal literal
  3.141592653589793, so 2π is 6.283185307179586.
- `Math.sqrt`, `Math.atan2` and `Math.hypot` are not computed. Their results
  enter as parameters: the lane and detail distances, a position's bearing,
  and a racer's speed.
- A racer's steering, physics, movement and bounds clamping for one frame
  produce an `Observation`: the new bearing, the new speed, and whether the
  surface at the start of the frame was off track.
- A racer's progress in `resolvePosition` is `completedLaps` plus the
  normalised bearing of its position over 2π. That bearing is `lastAngle`:
  - every update ends by setting `lastAngle` from the position just reached;
  - set-up sets it from the start position;
  - a finished racer no longer moves.

## Model

| member | source | states |
|---|---|---|
| Geometry.NormalizeAngle | script.js:28-32 | The result lies in [0, 2π), is a whole number of turns away from the input, and equals the input when the input is already in range. |
| Geometry.NormalizeAngleUnique | script.js:28-32 | Any value in [0, 2π) that is a whole number of turns from the angle is the normalised angle, so normalisation picks the unique representative. |
| Geometry.ShortestAngle | script.js:688-693 | The difference `a - b` is brought into [-π, π], stays a whole number of turns from `a - b`, and is left unchanged when it is already within [-π, π]. |
| Geometry.ShortestAngleUnique | script.js:688-693 | Any value strictly between -π and π that is whole turns from `a - b` is the shortest difference. |
| Geometry.ShortestAngleLoop | script.js:688-693 | The two `while` loops as written terminate and compute the same value as `ShortestAngle`. |
| Geometry.Clamp | script.js:684-686 | With `min <= max` the result lies in [min, max], equals the value inside that range, and saturates at the bound it crossed; with `max < min` the result is `min`. |
| Geometry.EllipseValue | script.js:34-38 | The ellipse value of an offset, `dx²/rx² + dy²/ry²`, is never negative. |
| Geometry.EllipseOfUnit | script.js:34-38 | The offset `(rx·u, ry·v)` has ellipse value `u² + v²`: the ellipse is the unit circle stretched by its semi-axes, so its boundary is where the value is 1. |
| Geometry.EllipseScale | script.js:34-38 | Scaling an offset by `t` scales its ellipse value by `t²`, so the value grows along every ray from the centre. |
| Geometry.DistanceMatchesValue | script.js:46-50 | The lane distance, the non-negative root of the ellipse value, is below, equal to or above 1 exactly when the ellipse value is, so distance tests and value tests draw the same boundary. |
| Surface.FirstPadHit | script.js:114-122 | The `for … of` loop with `break` returns the first pad whose angular span and lane band contain the point, and no pad before it is hit; `None` means no pad is hit. |
| Surface.SurfaceAt | script.js:81-125 | Off track exactly when the point is beyond 1.015 of the outer ellipse or inside the infield, with the outer check first. On the track, the descriptor is the boost one exactly when some pad is hit. Without a pad it is the lane band, else the rough band, else the baseline. Grip is in (0, 1.25], top speed is positive, and boost is 0 or 230 and is 0 off track. |
| SurfaceFacts.LaneBandIsOnTrack | script.js:81-112 | Every point within 0.88 to 1.12 of the lane ellipse is strictly inside the outer boundary and outside the infield, so on track with grip ≥ 0.98 and top speed ≥ 255. |
| LapProgress.Fresh | script.js:281-288 | A racer placed on the track has no laps and is unfinished, and its race state satisfies the invariant. |
| LapProgress.UpdateLapProgress | script.js:372-390 | A lap is added exactly when the speed exceeds 60 and the bearing passes from beyond 1.5π to below 0.5π. Its time is appended to the history. The racer finishes exactly on the lap that reaches 3, with that tick's time as finish time, and stays finished. |
| LapProgress.Update | script.js:293-306 | A finished racer is left untouched; otherwise at most one lap is added. |
| LapProgress.UpdateKeepsValid | script.js:372-390 | With a clock that does not run backwards, one update keeps a racer's invariant: one ordered lap time per lap, at most three laps, finished iff three laps, finish time the third lap time. It finishes exactly on the tick its lap count reaches 3. |
| LapProgress.RunKeepsValid | script.js:293-306 | Over any run of updates with non-decreasing times the invariant holds at the end, laps never decrease and never exceed 3, and a finished racer never changes. |
| LapProgress.ForwardStepCountsWrap | script.js:372-390 | Above the lap speed, a forward step of less than a quarter turn from a normalised angle adds a lap exactly when it carries the angle past 2π; the new angle is the old one plus the step, less 2π when it wraps. |
| LapProgress.ForwardRunCountsWraps | script.js:372-390 | Over a run of ticks above the lap speed, each moving forward less than a quarter turn, the laps added are the whole turns the unwrapped bearing passes, capped at 3. |
| LapProgress.FreshRunCountsWraps | script.js:372-390 | A racer set up at its start bearing and driven forward as above has completed as many laps as multiples of 2π its unwrapped bearing has passed, up to 3. Laps are counted at bearing 0, not at the start bearing. |
| LapProgress.FreshRaceDistance | script.js:281-288 | From a start bearing `b` in [0, 2π), the first lap is complete exactly when the bearing has advanced `2π - b`, and the race exactly when it has advanced `6π - b`. `placeOnTrack` starts racers near 1.5π, so that is about a quarter turn and two and a quarter turns. |
| Standings.Progress | script.js:416-419 | With a normalised last angle, a racer's progress lies in [laps, laps + 1): the fraction of the current lap never reaches a whole lap, so a racer with more laps is always further ahead. |
| StableSort.Sort | script.js:448-451 | The sort returns a permutation of its input, ordered by key. |
| StableSort.SortIsStable | script.js:569-576 | Elements with equal keys keep their input order. |
| StableSort.SortAppend | script.js:448-451 | Sorting a sorted list with one entry appended inserts that entry after every entry whose key is not greater and before every greater one. |
| StableSort.SortOfSorted | script.js:448-451 | Sorting an already sorted list leaves it unchanged. |
| StableSort.CountBeforeSort | script.js:569-576 | Sorting does not change how many elements precede a given one. |
| Leaderboard.Take | script.js:451 | `slice(0, limit)` keeps min(length, limit) entries, and they are the list's leading entries. |
| Leaderboard.Load | script.js:429-438 | Nothing stored, or a failed read, gives an empty board; otherwise the stored list is kept in its order, cut to `limit`. |
| Leaderboard.Save | script.js:440-446 | What is written never exceeds `limit`, and a board within its limit is written whole. |
| Leaderboard.Push | script.js:448-454 | The result is sorted by time, has length min(old length + 1, limit), and holds only entries of the old board plus the new one. |
| Leaderboard.PushKeepsBest | script.js:448-454 | Every entry that push drops is at least as slow as every entry it keeps. |
| Leaderboard.PushPlacesStably | script.js:448-451 | On any board, sorted or not (a loaded board keeps its stored order), push equals the stably sorted old entries with the new entry inserted after every entry with a time not greater and before every slower one, then truncated. The new entry stays whenever it lands within the limit. |
| Leaderboard.PushIntoSorted | script.js:448-454 | On a sorted board, push places the new entry after all entries with a time not greater and before all slower ones, then truncates. The new entry stays on the board whenever it lands within the limit. |
| Leaderboard.SaveAfterPush | script.js:440-454 | After a push, saving writes back exactly the board's entries. |
| Standings.ResolvePosition | script.js:569-577 | The player's place is one plus the number of racers strictly ahead: more progress, or equal progress and earlier in the field. It lies between 1 and the field size. |
| Standings.PlaceIsCountAhead | script.js:569-577 | The index that `findIndex` returns in the stably sorted standings equals the number of racers ahead of the player. |
| TimeFormat.JsRem | script.js:674-676 | JavaScript's `%` takes the sign of the dividend, stays below the divisor in magnitude, and agrees with the mathematical remainder on non-negative dividends. |
| TimeFormat.JsRemOdd | script.js:674-676 | Negating the dividend negates JavaScript's `%`. With the non-negative case this fixes the value on negative dividends too. |
| TimeFormat.Decompose | script.js:671-676 | For a non-negative time, seconds are in [0, 60) and tenths in [0, 10). The clock reading is within the last 100 ms at or before the time: `Millis <= floor(1000·t) < Millis + 100`. |
| TimeFormat.Render | script.js:677 | For non-negative fields, the `MM:SS.t` text parses back to exactly the minutes, seconds and tenths it shows. |
| TimeFormat.FormatTime | script.js:671-678 | For every non-negative time, the displayed `MM:SS.t` text parses back to exactly the minutes, seconds and tenths computed from it. |
| TimeFormat.FormatTimeLength | script.js:671-678 | Under 100 minutes the display is exactly seven characters long. |
| Text.ParseNatToString | script.js:677 | The decimal digits `toString` prints for a natural number read back as that number. |
| Text.PadStart2Value | script.js:677 | `padStart(2, "0")` on a digit string keeps its value. |
| Race.NewGame | script.js:473-489 | A new game is idle with no racers, race time zero and place 1. It satisfies the controller invariant. Its leaderboard keeps at most six entries and is empty when nothing was stored. |
| Race.StartRace | script.js:491-542 | Starting a race gives four racers, each set up fresh (no laps, unfinished) at its own start bearing. The countdown is at 3 with its timer, the "GO!" timer and race time at zero, and the controller invariant holds. The board and the last place shown are kept. |
| Race.GoTimerAfter | script.js:557-559 | A positive "GO!" timer drops by `dt` but never below 0, reaching exactly 0 when `dt` covers it; a timer at or below 0 is left alone. |
| Race.Label | script.js:584 | The leaderboard name is `P`, the place's decimal digits, ` • ` and the date, in that order; for a non-negative place the digits read back as the place. |
| Race.CheckFinish | script.js:579-592 | The phase becomes finished exactly when the player has finished. On that first frame alone the board receives one push of the player's finish time, labelled with place and date; otherwise nothing changes. |
| Race.Tick | script.js:556-564 | The running branch advances the clock by `dt` and updates every racer at the new time. It sets the place to one plus the racers ahead and lowers the "GO!" timer toward 0. The race finishes exactly when the player has. |
| Race.Update | script.js:544-567 | Phases only advance idle→idle, countdown→countdown/running, running→running/finished, finished→finished. Idle and finished frames change nothing. The countdown drops by one per accumulated second and starts the race with "GO!" shown for 0.65 s when it reaches 0. Race time advances only while running. The board changes only on the finishing frame. |
| Race.UpdateKeepsValid | script.js:544-592 | Every frame with a non-negative `dt` keeps the controller invariant: every racer's state is valid, the place is in 1..4, the countdown is in 1..3, and the player is finished iff the race is. |
| Race.FinishedIsFinal | script.js:565-566 | Once finished, no sequence of frames changes the game. |
| Race.RunPushesOnce | script.js:579-592 | Over any run of frames the leaderboard is pushed at most once. It changes only if the run ends the race, and then by one push of the player's finish time. |
| Race.CountdownTakesThreeTicks | script.js:545-554 | From a fresh start, three frames of at least a second each start the race, with "GO!" up and the race clock at zero. |
| Race.CountdownWaitsForASecond | script.js:545-548 | During the countdown, a frame that leaves the accumulated time under a second only adds `dt` to it. |

## Left out

- Physics and control (`applyPhysics`, `controlPlayer`, `controlAI`, the position update): floating-point dynamics whose only effect on the race state is the per-frame `Observation`.
- `Track.clampToBounds`: it moves a racer back inside the track and scales its velocity by 0.45 or 0.35 (script.js:52-79). The model sees it only through the observed bearing and speed, and the speed decides whether a lap counts.
- `Track.angleFor`, `Track.laneDistance`, `Racer.speed` and `placeOnTrack`'s cos/sin: these use `atan2`, `sqrt`, `hypot` and trigonometry, so their results are parameters.
- Drawing, the HUD, overlays, the leaderboard's DOM rendering, the start button and `setTimeout`: presentation only.
- Browser storage and JSON: `load` receives the parsed stored list as an optional value, and `save` returns the list it would write.
- `new Date().toLocaleDateString()`: the date label is the frame's `today` parameter.
- `requestAnimationFrame` and the derivation of `dt` from timestamps: `dt` is an input, required to be non-negative because timestamps only grow.
- `readInputState` and keyboard handling: input devices are outside the race logic.
- IEEE-754 rounding: all arithmetic is exact over the reals.
- The racer's `distanceAccumulator` is updated as written but nothing reads it, so no property is stated about it.
- Geometry.EllipseValue: requires both semi-axes to be at least one unit. The source has no such guard, but the track's ellipses have semi-axes from 116 to 360. The contract states non-negativity; it does not state that the value is 0 only at the centre.
- TimeFormat.FormatTime: for negative times the fields are computed with JavaScript's operators, but no display property is claimed.
- Text.IntToString: the exponent notation `toString` uses for integers of 22 or more digits (at least 10^21) is not modelled.
- The range of `shortestAngle`: a shortest signed difference is often taken in (-π, π], but `shortestAngle` returns -π unchanged when `a - b` is exactly -π (script.js:688-693), so the model follows the code and states [-π, π].
- Race.Update: requires the controller invariant of its input, which every reachable game satisfies (`NewGame`, `StartRace` and `UpdateKeepsValid` establish and keep it). The source makes no such demand and would read `finishTime` as `null` on a state that breaks it.
