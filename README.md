# Jogging tracker core, modelled in Dafny

This project models the computational core of a jogging tracker web app.
The app records GPS fixes during a run, turns them into a distance, and
derives duration, pace and speed, live and when the session is completed.
It also keeps a small background queue that defers persistence writes.

The model covers three parts:

- **Trajectory distance** (`LocationService.dfy`, `LocationPermissionService.dfy`, `Haversine.dfy`).
  `locationService.calculateDistance` first applies a minimum-movement filter
  (`filterClosePositions`): a fix is kept only if it is at least 1 m from the
  last kept fix. It then sums the segments between consecutive kept fixes,
  counting a segment only when its length lies strictly between 0.1 m and 200 m.
  The second service's `calculateDistance` sums every segment, unfiltered.
  Both source loops are Dafny methods with loop invariants, proved equal to
  specification functions. The properties are lemmas about those functions.
- **Session records and metrics** (`SessionService.dfy`, `Decimal.dfy`).
  These cover creating, extending and completing a session, live stats with
  guards against dividing by zero, `formatDuration`, `formatPace`, totals over
  a session list, and the date-range filter. The source builds every record
  with object spread, so these are pure functions.
- **Background task queue** (`BackgroundTask.dfy`). A class holds the task
  array, the `isProcessing` flag and the recurring-timer handle, all updated in
  place. Its methods state the new state in terms of the old one.

`Types.dfy` holds the shared records `Position`, `JoggingSession` and `AppState`.

Modelling choices:

- **Haversine distance.** The formula is not modelled. Every distance operation
  takes a parameter `dist: DistanceFn`, a function of (lat1, lng1, lat2, lng2).
  The subset type states the only two facts assumed about it: it is never
  negative, and it is 0 between a point and itself. Because the parameter only
  receives coordinates, the models never read timestamps. Lemmas also prove
  this on whole tracks.
- **Numbers.** Coordinates, metres and paces are `real`. Clock readings and
  durations are `int` milliseconds (`Date.now()`). `Date.now()`,
  `Math.random()` and the generated ids are parameters.
- **Rounding and remainders.** `Math.floor(x / n)` for a positive `n` is
  Dafny's `/`. JavaScript's `%` truncates toward zero, which is written out as
  `JsRemainder`. `Math.round` is `Round`, which rounds halves up.
- **Segment window.** The code counts a segment only when 0.1 < d < 200
  (`segmentDistance < 200 && segmentDistance > 0.1`), so a segment of exactly
  0.1 m or of exactly 200 m is rejected.
- **The 0.1 m bound.** In `calculateDistance` every kept pair is already at
  least 1 m apart, so the lower bound never rejects anything there.
  `TotalDistanceTwoFixes` shows the effective window of [1 m, 200 m).

## Model

| member | source | states |
|---|---|---|
| `Haversine.SegmentLength` | src/services/locationService.ts:218-227 | the distance between two fixes reads only their coordinates, is never negative, and is 0 when the coordinates are equal |
| `Haversine.SumSegmentsConcat` | src/services/locationService.ts:153-177 | a sum over consecutive segments is additive: the whole track is its two parts plus the segment joining them |
| `LocationService.Filtered` | src/services/locationService.ts:186-213 | the kept list is no longer than the input, is empty exactly when the input is empty, and starts with the input's first fix |
| `LocationService.FilterClosePositions` | src/services/locationService.ts:186-213 | the push loop builds exactly the kept list of `Filtered` |
| `LocationService.FilteredIsSubsequence` | src/services/locationService.ts:192-209 | the kept fixes are an order-preserving subsequence of the input |
| `LocationService.FilteredKeepsInputFixes` | src/services/locationService.ts:192-209 | every kept fix is one of the input fixes |
| `LocationService.FilteredSpacing` | src/services/locationService.ts:193-204 | every kept fix after the first is at least `minDistance` from the fix kept before it |
| `LocationService.FilteredDropsOnlyCloseFixes` | src/services/locationService.ts:203-208 | a fix is skipped only when it lies within `minDistance` of the last kept fix, so the first fix is never skipped |
| `LocationService.FilteredStationary` | src/services/locationService.ts:192-209 | if all fixes share one latitude and longitude, exactly the first fix is kept |
| `LocationService.FilteredSameTrack` | src/services/locationService.ts:196-199 | two inputs with the same coordinates keep fixes with the same coordinates, whatever their timestamps |
| `LocationService.FilteredSnoc` | src/services/locationService.ts:192-209 | one more input fix adds itself at the end of the kept list, or adds nothing |
| `LocationService.SegmentContribution` | src/services/locationService.ts:172-176 | a segment contributes its whole length exactly when 0.1 < d < 200, and otherwise nothing, so segments of exactly 0.1 m or 200 m add nothing |
| `LocationService.CalculateDistance` | src/services/locationService.ts:141-181 | the loop returns the filtered, window-checked total; it is 0 for fewer than two fixes and never negative |
| `LocationService.TotalDistanceBounds` | src/services/locationService.ts:153-177 | the total is at least 0 and at most 200 m per input segment |
| `LocationService.TotalDistanceTwoFixes` | src/services/locationService.ts:144-177 | for two fixes the total is their distance when it lies in [1, 200), and 0 otherwise |
| `LocationService.TotalDistanceStationary` | src/services/locationService.ts:141-181 | fixes that never move give a total of 0 |
| `LocationService.TotalDistanceSameTrack` | src/services/locationService.ts:154-158 | the total depends only on coordinates, not on timestamps |
| `LocationService.TotalDistanceGrows` | src/services/locationService.ts:141-181 | appending a fix never lowers the total and raises it by less than 200 m |
| `LocationPermissionService.CalculateDistance` | src/components/services/LocationPermissionService.ts:118-139 | the loop returns the sum of the distances over every consecutive pair; it is 0 for fewer than two fixes and never negative |
| `LocationPermissionService.PathLengthSnoc` | src/components/services/LocationPermissionService.ts:123-136 | appending q to a non-empty track adds exactly the distance from the last fix to q |
| `LocationPermissionService.PathLengthConcat` | src/components/services/LocationPermissionService.ts:123-136 | the length of a joined track is the lengths of its parts plus the joining segment |
| `LocationPermissionService.PathLengthNonNegative` | src/components/services/LocationPermissionService.ts:121-136 | the unfiltered length is never negative |
| `LocationPermissionService.PathLengthStationary` | src/components/services/LocationPermissionService.ts:124-135 | fixes that never move have length 0 |
| `LocationPermissionService.PathLengthSameTrack` | src/components/services/LocationPermissionService.ts:124-135 | the length never depends on timestamps |
| `SessionService.CreateSession` | src/services/sessionService.ts:6-15 | a new session has the given id, starts now, has no end time, no positions, and zero distance, duration and pace |
| `SessionService.Elapsed` | src/services/sessionService.ts:20 | `Math.max(0, to - from)` is the larger of 0 and the difference |
| `SessionService.FinalEndTime` | src/services/sessionService.ts:19 | `endTime \|\| Date.now()`: a missing end time and an end time of 0 both fall back to now |
| `SessionService.Pace` | src/services/sessionService.ts:79-81 | pace is 0 without distance; otherwise pace times kilometres equals minutes; it is never negative for a non-negative duration |
| `SessionService.Speed` | src/services/sessionService.ts:82 | speed is 0 when pace is 0; otherwise speed times pace equals 60 |
| `SessionService.CompleteSession` | src/services/sessionService.ts:18-31 | the result has the end time set, the elapsed duration, the filtered distance and the pace; id, start time and positions are unchanged |
| `SessionService.CompletedMetrics` | src/services/sessionService.ts:18-31 | a completed session's duration, distance and pace are never negative; pace is 0 exactly when distance or duration is 0; otherwise pace times kilometres equals minutes |
| `SessionService.CompleteSessionIdempotent` | src/services/sessionService.ts:18-31 | completing a completed session again at the same end time gives the same record |
| `SessionService.CompleteTwoFixScenario` | src/services/sessionService.ts:6-31 | for a session created at 0, given two fixes 1–200 m apart and completed at 20000, the duration is 20000, the distance is their distance, and the pace matches |
| `SessionService.AddPositionToSession` | src/services/sessionService.ts:52-55 | the positions gain the new fix at the end; every other field, including the stale distance, is unchanged |
| `SessionService.AddPositionDistanceGrows` | src/services/sessionService.ts:52-55 | after adding a fix, the session's computed distance is no lower and less than 200 m higher |
| `SessionService.CalculateCurrentStats` | src/services/sessionService.ts:59-99 | the duration runs up to the pause time when paused and up to now otherwise, never below 0; pace and speed come from the filtered distance |
| `SessionService.LiveStatsConsistent` | src/services/sessionService.ts:67-98 | live stats are never negative; no distance gives pace 0 and speed 0; pace 0 gives speed 0; pace times speed is 60; speed is kilometres per hour |
| `SessionService.SpeedIsKilometresPerHour` | src/services/sessionService.ts:79-82 | for positive duration and distance, speed times hours equals kilometres |
| `SessionService.PausedDurationFrozen` | src/services/sessionService.ts:70-74 | while paused, the live stats do not depend on the clock |
| `SessionService.LiveStatsMatchCompletion` | src/services/sessionService.ts:67-82 | live stats taken at the end time of a running session agree with the completed session's duration, distance and pace |
| `SessionService.JsRemainder` | src/services/sessionService.ts:113-115 | JavaScript's `%` is the dividend minus the divisor times the quotient truncated toward zero; it equals Dafny's on a non-negative dividend, is never positive for a negative one, and is smaller than the divisor in magnitude |
| `Decimal.NatToString` | src/services/sessionService.ts:113-115 | `toString` of a natural number gives digits that read back as the number, one digit exactly below 10, and no leading zero from 10 on |
| `Decimal.IntToString` | src/services/sessionService.ts:113-115 | `toString` of an integer is the digits of a non-negative one, or "-" followed by the digits of the magnitude; the read-back of that text is stated in `Decimal.IntToStringReadsBack` |
| `Decimal.IntToStringReadsBack` | src/services/sessionService.ts:113-115 | the text starts with "-" exactly for a negative integer, and its digits read back as the magnitude |
| `Decimal.PadStart2` | src/services/sessionService.ts:113-115 | `padStart(2, '0')` leaves text of two or more characters alone, puts one "0" before a single character, and gives "00" for empty text |
| `Decimal.PadStart2Digits` | src/services/sessionService.ts:113-115 | `padStart(2, '0')` of a number below 100 gives two digits that read back as the number |
| `SessionService.FormatDuration` | src/services/sessionService.ts:107-116 | for ms >= 0 the text is at least "m:ss" long, and it has seven or more characters exactly from one hour on |
| `SessionService.FormatDurationReadsBack` | src/services/sessionService.ts:107-116 | for ms >= 0 the text has three fields from one hour on and two below; the first field has no leading zero; later fields are two digits below 60; the text reads back as the whole seconds of ms |
| `SessionService.Round` | src/services/sessionService.ts:130 | `Math.round` gives the integer within half of x, with halves rounded up |
| `SessionService.FormatPace` | src/services/sessionService.ts:127-132 | a pace of 0 prints "0:00" through the guard; every result is at least "m:ss" long |
| `SessionService.FormatPaceCarried` | src/services/sessionService.ts:127-132 | the corrected formatter keeps the guard, so a pace of 0 prints "0:00"; every result is at least "m:ss" long |
| `SessionService.FormatPacePrintsSixty` | src/services/sessionService.ts:127-132 | as written, a positive pace whose fraction of a minute is at least 119/120 prints the seconds field "60" |
| `SessionService.FormatPaceExample` | src/services/sessionService.ts:127-132 | as written, a pace of 4.995 prints "4:60" |
| `SessionService.FormatPaceCarriedReadsBack` | src/services/sessionService.ts:127-132 | the corrected formatter prints "m:ss" with seconds below 60, and the text reads back as the pace rounded to whole seconds |
| `SessionService.FormatPaceCarriedAgrees` | src/services/sessionService.ts:127-132 | wherever the source prints seconds below 60, the corrected formatter prints the same text |
| `SessionService.CalculateOverallStats` | src/services/sessionService.ts:140-158 | the count is the list length, distance and duration are sums, and the average pace is the mean pace, or 0 for no sessions |
| `SessionService.SumsConcat` | src/services/sessionService.ts:146-150 | the totals over two joined lists are the sums of their totals |
| `SessionService.MeanPaceBetween` | src/services/sessionService.ts:148-150 | the average pace lies between the smallest and largest session pace |
| `SessionService.TotalsNonNegative` | src/services/sessionService.ts:146-150 | sessions with non-negative metrics give non-negative totals and average |
| `SessionService.FilterSessionsByDateRange` | src/services/sessionService.ts:161-166 | the result is no longer than the input, and every session in it starts within [start, end] |
| `SessionService.FilterByDateRangeKeeps` | src/services/sessionService.ts:161-166 | the filter keeps exactly the sessions that start within [start, end], inclusive, as an order-preserving subsequence |
| `SessionService.FilterByDateRangeConcat` | src/services/sessionService.ts:161-166 | filtering a joined list filters each part, so the original order is kept |
| `SessionService.FilterByDateRangeIdempotent` | src/services/sessionService.ts:161-166 | filtering twice by the same range is the same as filtering once |
| `BackgroundTask.SupportedBackend` | src/services/backgroundTask.ts:186-192 | the reported back end is "scheduler" exactly when the Scheduler API exists, otherwise "requestIdleCallback" exactly when that exists, otherwise "setTimeout" |
| `BackgroundTask.BackgroundTaskService.constructor` | src/services/backgroundTask.ts:11-13 | a new service has an empty queue, is not processing, and has no timer |
| `BackgroundTask.BackgroundTaskService.ScheduleTask` | src/services/backgroundTask.ts:18-31 | adds the task at the tail. During a drain it only waits in the queue; otherwise the queue, task included, runs in FIFO order and ends empty and idle |
| `BackgroundTask.BackgroundTaskService.ScheduleRecurringTask` | src/services/backgroundTask.ts:53-71 | schedules the task once under its own inner id, records the timer handle, and returns the separate recurring id |
| `BackgroundTask.BackgroundTaskService.ProcessQueue` | src/services/backgroundTask.ts:76-94 | does nothing while processing or with an empty queue; otherwise runs every queued task once, head first, and resets the flag even when tasks throw |
| `BackgroundTask.BackgroundTaskService.Drain` | src/services/backgroundTask.ts:99-114 | removes tasks from the head until the queue is empty; each task runs exactly once, in order, and a throwing task is logged without stopping the loop |
| `BackgroundTask.BackgroundTaskService.GetQueueStatus` | src/services/backgroundTask.ts:186-199 | reports pending equal to the queue length, processing equal to the flag, and the supported back end; changes nothing |
| `BackgroundTask.BackgroundTaskService.ClearQueue` | src/services/backgroundTask.ts:204-210 | empties the queue, clears the timer handle, and leaves the flag alone |
| `BackgroundTask.BackgroundTaskService.Cleanup` | src/services/backgroundTask.ts:215-218 | empties the queue, clears the timer handle, and resets the flag to not processing |

## Left out

- The Haversine trigonometry (src/services/locationService.ts:160-167, 218-227). It is floating point, so the model replaces it with the abstract `DistanceFn`. Claims about numeric accuracy, such as the 111,195 m for one degree, are outside the model.
- Floating-point rounding in general. `real` is exact, so `Math.round` and the pace and speed divisions are modelled exactly. A real is never NaN or infinite, so `formatPace`'s `isFinite` test has no counterpart.
- The permission and geolocation API of both location services (`checkLocationPermission`, `requestLocationPermission`, `startWatching`, `stopWatching`, `setupPermissionListener`). These are browser I/O and callbacks.
- `formatDistance` (`Math.round` / `toFixed`), `formatDate` and `getRecentSessions`. These depend on locale and on `Date`. `generateSessionId` is random, so the id is a parameter.
- `filterSessionsByDateRange` with an invalid `Date`. The bounds are modelled as millisecond numbers.
- `BackgroundTask.BackgroundTaskService.ProcessQueue`: the asynchronous scheduling is not modelled (`scheduler.postTask`, `requestIdleCallback`, `setTimeout`, promises). The drain runs to completion inside the call, in the order both back ends run tasks. In the fallback path the source resets `isProcessing` after the first task while idle callbacks drain the rest. That interleaving is not captured. Because the drain completes inside the call, `isProcessing` is false after every method, so the `old(isProcessing)` branches of `ScheduleTask`, `ScheduleRecurringTask` and `ProcessQueue` are reached only when the field is set directly.
- `BackgroundTask.BackgroundTaskService.ScheduleTask`: a task is its id, priority and whether it throws. What a task does is not modelled, so a task cannot schedule further tasks during the drain. Running a task is recorded in the ghost logs `executed` and `failed`.
- `scheduleDelayedTask` and `setupAutoSave`. These only hand `scheduleTask` to `setTimeout` or `scheduleRecurringTask` and touch no queue state themselves. The repeated runs of a recurring timer are also not modelled.
- `calculateCurrentStats` takes `startTime` and `pausedTime` from its caller (src/services/sessionService.ts:59-74), so any shifting of the start time after a pause happens outside the modelled files.
- Storage (src/services/storageService.ts), the React hooks and the UI components are not part of this model.

## Findings

| source | as written | input that shows it | evidently intended | confidence | as-written member | corrected member |
|---|---|---|---|---|---|---|
| src/services/sessionService.ts:129-131 | `formatPace` rounds the leftover fraction of a minute to seconds without carrying, so the seconds can round up to 60 | pace 4.995 min/km prints "4:60" | "5:00": seconds below 60, with the carry added to the minutes | high; derived from the code, not executed | `SessionService.FormatPacePrintsSixty` | `SessionService.FormatPaceCarriedReadsBack` |
