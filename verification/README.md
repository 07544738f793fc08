# PocketRunner run session, modelled in Dafny

PocketRunner times a running session on Android. `RunManager` owns one run. It has a
start/stop button and a lap/done button, a chronometer that can pause and resume,
the list of lap times, an alarm that fires once (by distance covered or by elapsed
time), and the hand-off of the finished run to the database.

The model turns that class into an immutable `Session` record and pure transition
functions. Each transition takes the clock value at which it happens and returns
the next session plus the ordered side effects it causes:

- `AlarmShown` stands for the alert dialog together with the vibration.
- `RunSaved(record)` stands for the run added to the database.

Files:

- `chronometer.dfy` (module `Chronometer`): the chronometer as a base instant, a
  counting flag and the reading it shows while stopped. The chronometer's own code
  is not part of this model, so the model makes two assumptions about it. While
  counting, its reading at clock value `now` is `now - base`. While stopped, the
  reading stays at its value at the stop, and it is zero before the first start.
  Ticks reach the session only while the chronometer is counting.
- `run_manager.dfy` (module `RunManager`): the configuration snapshot, the run
  record, the session, and every operation of the class. `getLapCount`, `isDone`
  and `showStop` read the `lapCount`, `done` and `running` fields of `Session`.
- `run_traces.dfy` (module `RunTraces`): traces of commands (start/stop, lap, tick,
  preference refresh), each with its clock value. It proves the properties that
  hold along every trace.
- `scenarios.dfy` (module `RunScenarios`): fixed command sequences, for any clock
  values. They cover the usual alarm scenarios, the two projections, a finish
  before the first start, a finish after a pause, and a lap pressed after the run
  has finished.

The code has no guard against commands on a finished session. After `done` is set,
a further lap press still adds a lap. If the session is paused, that press saves a
second record (`RunScenarios.LapAfterFinishSavesAgain`). The start/stop button still
restarts the chronometer, and the preferences can still be replaced.

Each lap entry is the previous lap reading minus the current reading, as in the
code. While the clock runs forward, that entry is never positive, even for laps
pressed after the finish (`RunTraces.LapEntriesNonPositive`).

## Model

`RunManager.DistanceRun` (line 163) and `RunManager.Record` (the run built at lines
144-154) are helpers. The `RunManager.LapClicked` row states the fields of the saved
record, and `RunTraces.RunTracksDistance` states how the distance follows the lap
presses.

| member | source | states |
|---|---|---|
| RunManager.Init | app/src/main/java/com/foxtailgames/pocketrunner/RunManager.java:56-72 | a new session has no laps, all flags cleared, a zero restart offset, a stopped chronometer reading zero at every instant, and satisfies the session invariant |
| RunManager.UpdatePreferences | app/src/main/java/com/foxtailgames/pocketrunner/RunManager.java:85-97 | only the configuration snapshot is replaced; laps, flags, chronometer and alarm latch are untouched and the invariant is kept |
| RunManager.Start | app/src/main/java/com/foxtailgames/pocketrunner/RunManager.java:99-102 | the restarted chronometer counts and reads exactly minus the stored offset at the restart instant; nothing else changes |
| RunManager.Stop | app/src/main/java/com/foxtailgames/pocketrunner/RunManager.java:104-107 | counting stops and the reading stays at its value at the stop instant; for a counting chronometer the stored offset is minus that reading |
| RunManager.Reset | app/src/main/java/com/foxtailgames/pocketrunner/RunManager.java:109-111 | after a reset, a start at any instant reads zero; only the offset changes |
| RunManager.StopClicked | app/src/main/java/com/foxtailgames/pocketrunner/RunManager.java:113-129 | from running it pauses, keeps `started`, freezes the reading and stores its negation as the offset. Otherwise it sets `running` and `started` and reads zero on the first start, or resumes from the offset. The offset is reset only on the first start. Laps, `done` and the alarm are unchanged and the invariant is kept |
| RunManager.LapClicked | app/src/main/java/com/foxtailgames/pocketrunner/RunManager.java:131-163 | exactly one lap is counted and one entry appended (previous lap reading minus current reading); the lap reading becomes the current reading and the distance grows by one lap length. The alarm is shown iff alarming by distance, the new distance reaches the threshold and the latch was open, and it comes before any save. Not running means done. A record (distance, units, final lap reading, all entries in order) is saved iff not running and the reading is positive |
| RunManager.TriggerAlarm | app/src/main/java/com/foxtailgames/pocketrunner/RunManager.java:190-221 | the latch ends up set, nothing else changes, and the alarm is shown iff the latch was open |
| RunManager.Tick | app/src/main/java/com/foxtailgames/pocketrunner/RunManager.java:75-82 | a tick shows the alarm iff alarming by time, the threshold is at most the reading, and the latch was open; only the latch can change |
| RunManager.RemainingText | app/src/main/java/com/foxtailgames/pocketrunner/RunManager.java:165-177 | distance mode shows covered distance (laps times lap length), threshold and units; time mode shows the configured time threshold |
| RunManager.AverageSpeed | app/src/main/java/com/foxtailgames/pocketrunner/RunManager.java:181-188 | the pace is zero when the lap length or the lap count is zero, else it times the distance covered equals the latest lap reading (so the divisor is never zero) |
| RunTraces.ApplyStep | app/src/main/java/com/foxtailgames/pocketrunner/RunManager.java:113-161 | one command never clears `started`, `done` or the alarm latch, keeps the invariant, and shows the alarm exactly when it sets the latch |
| RunTraces.RunKeepsInvariant | app/src/main/java/com/foxtailgames/pocketrunner/RunManager.java:59-71 | along any trace the lap count equals the number of lap entries, running implies started, the chronometer counts iff running, and `started`, `done` and the latch are never cleared |
| RunTraces.RunShowsAlarmOnce | app/src/main/java/com/foxtailgames/pocketrunner/RunManager.java:190-192 | along any trace the alarm is shown exactly once if the latch went up and never otherwise |
| RunTraces.SessionShowsAlarmAtMostOnce | app/src/main/java/com/foxtailgames/pocketrunner/RunManager.java:68 | a session shows the alarm at most once over its whole life |
| RunTraces.TriggerAlarmLatched | app/src/main/java/com/foxtailgames/pocketrunner/RunManager.java:190-192 | calling the trigger any positive number of times shows the alarm once if the latch was open, never if it was set, and only sets the latch |
| RunTraces.RunCountsLaps | app/src/main/java/com/foxtailgames/pocketrunner/RunManager.java:136-137 | along any trace the lap count and the number of entries grow by exactly the number of lap presses, and earlier entries are kept as a prefix |
| RunTraces.QuietKeepsClock | app/src/main/java/com/foxtailgames/pocketrunner/RunManager.java:75-97 | ticks and preference refreshes never touch the chronometer, the offset, or the running and started flags |
| RunTraces.PauseResumeContinuity | app/src/main/java/com/foxtailgames/pocketrunner/RunManager.java:99-107 | after a pause the reading stays at its value at the pause, for any ticks or refreshes in between, and a later resume starts again from exactly that value, however much clock time passed |
| RunTraces.ApplyKeepsLapsBehind | app/src/main/java/com/foxtailgames/pocketrunner/RunManager.java:99-138 | with the clock moving forward, any command keeps every entry non-positive, the latest lap reading at most the current reading, a stopped chronometer showing minus the offset, and a zero offset before the first start; the reading after the command is at least the reading before it |
| RunTraces.RunKeepsLapsBehind | app/src/main/java/com/foxtailgames/pocketrunner/RunManager.java:136-138 | the same along a whole trace |
| RunTraces.RunReadingNeverDecreases | app/src/main/java/com/foxtailgames/pocketrunner/RunManager.java:99-129 | along any trace whose clock never runs backwards, the reading at the last command is at least the reading at the start, across any pauses and resumes |
| RunTraces.ReadingNeverNegative | app/src/main/java/com/foxtailgames/pocketrunner/RunManager.java:113-129 | from a new session with a forward-moving clock, the reading is never below zero |
| RunTraces.LapEntriesNonPositive | app/src/main/java/com/foxtailgames/pocketrunner/RunManager.java:137-138 | from a new session with a forward-moving clock, every lap entry (old reading minus new) is at most zero, whatever the commands, laps after the finish included |
| RunTraces.RunSavesOnlyOnFinish | app/src/main/java/com/foxtailgames/pocketrunner/RunManager.java:143-159 | if no lap is pressed on a finished session, at most one record is saved, and only by the press that finishes an open session |
| RunTraces.RunTracksDistance | app/src/main/java/com/foxtailgames/pocketrunner/RunManager.java:163 | without a preference refresh, the distance covered after any trace is the distance before plus one lap length per lap press; no other command changes it |
| RunTraces.RemainingTracksLaps | app/src/main/java/com/foxtailgames/pocketrunner/RunManager.java:163-174 | without a preference refresh the label keeps its mode, and in distance mode it shows the lap length times all laps recorded so far |
| RunScenarios.DistanceAlarmOnThirdLap | app/src/main/java/com/foxtailgames/pocketrunner/RunManager.java:136-143 | with one-unit laps and a three-unit alarm, only the third lap shows the alarm, and the running session is not finished |
| RunScenarios.TimeAlarmOnce | app/src/main/java/com/foxtailgames/pocketrunner/RunManager.java:78-80 | with a ten-second alarm, a tick at any instant before ten seconds shows nothing, the first tick at or after shows the alarm, and a later tick shows nothing |
| RunScenarios.RemainingTextExample | app/src/main/java/com/foxtailgames/pocketrunner/RunManager.java:168-171 | two 5 km laps against 20 km show 10 of 20 km |
| RunScenarios.AverageSpeedExample | app/src/main/java/com/foxtailgames/pocketrunner/RunManager.java:183-186 | three 400 m laps, the latest at 90 s, give 75 ms per metre |
| RunScenarios.FinishBeforeStartSavesNothing | app/src/main/java/com/foxtailgames/pocketrunner/RunManager.java:152-159 | a finish before the first start, at any instant, sets `done`, records one zero entry and saves nothing |
| RunScenarios.LapAfterFinishSavesAgain | app/src/main/java/com/foxtailgames/pocketrunner/RunManager.java:131-161 | with no guard on `done`, a second lap press on a paused finished run saves a second record |
| RunScenarios.FinishAfterPauseRecordsPausedTime | app/src/main/java/com/foxtailgames/pocketrunner/RunManager.java:136-159 | started, paused and then finished, the run saves one record whose duration and only entry (negated) are the time run up to the pause, not the time spent paused |

## Left out

- The alert dialog, its listeners, the Android version check and the vibrator pattern (lines 193-219): modelled only as the `AlarmShown` event.
- Reading and parsing the shared preferences (lines 85-97): the configuration is a given `Config` record. The time threshold is a number of milliseconds, not an hours/minutes/seconds triple.
- The database helper and the `Run` class (lines 154-156): modelled as the `RunSaved` event. The record's creation date is not modelled, because it reads the wall clock.
- The wearable mirroring (`PebbleManager`, line 72) and the activity/context references.
- The chronometer and the system clock are not part of this model. A counting chronometer reads clock value minus base, and a stopped one keeps its reading. The clock value is a parameter of each operation, and one operation uses one clock value. Ticks arrive at any time while the chronometer counts, never while it is stopped. Whether the chronometer itself fires a tick when its base is set is not modelled.
- The `Time` class is not part of this model. Durations are integers (ms) compared with `<=`, and string formatting is not modelled.
- RunManager.AverageSpeed: gives the exact real quotient, with no `Math.round` and no formatting of the pace string, because the model has no floating point. Lap length and distances are reals, not doubles.
- RunManager.RemainingText: gives the parts of the label, not the formatted string with `double` printing.
- RunManager.LapClicked: `lapCount` is an unbounded integer, with no 32-bit wrap-around. The `long` lap arithmetic is also unbounded, because no run gets near those bounds.
