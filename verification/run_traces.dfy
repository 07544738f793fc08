/**
  Sequences of commands applied to a run session, and the properties that hold
  along every such sequence: the session invariant, the flags that are never
  cleared, the alarm shown at most once, lap counting, pause/resume continuity,
  and the sign of the recorded lap entries.
 */
module RunTraces {
  import opened Chronometer
  import opened RunManager

  /**
    The three things that can happen to a session, plus a preference refresh. A
    chronometer tick reaches the session only while the chronometer is counting.
   */
  datatype Command = ToggleRun | Lap | ChronoTick | Preferences(config: Config)

  /** A command together with the clock value at which it happens. */
  datatype Input = Input(command: Command, at: int)

  function Apply(s: Session, i: Input): (r: Step)
  {
    match i.command
    case ToggleRun => Step(StopClicked(s, i.at), [])
    case Lap => LapClicked(s, i.at)
    case ChronoTick => if s.chrono.ticking then Tick(s, i.at) else Step(s, [])
    case Preferences(c) => Step(UpdatePreferences(s, c), [])
  }

  /** The final session and every side effect, in order, of a trace of inputs. */
  function Run(s: Session, trace: seq<Input>): (r: Step)
    decreases |trace|
  {
    if trace == [] then Step(s, [])
    else
      var first := Apply(s, trace[0]);
      var rest := Run(first.session, trace[1..]);
      Step(rest.session, first.events + rest.events)
  }

  /** Flags that are only ever set: started, done and the alarm latch. */
  predicate FlagsKept(s: Session, r: Session)
  {
    && (s.started ==> r.started)
    && (s.done ==> r.done)
    && (s.alarmTriggered ==> r.alarmTriggered)
  }

  lemma ApplyStep(s: Session, i: Input)
    ensures FlagsKept(s, Apply(s, i).session)
    ensures Valid(s) ==> Valid(Apply(s, i).session)
    ensures CountAlarms(Apply(s, i).events) ==
      (if !s.alarmTriggered && Apply(s, i).session.alarmTriggered then 1 else 0)
  {
  }

  lemma {:induction false} RunKeepsInvariant(s: Session, trace: seq<Input>)
    ensures FlagsKept(s, Run(s, trace).session)
    ensures Valid(s) ==> Valid(Run(s, trace).session)
    decreases |trace|
  {
    if trace != [] {
      ApplyStep(s, trace[0]);
      RunKeepsInvariant(Apply(s, trace[0]).session, trace[1..]);
    }
  }

  /** Along any trace, the alarm is shown exactly when the latch goes up, so at most once. */
  lemma {:induction false} RunShowsAlarmOnce(s: Session, trace: seq<Input>)
    ensures CountAlarms(Run(s, trace).events) ==
      (if !s.alarmTriggered && Run(s, trace).session.alarmTriggered then 1 else 0)
    decreases |trace|
  {
    if trace != [] {
      var first := Apply(s, trace[0]);
      ApplyStep(s, trace[0]);
      RunShowsAlarmOnce(first.session, trace[1..]);
      RunKeepsInvariant(first.session, trace[1..]);
      CountsAppend(first.events, Run(first.session, trace[1..]).events);
    }
  }

  lemma SessionShowsAlarmAtMostOnce(config: Config, trace: seq<Input>)
    ensures CountAlarms(Run(Init(config), trace).events) <= 1
  {
    RunShowsAlarmOnce(Init(config), trace);
  }

  /** `triggerAlarm()` called `n` times in a row. */
  function TriggerRepeatedly(s: Session, n: nat): (r: Step)
    decreases n
  {
    if n == 0 then Step(s, [])
    else
      var first := TriggerAlarm(s);
      var rest := TriggerRepeatedly(first.session, n - 1);
      Step(rest.session, first.events + rest.events)
  }

  lemma {:induction false} TriggerAlarmLatched(s: Session, n: nat)
    ensures CountAlarms(TriggerRepeatedly(s, n).events) ==
      (if n == 0 || s.alarmTriggered then 0 else 1)
    ensures n > 0 ==> TriggerRepeatedly(s, n).session == s.(alarmTriggered := true)
    decreases n
  {
    if n > 0 {
      var first := TriggerAlarm(s);
      TriggerAlarmLatched(first.session, n - 1);
      CountsAppend(first.events, TriggerRepeatedly(first.session, n - 1).events);
    }
  }

  function LapsIn(trace: seq<Input>): (r: nat)
  {
    if trace == [] then 0
    else (if trace[0].command.Lap? then 1 else 0) + LapsIn(trace[1..])
  }

  /** Every lap press, and nothing else, adds one lap and one lap entry. */
  lemma {:induction false} RunCountsLaps(s: Session, trace: seq<Input>)
    ensures Run(s, trace).session.lapCount == s.lapCount + LapsIn(trace)
    ensures |Run(s, trace).session.lapTimes| == |s.lapTimes| + LapsIn(trace)
    ensures s.lapTimes <= Run(s, trace).session.lapTimes
    decreases |trace|
  {
    if trace != [] {
      RunCountsLaps(Apply(s, trace[0]).session, trace[1..]);
    }
  }

  /** A trace of inputs that touch neither the chronometer nor the laps. */
  predicate Quiet(trace: seq<Input>)
  {
    forall k | 0 <= k < |trace| :: trace[k].command.ChronoTick? || trace[k].command.Preferences?
  }

  lemma {:induction false} QuietKeepsClock(s: Session, trace: seq<Input>)
    requires Quiet(trace)
    ensures Run(s, trace).session.chrono == s.chrono
    ensures Run(s, trace).session.timeChronoStopped == s.timeChronoStopped
    ensures Run(s, trace).session.running == s.running
    ensures Run(s, trace).session.started == s.started
    decreases |trace|
  {
    if trace != [] {
      assert Quiet(trace[1..]) by {
        forall k | 0 <= k < |trace[1..]|
          ensures trace[1..][k].command.ChronoTick? || trace[1..][k].command.Preferences?
        {
          assert trace[1..][k] == trace[k + 1];
        }
      }
      QuietKeepsClock(Apply(s, trace[0]).session, trace[1..]);
    }
  }

  /**
    Pausing at `paused` and resuming at `resumed`, with any ticks and preference
    refreshes in between: during the pause the reading stays at its value at the
    pause, and the resumed chronometer starts again from exactly that value,
    however much clock time has passed.
   */
  lemma PauseResumeContinuity(s: Session, paused: int, between: seq<Input>, resumed: int)
    requires Valid(s) && s.running
    requires Quiet(between)
    ensures var p := Run(StopClicked(s, paused), between).session;
      && !p.running
      && (forall t :: Elapsed(p.chrono, t) == Elapsed(s.chrono, paused))
      && StopClicked(p, resumed).running
      && Elapsed(StopClicked(p, resumed).chrono, resumed) == Elapsed(s.chrono, paused)
  {
    QuietKeepsClock(StopClicked(s, paused), between);
  }

  /** The clock never runs backwards along the trace, starting from `last`. */
  predicate ClockFrom(trace: seq<Input>, last: int)
    decreases |trace|
  {
    trace == [] || (last <= trace[0].at && ClockFrom(trace[1..], trace[0].at))
  }

  /**
    What keeps lap entries non-positive, given that the latest command happened at
    clock value `last`: every entry is at most zero, the latest lap reading is at
    most the current reading, a stopped chronometer shows minus the restart offset,
    and the offset is zero before the first start.
   */
  predicate LapsBehind(s: Session, last: int)
  {
    && Valid(s)
    && (forall k | 0 <= k < |s.lapTimes| :: s.lapTimes[k] <= 0)
    && s.timeLastLap <= Elapsed(s.chrono, last)
    && (!s.chrono.ticking ==> Elapsed(s.chrono, last) == -s.timeChronoStopped)
    && (!s.started ==> s.timeChronoStopped == 0)
  }

  /**
    With the clock moving forward, one command keeps `LapsBehind`, and the reading
    after it is at least the reading before it: a pause freezes the reading and a
    resume starts again from it.
   */
  lemma ApplyKeepsLapsBehind(s: Session, i: Input, last: int)
    requires LapsBehind(s, last)
    requires last <= i.at
    ensures LapsBehind(Apply(s, i).session, i.at)
    ensures Elapsed(Apply(s, i).session.chrono, i.at) >= Elapsed(s.chrono, last)
  {
  }

  lemma {:induction false} RunKeepsLapsBehind(s: Session, trace: seq<Input>, last: int)
    requires LapsBehind(s, last)
    requires ClockFrom(trace, last)
    ensures forall k | 0 <= k < |Run(s, trace).session.lapTimes| ::
      Run(s, trace).session.lapTimes[k] <= 0
    decreases |trace|
  {
    if trace != [] {
      ApplyKeepsLapsBehind(s, trace[0], last);
      RunKeepsLapsBehind(Apply(s, trace[0]).session, trace[1..], trace[0].at);
    }
  }

  /** The clock value of the last input of the trace, or `last` when it is empty. */
  function LastAt(trace: seq<Input>, last: int): (r: int)
    decreases |trace|
  {
    if trace == [] then last else LastAt(trace[1..], trace[0].at)
  }

  /**
    Along a trace whose clock never runs backwards, the chronometer reading at the
    end is at least its reading at the start, whatever pauses and resumes happen.
   */
  lemma {:induction false} RunReadingNeverDecreases(s: Session, trace: seq<Input>, last: int)
    requires LapsBehind(s, last)
    requires ClockFrom(trace, last)
    ensures last <= LastAt(trace, last)
    ensures Elapsed(Run(s, trace).session.chrono, LastAt(trace, last)) >= Elapsed(s.chrono, last)
    decreases |trace|
  {
    if trace != [] {
      ApplyKeepsLapsBehind(s, trace[0], last);
      RunReadingNeverDecreases(Apply(s, trace[0]).session, trace[1..], trace[0].at);
    }
  }

  /** From a new session, with a forward-moving clock, the reading is never below zero. */
  lemma ReadingNeverNegative(config: Config, now: int, trace: seq<Input>)
    requires ClockFrom(trace, now)
    ensures Elapsed(Run(Init(config), trace).session.chrono, LastAt(trace, now)) >= 0
  {
    RunReadingNeverDecreases(Init(config), trace, now);
  }

  /**
    From a new session, with a clock that never runs backwards, every lap entry
    (previous lap reading minus current reading) is at most zero, whatever the
    commands, including laps pressed after the run has finished.
   */
  lemma LapEntriesNonPositive(config: Config, now: int, trace: seq<Input>)
    requires ClockFrom(trace, now)
    ensures forall k | 0 <= k < |Run(Init(config), trace).session.lapTimes| ::
      Run(Init(config), trace).session.lapTimes[k] <= 0
  {
    RunKeepsLapsBehind(Init(config), trace, now);
  }

  function RefreshesIn(trace: seq<Input>): (r: nat)
  {
    if trace == [] then 0
    else (if trace[0].command.Preferences? then 1 else 0) + RefreshesIn(trace[1..])
  }

  /** Only a preference refresh replaces the configuration. */
  lemma {:induction false} RunKeepsConfig(s: Session, trace: seq<Input>)
    requires RefreshesIn(trace) == 0
    ensures Run(s, trace).session.config == s.config
    decreases |trace|
  {
    if trace != [] {
      RunKeepsConfig(Apply(s, trace[0]).session, trace[1..]);
    }
  }

  /**
    Without a preference refresh, the distance covered grows by exactly one lap
    length per lap press, and by nothing else.
   */
  lemma RunTracksDistance(s: Session, trace: seq<Input>)
    requires RefreshesIn(trace) == 0
    ensures DistanceRun(Run(s, trace).session) ==
      DistanceRun(s) + LapsIn(trace) as real * s.config.lapLength
  {
    RunKeepsConfig(s, trace);
    RunCountsLaps(s, trace);
    MoreLapsMoreDistance(s, Run(s, trace).session, trace);
  }

  /** A session with the lap presses of `trace` added has that many more lap lengths behind it. */
  lemma MoreLapsMoreDistance(s: Session, r: Session, trace: seq<Input>)
    requires r.config.lapLength == s.config.lapLength
    requires r.lapCount == s.lapCount + LapsIn(trace)
    ensures DistanceRun(r) == DistanceRun(s) + LapsIn(trace) as real * s.config.lapLength
  {
  }

  /**
    Without a preference refresh, the "remaining" label keeps its mode, and in
    distance mode the distance it shows after a trace is the lap length times the
    laps recorded before and during the trace.
   */
  lemma RemainingTracksLaps(s: Session, trace: seq<Input>)
    requires RefreshesIn(trace) == 0
    ensures var f := Run(s, trace).session;
      && f.lapCount == s.lapCount + LapsIn(trace)
      && RemainingText(f) ==
           if s.config.useDistanceForAlarm then
             DistanceProgress(f.lapCount as real * s.config.lapLength,
                              s.config.distanceForAlarm, s.config.units)
           else TimeTarget(s.config.endTime)
  {
    RunKeepsConfig(s, trace);
    RunCountsLaps(s, trace);
  }

  /** No lap press reaches a session that has already finished. */
  predicate LapsWhileOpen(s: Session, trace: seq<Input>)
    decreases |trace|
  {
    trace == [] ||
    ((trace[0].command.Lap? ==> !s.done) && LapsWhileOpen(Apply(s, trace[0]).session, trace[1..]))
  }

  /**
    Along a trace that presses lap only while the session is open, at most one run
    is handed to the store, and only by the press that finishes an open session.
   */
  lemma {:induction false} RunSavesOnlyOnFinish(s: Session, trace: seq<Input>)
    requires LapsWhileOpen(s, trace)
    ensures CountSaves(Run(s, trace).events) > 0 ==> !s.done && Run(s, trace).session.done
    ensures CountSaves(Run(s, trace).events) <= 1
    decreases |trace|
  {
    if trace != [] {
      var first := Apply(s, trace[0]);
      var rest := Run(first.session, trace[1..]);
      RunSavesOnlyOnFinish(first.session, trace[1..]);
      RunKeepsInvariant(first.session, trace[1..]);
      CountsAppend(first.events, rest.events);
      assert CountSaves(first.events) <= (if !s.done && first.session.done then 1 else 0);
    }
  }
}
