/**
  The state machine of one run session (the `RunManager` class).

  A session is an immutable record; every command is a pure function from the
  current session (and the clock value at which the command happens) to the next
  session plus the list of side effects it causes, in order. The two side effects
  are the alarm being shown (dialog plus vibration) and a finished run being handed
  to the run store.
 */
module RunManager {
  import opened Chronometer

  /** The preference snapshot the session works with. */
  datatype Config = Config(
    lapLength: real,           // distance of one lap, in `units`
    units: string,             // display label of the distance unit
    useDistanceForAlarm: bool, // alarm by distance (true) or by time (false)
    distanceForAlarm: real,    // distance threshold, in `units`
    endTime: int               // time threshold, in ms
  )

  /** The run handed to the store when a session finishes. */
  datatype RunRecord = RunRecord(distance: real, units: string, duration: int, laps: seq<int>)

  datatype Event = AlarmShown | RunSaved(run: RunRecord)

  datatype Session = Session(
    config: Config,
    chrono: Chrono,
    timeChronoStopped: int,  // offset added to the clock when the chronometer is restarted
    lapCount: int,
    lapTimes: seq<int>,      // one entry per lap, lap 1 first
    timeLastLap: int,        // chronometer reading at the latest lap
    running: bool,
    started: bool,
    done: bool,
    alarmTriggered: bool
  )

  /** The session after a command, and the side effects of the command in order. */
  datatype Step = Step(session: Session, events: seq<Event>)

  /** What holds of every session reachable from `Init`. */
  predicate Valid(s: Session)
  {
    && s.lapCount == |s.lapTimes|
    && (s.running ==> s.started)
    && s.chrono.ticking == s.running
  }

  /** Nothing about the run itself (laps, configuration, done, alarm latch) differs. */
  predicate SameRunData(s: Session, r: Session)
  {
    && r.config == s.config
    && r.lapCount == s.lapCount
    && r.lapTimes == s.lapTimes
    && r.timeLastLap == s.timeLastLap
    && r.done == s.done
    && r.alarmTriggered == s.alarmTriggered
  }

  function CountAlarms(events: seq<Event>): (r: nat)
  {
    if events == [] then 0
    else (if events[0].AlarmShown? then 1 else 0) + CountAlarms(events[1..])
  }

  function CountSaves(events: seq<Event>): (r: nat)
  {
    if events == [] then 0
    else (if events[0].RunSaved? then 1 else 0) + CountSaves(events[1..])
  }

  lemma {:induction false} CountsAppend(a: seq<Event>, b: seq<Event>)
    ensures CountAlarms(a + b) == CountAlarms(a) + CountAlarms(b)
    ensures CountSaves(a + b) == CountSaves(a) + CountSaves(b)
  {
    if a == [] {
      assert a + b == b;
    } else {
      assert (a + b)[0] == a[0];
      assert (a + b)[1..] == a[1..] + b;
      CountsAppend(a[1..], b);
    }
  }

  /** A new session, whose chronometer has not been started yet. */
  function Init(config: Config): (s: Session)
    ensures Valid(s)
    ensures s.config == config
    ensures !s.chrono.ticking && forall now :: Elapsed(s.chrono, now) == 0
    ensures s.lapTimes == [] && s.timeLastLap == 0 && s.timeChronoStopped == 0
    ensures !s.running && !s.started && !s.done && !s.alarmTriggered
  {
    Session(config, Fresh, 0, 0, [], 0, false, false, false, false)
  }

  /** Replaces the preference snapshot; recorded laps, flags and the alarm latch stay. */
  function UpdatePreferences(s: Session, config: Config): (r: Session)
    ensures r.config == config
    ensures r.(config := s.config) == s
    ensures Valid(s) ==> Valid(r)
  {
    s.(config := config)
  }

  /** Restarts the chronometer from the stored offset. */
  function Start(s: Session, now: int): (r: Session)
    ensures r.chrono.ticking
    ensures Elapsed(r.chrono, now) == -s.timeChronoStopped
    ensures r.(chrono := s.chrono) == s
  {
    s.(chrono := Started(s.chrono, now + s.timeChronoStopped))
  }

  /**
    Stops the chronometer, storing the negated reading as the restart offset; the
    reading then stays at its value at the stop.
   */
  function Stop(s: Session, now: int): (r: Session)
    ensures !r.chrono.ticking
    ensures forall t :: Elapsed(r.chrono, t) == Elapsed(s.chrono, now)
    ensures s.chrono.ticking ==> -r.timeChronoStopped == Elapsed(s.chrono, now)
    ensures r.(chrono := s.chrono, timeChronoStopped := s.timeChronoStopped) == s
  {
    s.(chrono := Stopped(s.chrono, now), timeChronoStopped := s.chrono.base - now)
  }

  /** Clears the restart offset, so that the next start counts from zero. */
  function Reset(s: Session): (r: Session)
    ensures forall now :: Elapsed(Start(r, now).chrono, now) == 0
    ensures r.(timeChronoStopped := s.timeChronoStopped) == s
  {
    s.(timeChronoStopped := 0)
  }

  /** The start/stop button: pauses a running session, otherwise (re)starts it. */
  function StopClicked(s: Session, now: int): (r: Session)
    ensures s.running && s.started ==>
      && !r.running && r.started && !r.chrono.ticking
      && (forall t :: Elapsed(r.chrono, t) == Elapsed(s.chrono, now))
      && (s.chrono.ticking ==> -r.timeChronoStopped == Elapsed(s.chrono, now))
    ensures !(s.running && s.started) ==>
      && r.running && r.started && r.chrono.ticking
      && Elapsed(r.chrono, now) == (if s.started then -s.timeChronoStopped else 0)
    ensures !s.started ==> r.timeChronoStopped == 0
    ensures s.started && !s.running ==> r.timeChronoStopped == s.timeChronoStopped
    ensures SameRunData(s, r)
    ensures Valid(s) ==> Valid(r)
  {
    if s.running && s.started then
      Stop(s, now).(running := false)
    else
      var s1 := if !s.started then Reset(s.(started := true)) else s;
      Start(s1, now).(running := true)
  }

  /** Distance covered so far: one lap length per lap. */
  function DistanceRun(s: Session): (r: real)
  {
    s.lapCount as real * s.config.lapLength
  }

  /** The condition under which a lap raises the alarm. */
  predicate DistanceAlarmDue(s: Session)
  {
    DistanceRun(s) >= s.config.distanceForAlarm && s.config.useDistanceForAlarm
  }

  /** The condition under which a chronometer tick at `now` raises the alarm. */
  predicate TimeAlarmDue(s: Session, now: int)
  {
    !s.config.useDistanceForAlarm && s.config.endTime <= Elapsed(s.chrono, now)
  }

  /** Shows the alarm the first time only: the latch is never cleared. */
  function TriggerAlarm(s: Session): (r: Step)
    ensures r.session.alarmTriggered
    ensures r.session.(alarmTriggered := s.alarmTriggered) == s
    ensures CountAlarms(r.events) == (if s.alarmTriggered then 0 else 1)
    ensures forall e | e in r.events :: e == AlarmShown
  {
    if !s.alarmTriggered then Step(s.(alarmTriggered := true), [AlarmShown])
    else Step(s, [])
  }

  /** The body of the chronometer's tick listener. */
  function Tick(s: Session, now: int): (r: Step)
    ensures r.session.alarmTriggered == (s.alarmTriggered || TimeAlarmDue(s, now))
    ensures r.session.(alarmTriggered := s.alarmTriggered) == s
    ensures CountAlarms(r.events) == (if !s.alarmTriggered && TimeAlarmDue(s, now) then 1 else 0)
    ensures forall e | e in r.events :: e == AlarmShown
  {
    if TimeAlarmDue(s, now) then TriggerAlarm(s) else Step(s, [])
  }

  /** The record of a finished session. */
  function Record(s: Session): (r: RunRecord)
  {
    RunRecord(DistanceRun(s), s.config.units, s.timeLastLap, s.lapTimes)
  }

  /**
    The lap/done button. Every press records a lap and may raise the distance
    alarm; a press while the session is not running also finishes it, handing the
    run to the store when the chronometer reads more than zero.
   */
  function LapClicked(s: Session, now: int): (r: Step)
    ensures r.session.lapCount == s.lapCount + 1
    ensures r.session.lapTimes == s.lapTimes + [s.timeLastLap - Elapsed(s.chrono, now)]
    ensures r.session.timeLastLap == Elapsed(s.chrono, now)
    ensures DistanceRun(r.session) == DistanceRun(s) + s.config.lapLength
    ensures r.session.config == s.config && r.session.chrono == s.chrono
    ensures r.session.timeChronoStopped == s.timeChronoStopped
    ensures r.session.running == s.running && r.session.started == s.started
    ensures r.session.done == (s.done || !s.running || !s.started)
    ensures r.session.alarmTriggered == (s.alarmTriggered || DistanceAlarmDue(r.session))
    ensures CountAlarms(r.events) ==
      (if !s.alarmTriggered && DistanceAlarmDue(r.session) then 1 else 0)
    ensures CountAlarms(r.events) == 1 ==> r.events[0] == AlarmShown
    ensures CountSaves(r.events) ==
      (if (!s.running || !s.started) && Elapsed(s.chrono, now) > 0 then 1 else 0)
    ensures CountSaves(r.events) == 1 ==> r.events != [] && r.events[|r.events| - 1].RunSaved?
    ensures forall e | e in r.events && e.RunSaved? ::
      && e.run.distance == r.session.lapCount as real * s.config.lapLength
      && e.run.units == s.config.units
      && e.run.duration == r.session.timeLastLap
      && e.run.laps == r.session.lapTimes
    ensures Valid(s) ==> Valid(r.session)
  {
    var elapsed := Elapsed(s.chrono, now);
    var lapped := s.(lapCount := s.lapCount + 1,
                     lapTimes := s.lapTimes + [s.timeLastLap - elapsed],
                     timeLastLap := elapsed);
    var alarm := if DistanceAlarmDue(lapped) then TriggerAlarm(lapped) else Step(lapped, []);
    if !s.running || !s.started then
      var finished := alarm.session.(done := true);
      var saved := if elapsed > 0 then [RunSaved(Record(finished))] else [];
      CountsAppend(alarm.events, saved);
      Step(finished, alarm.events + saved)
    else
      alarm
  }

  /** What the "remaining" label shows, before number and time formatting. */
  datatype Remaining =
    | DistanceProgress(covered: real, target: real, units: string)
    | TimeTarget(endTime: int)

  function RemainingText(s: Session): (r: Remaining)
    ensures r.DistanceProgress? <==> s.config.useDistanceForAlarm
    ensures r.DistanceProgress? ==>
      r == DistanceProgress(s.lapCount as real * s.config.lapLength,
                            s.config.distanceForAlarm, s.config.units)
    ensures r.TimeTarget? ==> r.endTime == s.config.endTime
  {
    if s.config.useDistanceForAlarm then
      DistanceProgress(DistanceRun(s), s.config.distanceForAlarm, s.config.units)
    else
      TimeTarget(s.config.endTime)
  }

  /**
    Average pace in ms per distance unit: the time of the latest lap spread over
    the distance covered, and zero when no distance can have been covered.
   */
  function AverageSpeed(s: Session): (pace: real)
    ensures s.config.lapLength == 0.0 || s.lapCount == 0 ==> pace == 0.0
    ensures s.config.lapLength != 0.0 && s.lapCount != 0 ==>
      pace * (s.config.lapLength * s.lapCount as real) == s.timeLastLap as real
  {
    if s.config.lapLength == 0.0 || s.lapCount == 0 then 0.0
    else s.timeLastLap as real / (s.config.lapLength * s.lapCount as real)
  }
}
