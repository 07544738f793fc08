/**
  Runs of the session along fixed command sequences, for any clock values: the
  usual alarm scenarios, the projections on small inputs, finishing before the
  start and after a pause, and what happens when the lap button is pressed again
  after the run has finished (nothing in `lapClicked` stops it).
 */
module RunScenarios {
  import opened RunManager

  /** Laps of one unit, alarm at three: only the third lap raises it, and the run goes on. */
  lemma DistanceAlarmOnThirdLap(units: string, t0: int, t1: int, t2: int, t3: int)
    requires t0 <= t1 <= t2 <= t3
    ensures var s := StopClicked(Init(Config(1.0, units, true, 3.0, 0)), t0);
      var l1 := LapClicked(s, t1);
      var l2 := LapClicked(l1.session, t2);
      var l3 := LapClicked(l2.session, t3);
      && l1.events == [] && l2.events == []
      && l3.events == [AlarmShown]
      && l3.session.lapCount == 3
      && !l3.session.done
  {
  }

  /** Alarm at ten seconds: the tick that reaches it raises the alarm, later ones do not. */
  lemma TimeAlarmOnce(units: string, t0: int, te: int, t1: int, t2: int)
    requires t0 <= te < t0 + 10000
    requires t0 + 10000 <= t1 <= t2
    ensures var s := StopClicked(Init(Config(1.0, units, false, 0.0, 10000)), t0);
      var early := Tick(s, te);
      var first := Tick(early.session, t1);
      var later := Tick(first.session, t2);
      && early.events == [] && first.events == [AlarmShown] && later.events == []
      && later.session.alarmTriggered
  {
  }

  /** Two laps of 5 km against a 20 km alarm. */
  lemma RemainingTextExample(t0: int, t1: int, t2: int)
    ensures var s := StopClicked(Init(Config(5.0, "km", true, 20.0, 0)), t0);
      var r := LapClicked(LapClicked(s, t1).session, t2).session;
      RemainingText(r) == DistanceProgress(10.0, 20.0, "km")
  {
  }

  /** Three laps of 400 m, the latest 90 s after the start: 75 ms per metre. */
  lemma AverageSpeedExample(units: string, t0: int, t1: int, t2: int)
    ensures var s := StopClicked(Init(Config(400.0, units, true, 0.0, 0)), t0);
      var r := LapClicked(LapClicked(LapClicked(s, t1).session, t2).session, t0 + 90000).session;
      AverageSpeed(r) == 75.0
  {
  }

  /** Finishing before the first start, at any instant, hands nothing to the store. */
  lemma FinishBeforeStartSavesNothing(config: Config, t: int)
    ensures LapClicked(Init(config), t).session.done
    ensures LapClicked(Init(config), t).session.lapTimes == [0]
    ensures CountSaves(LapClicked(Init(config), t).events) == 0
  {
  }

  /**
    Started at `t0`, paused at `t1`, finished at `t2`: the record carries the time
    run up to the pause, not the time spent paused.
   */
  lemma FinishAfterPauseRecordsPausedTime(config: Config, t0: int, t1: int, t2: int)
    requires t0 < t1 <= t2
    ensures var paused := StopClicked(StopClicked(Init(config), t0), t1);
      var f := LapClicked(paused, t2);
      && f.session.done
      && CountSaves(f.events) == 1
      && RunSaved(RunRecord(1 as real * config.lapLength, config.units, t1 - t0, [t0 - t1])) in f.events
  {
    var f := LapClicked(StopClicked(StopClicked(Init(config), t0), t1), t2);
    assert f.session.lapCount == 1 && f.session.timeLastLap == t1 - t0;
    assert f.events[|f.events| - 1] == RunSaved(RunRecord(1 as real * config.lapLength, config.units, t1 - t0, [t0 - t1]));
  }

  /** A second press of the finish button on a paused run hands a second run to the store. */
  lemma LapAfterFinishSavesAgain(config: Config, t0: int, t1: int, t2: int, t3: int)
    requires t0 < t1 <= t2 <= t3
    ensures var paused := StopClicked(StopClicked(Init(config), t0), t1);
      var f1 := LapClicked(paused, t2);
      var f2 := LapClicked(f1.session, t3);
      && f1.session.done && CountSaves(f1.events) == 1
      && CountSaves(f2.events) == 1
  {
  }
}
