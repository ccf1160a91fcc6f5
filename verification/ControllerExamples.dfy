/** Three runs in full: an alarm that fires after a minute, a fire lost to a power cut, and an opening
    pulse that storage knows nothing of. */
module ControllerExamples {
  import opened Wrappers
  import opened WaterValves
  import TimedSwitches
  import opened Controllers
  import opened Machines
  import opened ControllerPersistence
  import R = ControllerRecovery

  /** `n` undisturbed steps of the tick thread. */
  function Ticks(o: Oracle, n: nat): seq<Step> {
    seq(n, _ => Tick(o))
  }

  lemma {:induction false} RunOne(m: Machine, step: Step)
    ensures Run(m, [step]) == Next(m, step)
  {
    assert [step][..0] == [];
    assert Run(m, []) == m;
  }

  lemma {:induction false} RunTicks(m: Machine, o: Oracle, n: nat)
    ensures Run(m, Ticks(o, n)) == Solo(m, o, n)
  {
    if n > 0 {
      RunTicks(m, o, n - 1);
      SoloSplit(m, o, n - 1, 1);
      Solo1(Solo(m, o, n - 1), o);
      assert Ticks(o, n)[..n - 1] == Ticks(o, n - 1);
    }
  }

  const ALARM: AlarmConfig := AlarmConfig(true, 100.0, 60)

  const SETUP: Config := Config(0, 0, Timing(14, 300), ALARM)

  const WORKING: Oracle := Oracle(0, true, true)

  /** The two ticks, without the steps in between. */
  lemma {:induction false} TwoTicks(d: Device, i: Inputs, j: Inputs)
    requires d == Booted(SETUP, None).(snap := Booted(SETUP, None).snap.(flow := Some(200.0)))
    requires i.now == 0 && j.now == 60000
    ensures var first := TickedOnce(d, None, i);
      first.1 == None && !first.0.snap.alarmActive && TickedOnce(first.0, None, j).0.snap.alarmActive
  {
    TickStill(d, i);
    var first := TickedOnce(d, None, i).0;
    TickFires(first, j);
  }

  lemma {:induction false} TickStill(d: Device, i: Inputs)
    requires d == Booted(SETUP, None).(snap := Booted(SETUP, None).snap.(flow := Some(200.0)))
    requires i.now == 0
    ensures TickedOnce(d, None, i).0 == d.(lastCheck := Some(0)) && TickedOnce(d, None, i).1 == None
  {
    assert Timers(d, 0).0 == d;
    assert Mirrored(d) == d;
  }

  lemma {:induction false} TickFires(d: Device, j: Inputs)
    requires d.config == SETUP && d.lastCheck == Some(0) && j.now == 60000
    requires d.sprinkler1 == d.sprinkler2 == TimedSwitches.Switch(false, None, None, None) && d.valve.phase.Idle?
    requires d.snap.flow == Some(200.0) && !d.snap.alarmActive && d.snap.alarmElapsed == 0
    ensures TickedOnce(d, None, j).0.snap.alarmActive
  {
    var timed := Timers(d, j.now).0;
    assert timed == d;
    var seen := Mirrored(d);
    assert CountedSecs(0, seen.snap, ALARM, 60) == 60;
    assert AlarmEvaluated(seen, None, j).0.snap.alarmActive;
  }

  /** Flow of 200 l/h against a threshold of 100: the tick a minute later latches the alarm. */
  lemma {:induction false} FiresAfterAMinute() returns (steps: seq<Step>)
    ensures Run(Initial(SETUP, None), steps).dev.snap.alarmActive
    ensures Run(Initial(SETUP, None), steps).pc.Resting? && Run(Initial(SETUP, None), steps).clock == 60000
  {
    var m0 := Initial(SETUP, None);
    var m1 := Next(m0, ReportFlow(Some(200.0)));
    RunOne(m0, ReportFlow(Some(200.0)));
    var n := SoloIsTick(m1, WORKING);
    var m2 := Solo(m1, WORKING, n);
    ClockStands(m1, WORKING, n);
    RunTicks(m1, WORKING, n);
    var m3 := Next(m2, Elapse(60000));
    RunOne(m2, Elapse(60000));
    var k := SoloIsTick(m3, WORKING);
    ClockStands(m3, WORKING, k);
    RunTicks(m3, WORKING, k);
    TwoTicks(m1.dev, SoloInputs(m1, WORKING), SoloInputs(m3, WORKING));
    RunJoins(m0, [ReportFlow(Some(200.0))], Ticks(WORKING, n));
    var a := [ReportFlow(Some(200.0))] + Ticks(WORKING, n);
    RunJoins(m0, a, [Elapse(60000)]);
    RunJoins(m0, a + [Elapse(60000)], Ticks(WORKING, k));
    steps := a + [Elapse(60000)] + Ticks(WORKING, k);
  }

  lemma {:induction false} ClockStands(m: Machine, o: Oracle, n: nat)
    ensures Solo(m, o, n).clock == m.clock
    decreases n
  {
    if n > 0 {
      ClockStands(TickStep(m, o), o, n - 1);
    }
  }

  const AT_ONCE: Config := Config(0, 0, Timing(14, 300), AlarmConfig(true, 100.0, 0))

  const EMPTY: Store := Store(None, None)

  lemma {:induction false} ReachesSnapshot(m: Machine, o: Oracle)
    requires m == Initial(AT_ONCE, Some(EMPTY))
    ensures var r := Solo(m, o, 8);
      r.pc.SnapshotSet? && r.log == [] && r.store == Some(EMPTY) && r.dev.config == AT_ONCE &&
      !r.dev.snap.alarmActive
  {
    SoloTimers(m, o);
    SoloMirror(Solo(m, o, 4), o);
    SoloSplit(m, o, 4, 4);
  }

  lemma {:induction false} LatchesNext(m: Machine, o: Oracle)
    requires m.pc.SnapshotSet? && m.log == [] && m.dev.config == AT_ONCE && !m.dev.snap.alarmActive
    ensures var r := Solo(m, o, 4);
      r.pc.Latched? && r.store == m.store && |r.log| == 1 && r.log[0].Evaluated? && r.log[0].fired.Some?
  {
    Solo4(m, o);
  }

  /** The tick thread has latched an alarm and not recorded it. */
  lemma {:induction false} ReachesLatch(m: Machine, o: Oracle)
    requires m == Initial(AT_ONCE, Some(EMPTY))
    ensures var r := Solo(m, o, 12);
      r.pc.Latched? && r.store == Some(EMPTY) && |Fired(r.log)| == 1 && Saved(r.log) == []
  {
    ReachesSnapshot(m, o);
    var x := Solo(m, o, 8);
    LatchesNext(x, o);
    Chained(m, o, 8, x, 4, Solo(x, o, 4));
    OneFire(Solo(x, o, 4).log);
  }

  lemma {:induction false} OneFire(log: seq<Entry>)
    requires |log| == 1 && log[0].Evaluated? && log[0].fired.Some?
    ensures |Fired(log)| == 1 && Saved(log) == []
  {
    assert log[..0] == [];
    assert Fired([]) == [] && Saved([]) == [];
  }

  lemma {:induction false} CutNow(m: Machine)
    requires m.store == Some(EMPTY) && |Fired(m.log)| == 1 && Saved(m.log) == []
    ensures var r := Next(m, PowerCut(AT_ONCE));
      |Fired(r.log)| == 1 && Kept(r.log) == [] && r.dev.history == [] && StoredHistory(r.store) == []
  {
    LedgerExtends(m.log, Rebooted);
    assert (m.log + [Rebooted])[..|m.log|] == m.log;
  }

  /** A cut between the latch and the write of its record: the fire is in nobody's history. */
  lemma {:induction false} CutLosesFire() returns (steps: seq<Step>)
    ensures var m := Run(Initial(AT_ONCE, Some(EMPTY)), steps);
      |Fired(m.log)| == 1 && Kept(m.log) == [] && m.dev.history == [] && StoredHistory(m.store) == []
  {
    var m := Initial(AT_ONCE, Some(EMPTY));
    ReachesLatch(m, WORKING);
    CutNow(Solo(m, WORKING, 12));
    TicksThen(m, WORKING, 12, PowerCut(AT_ONCE));
    steps := Ticks(WORKING, 12) + [PowerCut(AT_ONCE)];
  }

  lemma {:induction false} TicksThen(m: Machine, o: Oracle, n: nat, step: Step)
    ensures Run(m, Ticks(o, n) + [step]) == Next(Solo(m, o, n), step)
  {
    RunTicks(m, o, n);
    RunOne(Solo(m, o, n), step);
    RunJoins(m, Ticks(o, n), [step]);
  }

  // ----- a cut while the valve opens -----

  /** Ordered open a second ago: this tick drives the opening coil and stores the state as closed. */
  lemma {:induction false} TickOpens(d: Device, i: Inputs)
    requires d == Booted(SETUP, Some(EMPTY)).(valve := Valve(TurningOn(0), false, Timing(14, 300)))
    requires i.now == 1000
    ensures TickedOnce(d, Some(EMPTY), i).2.valve.openMotor
    ensures !TickedOnce(d, Some(EMPTY), i).0.valve.userState
    ensures Decoded(TickedOnce(d, Some(EMPTY), i).1) != Some(true)
  {
    var timed := Timers(d, i.now).0;
    assert Timers(d, i.now).1 == OPEN_HIGH;
    assert timed.valve == d.valve;
    var (alarmed, written) := AlarmEvaluated(Mirrored(timed), Some(EMPTY), i);
    EvaluationKeepsValve(Mirrored(timed), Some(EMPTY), i);
    assert DecodeValve(Some(EncodeValve(false))) == Some(false);
  }

  lemma {:induction false} EvaluationKeepsValve(d: Device, store: Option<Store>, i: Inputs)
    requires d.valve.IsBusy()
    ensures var (alarmed, written) := AlarmEvaluated(d, store, i);
      && alarmed.valve == d.valve && (written.Some? <==> store.Some?)
      && (store.Some? ==> written.value.valve == store.value.valve)
  {
  }

  /** The opening coil is high and storage does not say open: after a cut now the controller reports the
      valve off, and `ControllerRecovery.CutStrands` says how long. */
  lemma {:induction false} CutStrandsOpening() returns (steps: seq<Step>)
    ensures var m0 := Initial(SETUP, Some(EMPTY));
      && Run(m0, steps).pc.Resting? && Run(m0, steps).pins.valve.openMotor
      && R.Driven(m0, steps + [PowerCut(SETUP)], Some(false)) == Some(true)
      && Run(m0, steps + [PowerCut(SETUP)]).dev.valve.State() == Off
  {
    var m0 := Initial(SETUP, Some(EMPTY));
    var order := Order(Water(true), 0);
    var m1 := Next(m0, order);
    RunOne(m0, order);
    var m2 := Next(m1, Elapse(1000));
    RunOne(m1, Elapse(1000));
    RunJoins(m0, [order], [Elapse(1000)]);
    var n := SoloIsTick(m2, WORKING);
    RunTicks(m2, WORKING, n);
    TickOpens(m2.dev, SoloInputs(m2, WORKING));
    RunJoins(m0, [order] + [Elapse(1000)], Ticks(WORKING, n));
    steps := [order] + [Elapse(1000)] + Ticks(WORKING, n);
    DrivenLast(m0, steps);
    DrivenThenCut(m0, steps);
  }

  lemma {:induction false} DrivenLast(m: Machine, steps: seq<Step>)
    requires steps != [] && steps[|steps| - 1].Tick?
    requires Run(m, steps).pc.Resting? && Run(m, steps).pins.valve.openMotor
    ensures R.Driven(m, steps, Some(false)) == Some(true)
  {
  }

  lemma {:induction false} DrivenThenCut(m: Machine, steps: seq<Step>)
    ensures R.Driven(m, steps + [PowerCut(SETUP)], Some(false)) == R.Driven(m, steps, Some(false))
    ensures Run(m, steps + [PowerCut(SETUP)]) == Next(Run(m, steps), PowerCut(SETUP))
  {
    assert (steps + [PowerCut(SETUP)])[..|steps|] == steps;
  }
}
