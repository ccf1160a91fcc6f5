/** A run that needs the tick durations in the closing deadline: each tick reads the clock long before it
    uses the reading. */
module ControllerLate {
  import opened Wrappers
  import opened WaterValves
  import opened Controllers
  import opened Machines
  import opened ControllerDeadline
  import opened ControllerExamples

  const GAP: nat := 10000

  const LATE: Config := Config(0, 0, Timing(0, 0), AlarmConfig(true, 100.0, 0))

  const TERMS: Terms := Terms(Timing(0, 0), GAP, GAP, 0)

  predicate At(m: Machine, clock: nat, read: nat, phase: Phase, on: bool) {
    m.clock == clock && m.lastRead == read && m.dev.valve == Valve(phase, on, Timing(0, 0)) &&
    m.dev.config == LATE && m.store == None
  }

  /** The first eleven steps of a tick. */
  lemma {:induction false} ToSeen(m: Machine, o: Oracle)
    requires m.pc == Resting && m.dev.config.alarm.enabled
    ensures var (r, d) := (Solo(m, o, 11), Mirrored(Timers(m.dev, m.clock).0));
      && r.pc.Seen? && r.pc.now == m.clock && r.pc.alarm == m.dev.config.alarm && r.pc.seen == d.snap
      && r.dev == d.(lastCheck := Some(m.clock)) && r.clock == r.lastRead == m.clock && r.store == m.store
  {
    SoloTimers(m, o);
    SoloMirror(Solo(m, o, 4), o);
    SoloSplit(m, o, 4, 4);
    Solo3(Solo(m, o, 8), o);
    SoloSplit(m, o, 8, 3);
  }

  lemma {:induction false} ToSeenThen(m: Machine, o: Oracle)
    requires m.pc == Resting && m.dev.config.alarm.enabled
    ensures Solo(m, o, 12) == TickStep(Solo(m, o, 11), o)
  {
    SoloSplit(m, o, 11, 1);
    Solo1(Solo(m, o, 11), o);
  }

  /** The opening has just begun: the tick latches the alarm. */
  lemma {:induction false} Latches(m: Machine, o: Oracle)
    requires m.pc == Resting && At(m, 0, 0, TurningOn(0), false) && !m.dev.snap.alarmActive
    ensures Solo(m, o, 11).pc.Seen? && Solo(m, o, 11).dev.config.alarm.enabled
    ensures var r := TickStep(Solo(m, o, 11), o);
      r.pc.Latched? && At(r, 0, 0, TurningOn(0), false) && r.dev.snap.alarmActive
  {
    ToSeen(m, o);
  }

  /** Its order to close is ignored. */
  lemma {:induction false} Ignored(m: Machine, o: Oracle)
    requires m.pc.Latched? && At(m, 0, 0, TurningOn(0), false) && m.dev.snap.alarmActive
    ensures var r := Solo(m, o, 5);
      r.pc == Resting && At(r, 0, 0, TurningOn(0), false) && r.dev.snap.alarmActive
  {
    Solo4(m, o);
    SoloSplit(m, o, 4, 1);
    Solo1(Solo(m, o, 4), o);
  }

  /** The next tick finds the valve open. */
  lemma {:induction false} FindsOpen(m: Machine, o: Oracle)
    requires m.pc == Resting && At(m, GAP, 0, TurningOn(0), false) && m.dev.snap.alarmActive
    ensures var r := Solo(m, o, 12);
      r.pc.CloseDue? && At(r, GAP, GAP, Idle, true) && r.dev.snap.alarmActive
  {
    ToSeen(m, o);
    ToSeenThen(m, o);
  }

  /** It orders the closing late. */
  lemma {:induction false} OrdersLate(m: Machine, o: Oracle)
    requires m.pc.CloseDue? && At(m, 2 * GAP, GAP, Idle, true) && m.dev.snap.alarmActive
    ensures var r := Solo(m, o, 3);
      r.pc == Resting && At(r, 2 * GAP, GAP, TurningOff(2 * GAP), true) && r.dev.snap.alarmActive
  {
    Solo3(m, o);
  }

  /** The third tick comes at once and sees the closing. */
  lemma {:induction false} SeesClosing(m: Machine, o: Oracle)
    requires m.pc == Resting && At(m, 2 * GAP, GAP, TurningOff(2 * GAP), true) && m.dev.snap.alarmActive
    ensures var r := Solo(m, o, 11);
      && r.pc.Seen? && r.pc.alarm.enabled && r.pc.seen.alarmActive && r.pc.seen.water == Transitioning
      && At(r, 2 * GAP, 2 * GAP, TurningOff(2 * GAP), true)
  {
    ToSeen(m, o);
  }

  lemma {:induction false} LeavesClosing(m: Machine, o: Oracle)
    requires m.pc.Seen? && m.pc.seen.alarmActive && m.pc.seen.water == Transitioning
    ensures var r := TickStep(m, o);
      r.pc.Persisting? && r.dev.valve == m.dev.valve && r.dev.config == m.dev.config
      && r.clock == m.clock && r.lastRead == m.lastRead && r.store == m.store
  {
  }

  lemma {:induction false} Rests(m: Machine, o: Oracle, n: nat)
    requires Solo(m, o, n).pc.Persisting? && Solo(m, o, n).store == None
    ensures Solo(m, o, n + 1) == Solo(m, o, n).(pc := Resting, pins := Solo(m, o, n).pc.pins)
  {
    SoloSplit(m, o, n, 1);
    Solo1(Solo(m, o, n), o);
  }

  // ----- the run keeps to its terms -----

  /** With equal bounds for gaps and ticks a step of the tick thread is never late. */
  lemma {:induction false} TickOnTime(m: Machine, o: Oracle)
    requires OnTime(m, TERMS)
    ensures OnTime(TickStep(m, o), TERMS)
  {
  }

  lemma {:induction false} TicksOnTime(m: Machine, o: Oracle, n: nat)
    requires OnTime(m, TERMS)
    ensures OnTime(Run(m, Ticks(o, n)), TERMS)
  {
    if n > 0 {
      TicksOnTime(m, o, n - 1);
      TickOnTime(Run(m, Ticks(o, n - 1)), o);
      assert Ticks(o, n)[..n - 1] == Ticks(o, n - 1);
    }
  }

  lemma {:induction false} TicksAreCalm(m: Machine, o: Oracle, n: nat)
    requires OnTime(m, TERMS)
    ensures CalmRun(m, Ticks(o, n), TERMS) && OnTime(Solo(m, o, n), TERMS)
  {
    forall i | 0 <= i < n ensures OnTime(Run(m, Ticks(o, n)[..i]), TERMS) {
      TicksOnTime(m, o, i);
      assert Ticks(o, n)[..i] == Ticks(o, i);
    }
    TicksOnTime(m, o, n);
    RunTicks(m, o, n);
  }

  lemma {:induction false} CalmJoins(m: Machine, a: seq<Step>, b: seq<Step>)
    requires CalmRun(m, a, TERMS) && CalmRun(Run(m, a), b, TERMS)
    ensures CalmRun(m, a + b, TERMS)
  {
    forall i | 0 <= i < |a + b| ensures Calm((a + b)[i], TERMS) && OnTime(Run(m, (a + b)[..i]), TERMS) {
      if i < |a| {
        assert (a + b)[..i] == a[..i];
      } else {
        RunJoins(m, a, b[..i - |a|]);
        assert (a + b)[..i] == a + b[..i - |a|];
      }
    }
  }

  /** One more stretch: some steps of the tick thread, and then time passes. */
  lemma {:induction false} Stretch(m: Machine, steps: seq<Step>, o: Oracle, n: nat, ms: nat)
    requires CalmRun(m, steps, TERMS) && OnTime(Run(m, steps), TERMS)
    ensures var (longer, r) := (steps + (Ticks(o, n) + [Elapse(ms)]), Next(Solo(Run(m, steps), o, n), Elapse(ms)));
      Run(m, longer) == r && CalmRun(m, longer, TERMS)
  {
    var (x, more) := (Run(m, steps), Ticks(o, n) + [Elapse(ms)]);
    TicksAreCalm(x, o, n);
    TicksThen(x, o, n, Elapse(ms));
    RunTicks(x, o, n);
    ElapseIsCalm(Run(x, Ticks(o, n)), ms);
    CalmJoins(x, Ticks(o, n), [Elapse(ms)]);
    CalmJoins(m, steps, more);
    RunJoins(m, steps, more);
  }

  lemma {:induction false} ElapseIsCalm(m: Machine, ms: nat)
    requires OnTime(m, TERMS)
    ensures CalmRun(m, [Elapse(ms)], TERMS)
  {
    assert [Elapse(ms)][..0] == [];
  }

  // ----- the run -----

  lemma {:induction false} FirstTick(m: Machine, o: Oracle)
    requires m.pc.Latched? && At(m, 0, 0, TurningOn(0), false) && m.dev.snap.alarmActive
    ensures var r := Next(Solo(m, o, 5), Elapse(GAP));
      r.pc == Resting && At(r, GAP, 0, TurningOn(0), false) && r.dev.snap.alarmActive && OnTime(r, TERMS)
  {
    Ignored(m, o);
  }

  lemma {:induction false} SecondTick(m: Machine, o: Oracle)
    requires m.pc == Resting && At(m, GAP, 0, TurningOn(0), false) && m.dev.snap.alarmActive
    ensures var r := Next(Solo(m, o, 12), Elapse(GAP));
      r.pc.CloseDue? && At(r, 2 * GAP, GAP, Idle, true) && r.dev.snap.alarmActive && OnTime(r, TERMS)
  {
    FindsOpen(m, o);
  }

  lemma {:induction false} ThirdTick(m: Machine, o: Oracle)
    requires m.pc.CloseDue? && At(m, 2 * GAP, GAP, Idle, true) && m.dev.snap.alarmActive
    ensures var r := Next(Solo(m, o, 16), Elapse(GAP));
      r.pc == Resting && At(r, 3 * GAP, 2 * GAP, TurningOff(2 * GAP), true) && OnTime(r, TERMS)
  {
    var x := Solo(m, o, 3);
    OrdersLate(m, o);
    SeesClosing(x, o);
    LeavesClosing(Solo(x, o, 11), o);
    ToSeenThen(x, o);
    Rests(x, o, 12);
    SoloSplit(m, o, 3, 13);
  }

  lemma {:induction false} LastTick(m: Machine, o: Oracle)
    requires m.pc == Resting && At(m, 3 * GAP, 2 * GAP, TurningOff(2 * GAP), true)
    ensures var r := Next(Solo(m, o, 1), Elapse(GAP - 1));
      r.clock == 4 * GAP - 1 && !r.dev.valve.Closed() && OnTime(r, TERMS)
  {
    Solo1(m, o);
  }

  lemma {:induction false} AllTicks(m: Machine, o: Oracle) returns (after: seq<Step>)
    requires m.pc.Latched? && At(m, 0, 0, TurningOn(0), false) && m.dev.snap.alarmActive
    ensures CalmRun(m, after, TERMS) && OnTime(Run(m, after), TERMS)
    ensures Run(m, after).clock == 4 * GAP - 1 && !Run(m, after).dev.valve.Closed()
  {
    assert Run(m, []) == m;
    Stretch(m, [], o, 5, GAP);
    FirstTick(m, o);
    var a := [] + (Ticks(o, 5) + [Elapse(GAP)]);
    var x := Run(m, a);
    Stretch(m, a, o, 12, GAP);
    SecondTick(x, o);
    var b := a + (Ticks(o, 12) + [Elapse(GAP)]);
    var y := Run(m, b);
    Stretch(m, b, o, 16, GAP);
    ThirdTick(y, o);
    var c := b + (Ticks(o, 16) + [Elapse(GAP)]);
    Stretch(m, c, o, 1, GAP - 1);
    LastTick(Run(m, c), o);
    after := c + (Ticks(o, 1) + [Elapse(GAP - 1)]);
  }

  lemma {:induction false} OrderOpens(m: Machine)
    requires m == Next(Initial(LATE, None), Order(Water(true), 0))
    ensures m.pc == Resting && At(m, 0, 0, TurningOn(0), false) && !m.dev.snap.alarmActive
  {
  }

  /** A run as in `ClosedByDeadline`, with gaps and ticks of up to ten seconds: the valve is still not closed
      after two sequences, two gaps and one tick. */
  lemma {:induction false} ClosesLate() returns (before: seq<Step>, after: seq<Step>)
    ensures var m := Run(Initial(LATE, None), before);
      m.pc.Seen? && TickStep(m, WORKING).pc.Latched? && m.dev.config.alarm.enabled
    ensures var m := TickStep(Run(Initial(LATE, None), before), WORKING);
      && Terms(m.dev.valve.timing, GAP, GAP, m.clock) == TERMS
      && CalmRun(m, after, TERMS) && OnTime(Run(m, after), TERMS)
      && Run(m, after).clock >= m.clock + 2 * (TERMS.t.SequenceMs() + GAP) + GAP
      && !Run(m, after).dev.valve.Closed()
  {
    var m0 := Initial(LATE, None);
    var order := Order(Water(true), 0);
    var m1 := Next(m0, order);
    RunOne(m0, order);
    RunTicks(m1, WORKING, 11);
    RunJoins(m0, [order], Ticks(WORKING, 11));
    before := [order] + Ticks(WORKING, 11);
    OrderOpens(m1);
    Latches(m1, WORKING);
    after := AllTicks(TickStep(Run(m0, before), WORKING), WORKING);
  }
}
