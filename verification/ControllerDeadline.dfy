/** Once the alarm latches, the valve is closed within two sequences and two tick gaps. */
module ControllerDeadline {
  import opened Wrappers
  import opened WaterValves
  import opened Controllers
  import opened Machines
  import ControllerSafety

  /** The hypotheses from the latch on: timing `t` fixed, a tick reads the clock at most `g`
      after the previous one, a tick takes at most `d`, counted from the latch at `l`. */
  datatype Terms = Terms(t: Timing, g: nat, d: nat, l: nat) {
    /** No later than this the closing sequence has begun. */
    function Begun(): nat { l + t.SequenceMs() + g + d }

    function Due(): nat { l + 2 * (t.SequenceMs() + g) + 2 * d }
  }

  /** The step turns nothing on, clears nothing, disables nothing and changes no timing. */
  predicate Calm(step: Step, terms: Terms) {
    match step
    case Order(command, _) => command != Water(true)
    case Clear => false
    case SetTiming(timing) => timing == terms.t
    case SetConfig(config) => config.alarm.enabled
    case PowerCut(_) => false
    case _ => true
  }

  predicate OnTime(m: Machine, terms: Terms) {
    m.lastRead <= m.clock <= m.lastRead + if m.pc.Resting? then terms.g else terms.d
  }

  /** Before the valve is ticked, in this tick. */
  predicate BeforeValve(pc: Pc) {
    pc.Started? || pc.TickedSprinkler1? || pc.TickedSprinkler2?
  }

  predicate Reading(m: Machine) {
    !m.pc.Resting? ==> m.pc.now == m.lastRead
  }

  /** An enabled alarm stays the only thing the tick thread has read. */
  predicate SawEnabled(m: Machine) {
    m.dev.config.alarm.enabled &&
    (m.pc.HasConfig? ==> m.pc.alarm.enabled) && (m.pc.Checked? ==> m.pc.alarm.enabled) &&
    (m.pc.Seen? ==> m.pc.alarm.enabled)
  }

  /** Where the valve is on its way to closed, and how late that can be. A phase that has
      been ticked was ticked before its end. */
  ghost predicate Progress(m: Machine, terms: Terms) {
    var slack := if BeforeValve(m.pc) then terms.g else 0;
    match m.dev.valve.phase
    case TurningOn(start) => start <= terms.l && m.lastRead < terms.l + terms.t.SequenceMs() + slack
    case TurningOff(start) => start <= terms.Begun() && m.lastRead < terms.Begun() + terms.t.SequenceMs() + slack
    case Idle => m.dev.valve.userState ==>
      m.lastRead < terms.l + terms.t.SequenceMs() + terms.g && (m.pc.CloseOrdered? ==> m.pc.at <= m.clock)
    case Draining(_) => !m.dev.valve.userState
  }

  ghost predicate Closing(m: Machine, terms: Terms) {
    && ControllerSafety.Safe(m) && m.dev.snap.alarmActive
    && m.dev.valve.timing == terms.t && SawEnabled(m) && Reading(m)
    && (m.pc.CloseOrdered? ==> m.pc.at <= m.clock)
    && (m.dev.valve.phase.TurningOn? ==> !m.dev.valve.userState)
    && Progress(m, terms)
  }

  lemma {:induction false} ClosingTickValve(m: Machine, o: Oracle, terms: Terms)
    requires Closing(m, terms) && OnTime(m, terms) && m.pc.TickedSprinkler2?
    ensures Closing(TickStep(m, o), terms)
  {
  }

  lemma {:induction false} ClosingTickStart(m: Machine, o: Oracle, terms: Terms)
    requires Closing(m, terms) && OnTime(m, terms) && m.pc.Resting?
    ensures Closing(TickStep(m, o), terms)
  {
  }

  lemma {:induction false} ClosingTickOrder(m: Machine, o: Oracle, terms: Terms)
    requires Closing(m, terms) && OnTime(m, terms) && m.pc.CloseOrdered?
    ensures Closing(TickStep(m, o), terms)
  {
  }

  lemma {:induction false} RestKeeps(m: Machine, o: Oracle)
    requires !m.pc.TickedSprinkler2? && !m.pc.Resting? && !m.pc.CloseOrdered?
    ensures var r := TickStep(m, o);
      && r.dev.valve == m.dev.valve && r.dev.config == m.dev.config && r.clock == m.clock && r.lastRead == m.lastRead
      && (r.pc.Resting? || r.pc.now == m.pc.now) && BeforeValve(r.pc) == BeforeValve(m.pc)
      && (r.pc.CloseOrdered? ==> r.pc.at == m.clock)
  {
  }

  lemma {:induction false} RestKeepsAlarm(m: Machine, o: Oracle)
    requires !m.pc.TickedSprinkler2? && !m.pc.Resting? && !m.pc.CloseOrdered?
    requires SawEnabled(m) && m.dev.snap.alarmActive
    ensures SawEnabled(TickStep(m, o)) && TickStep(m, o).dev.snap.alarmActive
  {
  }

  lemma {:induction false} ClosingTickRest(m: Machine, o: Oracle, terms: Terms)
    requires Closing(m, terms) && OnTime(m, terms)
    requires !m.pc.TickedSprinkler2? && !m.pc.Resting? && !m.pc.CloseOrdered?
    ensures Closing(TickStep(m, o), terms)
  {
    ControllerSafety.SafeStep(m, Tick(o));
    RestKeeps(m, o);
    RestKeepsAlarm(m, o);
  }

  lemma {:induction false} ClosingOther(m: Machine, step: Step, terms: Terms)
    requires Closing(m, terms) && OnTime(m, terms) && Calm(step, terms) && !step.Tick?
    ensures Closing(Next(m, step), terms)
  {
    ControllerSafety.SafeStep(m, step);
  }

  lemma {:induction false} ClosingStep(m: Machine, step: Step, terms: Terms)
    requires Closing(m, terms) && OnTime(m, terms) && Calm(step, terms)
    ensures Closing(Next(m, step), terms)
  {
    if !step.Tick? {
      ClosingOther(m, step, terms);
    } else if m.pc.TickedSprinkler2? {
      ClosingTickValve(m, step.o, terms);
    } else if m.pc.Resting? {
      ClosingTickStart(m, step.o, terms);
    } else if m.pc.CloseOrdered? {
      ClosingTickOrder(m, step.o, terms);
    } else {
      ClosingTickRest(m, step.o, terms);
    }
  }

  ghost predicate CalmRun(m: Machine, steps: seq<Step>, terms: Terms) {
    forall i :: 0 <= i < |steps| ==> Calm(steps[i], terms) && OnTime(Run(m, steps[..i]), terms)
  }

  lemma {:induction false} ClosingAlways(m: Machine, steps: seq<Step>, terms: Terms)
    requires Closing(m, terms) && CalmRun(m, steps, terms)
    ensures Closing(Run(m, steps), terms)
  {
    if steps != [] {
      var before := steps[..|steps| - 1];
      assert forall i :: 0 <= i < |before| ==> before[..i] == steps[..i] && before[i] == steps[i];
      ClosingAlways(m, before, terms);
      assert OnTime(Run(m, steps[..|steps| - 1]), terms);
      ClosingStep(Run(m, before), steps[|steps| - 1], terms);
    }
  }

  // ----- the state at the latch -----

  /** Every start time lies in the past, and only a settled valve is on. */
  ghost predicate WellTimed(m: Machine) {
    && m.lastRead <= m.clock && Reading(m)
    && (m.pc.CloseOrdered? ==> m.pc.at <= m.clock)
    && match m.dev.valve.phase
       case Idle => true
       case TurningOn(start) => start <= m.clock && !m.dev.valve.userState
       case TurningOff(start) => start <= m.clock
       case Draining(start) => start <= m.clock && !m.dev.valve.userState
  }

  lemma {:induction false} WellTimedTick(m: Machine, o: Oracle)
    requires WellTimed(m)
    ensures WellTimed(TickStep(m, o))
  {
  }

  lemma {:induction false} WellTimedStep(m: Machine, step: Step)
    requires WellTimed(m)
    ensures WellTimed(Next(m, step))
  {
    if step.Tick? {
      WellTimedTick(m, step.o);
    }
  }

  lemma {:induction false} WellTimedAlways(m: Machine, steps: seq<Step>)
    requires WellTimed(m)
    ensures WellTimed(Run(m, steps))
  {
    if steps != [] {
      WellTimedAlways(m, steps[..|steps| - 1]);
      WellTimedStep(Run(m, steps[..|steps| - 1]), steps[|steps| - 1]);
    }
  }

  lemma {:induction false} ClosingFromLatch(m: Machine, o: Oracle, terms: Terms)
    requires WellTimed(m) && ControllerSafety.Safe(m) && m.pc.Seen? && TickStep(m, o).pc.Latched?
    requires m.dev.config.alarm.enabled && terms.t == m.dev.valve.timing && terms.l == m.clock
    ensures Closing(TickStep(m, o), terms)
  {
  }

  /** After any history, from the moment the alarm latches: if nothing is turned on,
      cleared, disabled or retimed any more and ticks keep to `g` and `d`, the valve is
      closed 2 * (sequence + g) + 2 * d after the latch at the latest, and between ticks
      already `d` earlier. */
  lemma {:induction false} ClosedByDeadline(config: Config, store: Option<Store>, before: seq<Step>, o: Oracle,
      after: seq<Step>, g: nat, d: nat)
    requires var m := Run(Initial(config, store), before);
      m.pc.Seen? && TickStep(m, o).pc.Latched? && m.dev.config.alarm.enabled
    requires var m := TickStep(Run(Initial(config, store), before), o);
      var terms := Terms(m.dev.valve.timing, g, d, m.clock);
      CalmRun(m, after, terms) && OnTime(Run(m, after), terms)
    ensures var m := TickStep(Run(Initial(config, store), before), o);
      var (r, sequence) := (Run(m, after), m.dev.valve.timing.SequenceMs());
      && (r.clock >= m.clock + 2 * (sequence + g) + 2 * d ==> r.dev.valve.Closed())
      && (r.pc.Resting? && r.clock >= m.clock + 2 * (sequence + g) + d ==> r.dev.valve.Closed())
  {
    var m := Run(Initial(config, store), before);
    WellTimedAlways(Initial(config, store), before);
    ControllerSafety.SafeAlways(Initial(config, store), before);
    var latched := TickStep(m, o);
    var terms := Terms(latched.dev.valve.timing, g, d, latched.clock);
    ClosingFromLatch(m, o, terms);
    ClosingAlways(latched, after, terms);
    ClosedWhenDue(Run(latched, after), terms);
  }

  lemma {:induction false} ClosedWhenDue(m: Machine, terms: Terms)
    requires Closing(m, terms) && OnTime(m, terms)
    ensures m.clock >= terms.Due() ==> m.dev.valve.Closed()
    ensures m.pc.Resting? && m.clock >= terms.Due() - terms.d ==> m.dev.valve.Closed()
  {
  }
}
