/** The sprinklers' pins, and what the flow alarm makes of them, under every interleaving. */
module ControllerWatering {
  import opened Wrappers
  import opened WaterValves
  import opened Controllers
  import opened Machines
  import S = ControllerSprinklers
  import A = ControllerAlarm

  // ----- what an evaluation sees is what its tick returns -----

  /** The pins a tick has settled on. */
  predicate HasPins(pc: Pc) {
    !pc.Resting? && !pc.Started? && !pc.TickedSprinkler1? && !pc.TickedSprinkler2? && !pc.TickedValve? &&
    !pc.SawSprinkler1? && !pc.SawSprinkler2?
  }

  predicate SamePins(seen: Snapshot, pins: Pins) {
    seen.sprinkler1 == pins.sprinkler1 && seen.sprinkler2 == pins.sprinkler2
  }

  predicate Shown(m: Machine) {
    match m.pc
    case SawValve(_, s1, s2, _, pins) => s1 == pins.sprinkler1 && s2 == pins.sprinkler2
    case SnapshotSet(_, pins) => SamePins(m.dev.snap, pins)
    case HasConfig(_, pins, _) => SamePins(m.dev.snap, pins)
    case Checked(_, pins, _, _) => SamePins(m.dev.snap, pins)
    case Seen(_, pins, _, _, seen) => SamePins(seen, pins)
    case _ => true
  }

  lemma {:induction false} ShownTick(m: Machine, o: Oracle)
    requires Shown(m)
    ensures Shown(TickStep(m, o))
  {
  }

  lemma {:induction false} ShownStep(m: Machine, step: Step)
    requires Shown(m)
    ensures Shown(Next(m, step))
  {
    if step.Tick? { ShownTick(m, step.o); }
  }

  lemma {:induction false} ShownAlways(m: Machine, steps: seq<Step>)
    requires Shown(m)
    ensures Shown(Run(m, steps))
  {
    if steps != [] {
      ShownAlways(m, steps[..|steps| - 1]);
      ShownStep(Run(m, steps[..|steps| - 1]), steps[|steps| - 1]);
    }
  }

  /** The flow last reported since boot. */
  function Reported(steps: seq<Step>): Option<real> {
    if steps == [] then None
    else
      match steps[|steps| - 1]
      case ReportFlow(flow) => flow
      case PowerCut(_) => None
      case _ => Reported(steps[..|steps| - 1])
  }

  lemma {:induction false} FlowKept(m: Machine, step: Step)
    ensures Next(m, step).dev.snap.flow ==
      match step
      case ReportFlow(flow) => flow
      case PowerCut(_) => None
      case _ => m.dev.snap.flow
  {
  }

  lemma {:induction false} FlowIsReported(config: Config, store: Option<Store>, steps: seq<Step>)
    ensures Run(Initial(config, store), steps).dev.snap.flow == Reported(steps)
  {
    if steps != [] {
      FlowIsReported(config, store, steps[..|steps| - 1]);
      FlowKept(Run(Initial(config, store), steps[..|steps| - 1]), steps[|steps| - 1]);
    }
  }

  /** The step that takes the evaluation's snapshot, in any run: what it saw of the sprinklers is what this
      tick returns, and what it saw of the flow is what was reported last. */
  lemma {:induction false} SnapshotIsTrue(config: Config, store: Option<Store>, steps: seq<Step>, o: Oracle)
    requires Run(Initial(config, store), steps).pc.Checked?
    ensures var r := Run(Initial(config, store), steps + [Tick(o)]);
      r.pc.Seen? ==> SamePins(r.pc.seen, r.pc.pins) && r.pc.seen.flow == Reported(steps)
  {
    ShownAlways(Initial(config, store), steps);
    FlowIsReported(config, store, steps);
    assert (steps + [Tick(o)])[..|steps|] == steps;
  }

  /** Whenever a tick evaluates, in any run: with a sprinkler pin of this tick high or less flow than the
      threshold the counter is zero afterwards, and only a duration of zero can fire; else it has grown by the
      seconds since the last check, as far as 32 bits go. */
  lemma {:induction false} WateringResets(config: Config, store: Option<Store>, steps: seq<Step>, o: Oracle)
    requires Run(Initial(config, store), steps).pc.Seen?
    ensures var (m, r) := (Run(Initial(config, store), steps), Run(Initial(config, store), steps + [Tick(o)]));
      var flow := if m.pc.seen.flow.Some? then m.pc.seen.flow.value else 0.0;
      var sum := m.dev.snap.alarmElapsed + m.pc.delta;
      && (m.pc.pins.sprinkler1 || m.pc.pins.sprinkler2 || flow < m.pc.alarm.threshold ==>
           r.dev.snap.alarmElapsed == 0 && (r.pc.Latched? ==> m.pc.alarm.durationSecs == 0))
      && (!m.pc.pins.sprinkler1 && !m.pc.pins.sprinkler2 && flow >= m.pc.alarm.threshold ==>
           r.dev.snap.alarmElapsed == if sum > 0xFFFF_FFFF then 0xFFFF_FFFF else sum)
  {
    ShownAlways(Initial(config, store), steps);
    assert (steps + [Tick(o)])[..|steps|] == steps;
  }

  // ----- every evaluation on the log -----

  /** Step `n` made the evaluation at index `k` of the log, in a tick that returns `pins`. */
  predicate EvaluatedBy(m: Machine, steps: seq<Step>, k: nat, n: nat, pins: Pins) {
    && n < |steps| && k < |Run(m, steps).log| && steps[n].Tick?
    && (Run(m, steps[..n]).pc.Seen? || Run(m, steps[..n]).pc.Checked?)
    && Run(m, steps[..n]).pc.pins == pins
    && Run(m, steps[..n]).log == Run(m, steps).log[..k]
    && Run(m, steps[..n + 1]).log == Run(m, steps).log[..k + 1]
  }

  lemma {:induction false} LogGrows(m: Machine, step: Step)
    ensures var (l, r) := (m.log, Next(m, step).log);
      r == l || (|r| == |l| + 1 && r[..|l|] == l)
    ensures var (l, r) := (m.log, Next(m, step).log);
      |r| > |l| && r[|l|].Evaluated? ==>
        step.Tick? && (m.pc.Seen? || m.pc.Checked?) && r[|l|].seen == if m.pc.Seen? then m.pc.seen else m.dev.snap
  {
  }

  lemma {:induction false} StillEvaluated(m0: Machine, steps: seq<Step>, k: nat, n: nat, pins: Pins)
    requires steps != [] && EvaluatedBy(m0, steps[..|steps| - 1], k, n, pins)
    ensures EvaluatedBy(m0, steps, k, n, pins) && Run(m0, steps).log[k] == Run(m0, steps[..|steps| - 1]).log[k]
  {
    var before := steps[..|steps| - 1];
    var (l, r) := (Run(m0, before).log, Run(m0, steps).log);
    LogGrows(Run(m0, before), steps[|steps| - 1]);
    assert before[..n] == steps[..n] && before[..n + 1] == steps[..n + 1];
    assert r[..|l|][..k] == r[..k] && r[..|l|][..k + 1] == r[..k + 1] && r[..|l|][k] == r[k];
  }

  /** Every evaluation on the log of any run saw the sprinklers as the tick it belongs to returns them. */
  lemma {:induction false} EvaluationsSeePins(config: Config, store: Option<Store>, steps: seq<Step>, k: nat)
    returns (n: nat, pins: Pins)
    requires k < |Run(Initial(config, store), steps).log| && Run(Initial(config, store), steps).log[k].Evaluated?
    ensures EvaluatedBy(Initial(config, store), steps, k, n, pins)
    ensures SamePins(Run(Initial(config, store), steps).log[k].seen, pins)
  {
    var m0 := Initial(config, store);
    var (before, step) := (steps[..|steps| - 1], steps[|steps| - 1]);
    var m := Run(m0, before);
    LogGrows(m, step);
    if k < |m.log| {
      n, pins := EvaluationsSeePins(config, store, before, k);
      StillEvaluated(m0, steps, k, n, pins);
    } else {
      ShownAlways(m0, before);
      n, pins := |before|, m.pc.pins;
      assert steps[..n + 1] == steps;
    }
  }

  /** Once settled the pins are what the tick returns, whatever falls between its steps. */
  lemma {:induction false} PinsAreReturned(m: Machine, step: Step)
    requires HasPins(m.pc) && !step.PowerCut?
    ensures var r := Next(m, step);
      if r.pc.Resting? then r.pins == m.pc.pins else HasPins(r.pc) && r.pc.pins == m.pc.pins
  {
  }

  /** A fire with a positive duration comes at the end of a stretch as long as that, in which every tick that
      evaluated returned with both sprinklers off and saw the alarm enabled and enough flow. */
  lemma {:induction false} FireIsDry(config: Config, store: Option<Store>, steps: seq<Step>, i: nat) returns (r: nat)
    requires var log := Run(Initial(config, store), steps).log;
      i < |log| && log[i].Evaluated? && log[i].fired.Some? && log[i].alarm.durationSecs > 0
    ensures var log := Run(Initial(config, store), steps).log;
      && r < i && log[r].Evaluated? && log[r].now + 1000 * log[i].alarm.durationSecs <= log[i].now
      && forall k :: r < k <= i && log[k].Evaluated? ==> Dry(config, store, steps, k)
  {
    r := A.FireIsSustained(config, store, steps, i);
    var log := Run(Initial(config, store), steps).log;
    forall k | r < k <= i && log[k].Evaluated? ensures Dry(config, store, steps, k) {
      var n, pins := EvaluationsSeePins(config, store, steps, k);
    }
  }

  ghost predicate Dry(config: Config, store: Option<Store>, steps: seq<Step>, k: nat) {
    var log := Run(Initial(config, store), steps).log;
    && k < |log| && log[k].Evaluated? && log[k].alarm.enabled
    && (if log[k].seen.flow.Some? then log[k].seen.flow.value else 0.0) >= log[k].alarm.threshold
    && exists n, pins :: EvaluatedBy(Initial(config, store), steps, k, n, pins) &&
                         !pins.sprinkler1 && !pins.sprinkler2
  }

  // ----- one undisturbed tick -----

  /** When one tick latches the alarm, from its inputs: the alarm is enabled, was not latched, and has no
      duration, or both sprinklers are returned off, the flow is enough and the seconds add up. */
  lemma {:induction false} LatchesWhen(d: Device, store: Option<Store>, i: Inputs)
    requires !d.snap.alarmActive && d.snap.alarmElapsed <= 0xFFFF_FFFF
    requires d.lastCheck.Some? && d.lastCheck.value <= i.now < 0xFFFF_FFFF * 1000
    ensures var (r, pins, alarm) := (TickedOnce(d, store, i).0, TickedOnce(d, store, i).2, d.config.alarm);
      var flow := if d.snap.flow.Some? then d.snap.flow.value else 0.0;
      var sum := d.snap.alarmElapsed + (i.now - d.lastCheck.value) / 1000;
      r.snap.alarmActive <==>
      alarm.enabled &&
      (alarm.durationSecs == 0 ||
       (!pins.sprinkler1 && !pins.sprinkler2 && flow >= alarm.threshold &&
        (if sum > 0xFFFF_FFFF then 0xFFFF_FFFF else sum) >= alarm.durationSecs))
  {
  }

  // ----- the pins follow the switches -----

  /** What the tick under way has read of the sprinkler, once it has. */
  predicate ReadAs(pc: Pc, second: bool, on: bool) {
    match pc
    case SawSprinkler1(_, _, s1) => second || s1 == on
    case SawSprinkler2(_, _, s1, s2) => if second then s2 == on else s1 == on
    case _ => HasPins(pc) ==> PinOf(pc.pins, second) == on
  }

  function PinOf(pins: Pins, second: bool): bool {
    if second then pins.sprinkler2 else pins.sprinkler1
  }

  /** The sprinkler is on, or off, in every state of the run. */
  predicate Throughout(m: Machine, steps: seq<Step>, second: bool, on: bool) {
    S.Sprinkler(Run(m, steps), second).on == on &&
    (steps == [] || Throughout(m, steps[..|steps| - 1], second, on))
  }

  lemma {:induction false} ReadsOn(m: Machine, step: Step, second: bool, on: bool)
    requires ReadAs(m.pc, second, on) && S.Sprinkler(m, second).on == on
    ensures var r := Next(m, step);
      ReadAs(r.pc, second, on) && (step.Tick? && r.pc.Resting? ==> PinOf(r.pins, second) == on)
  {
  }

  /** A tick that begins and returns while a sprinkler is on, or off, all the time returns its pin high, or
      low, whatever falls between its steps. */
  lemma {:induction false} PinsFollow(m: Machine, steps: seq<Step>, step: Step, second: bool, on: bool)
    requires m.pc.Resting? && Throughout(m, steps, second, on)
    ensures ReadAs(Run(m, steps).pc, second, on)
    ensures var r := Next(Run(m, steps), step);
      step.Tick? && r.pc.Resting? ==> PinOf(r.pins, second) == on
  {
    if steps != [] {
      PinsFollow(m, steps[..|steps| - 1], steps[|steps| - 1], second, on);
      ReadsOn(Run(m, steps[..|steps| - 1]), steps[|steps| - 1], second, on);
    }
    ReadsOn(Run(m, steps), step, second, on);
  }

  // ----- orders -----

  function SwitchOrder(second: bool, on: bool): Command {
    if second then Sprinkler2(on) else Sprinkler1(on)
  }

  /** Turns this sprinkler on, or may. */
  predicate TurnsOn(step: Step, second: bool) {
    (step.Order? && step.command == SwitchOrder(second, true)) || (step.FireSchedule? && step.second == second)
  }

  lemma {:induction false} OffStays(m: Machine, step: Step, second: bool)
    requires !S.Sprinkler(m, second).on && !TurnsOn(step, second)
    ensures !S.Sprinkler(Next(m, step), second).on
  {
  }

  /** A manual off switches the sprinkler off at once, override or not, and it stays off until it is turned
      on again: every tick that begins and returns in between returns its pin low. */
  lemma {:induction false} OffOrderStops(m: Machine, second: bool, age: nat, steps: seq<Step>)
    requires forall i :: 0 <= i < |steps| ==> !TurnsOn(steps[i], second)
    ensures Throughout(Next(m, Order(SwitchOrder(second, false), age)), steps, second, false)
  {
    if steps != [] {
      var init := steps[..|steps| - 1];
      assert forall i :: 0 <= i < |init| ==> init[i] == steps[i];
      OffOrderStops(m, second, age, init);
      OffStays(Run(Next(m, Order(SwitchOrder(second, false), age)), init), steps[|steps| - 1], second);
    }
  }

  function SetAutoOff(second: bool, secs: nat): Step {
    if second then SetAutoOff2(secs) else SetAutoOff1(secs)
  }

  /** The configured limit is in seconds; an order after the change starts an activation with this limit, or
      with none if it is zero. */
  lemma {:induction false} LimitInSeconds(m: Machine, second: bool, secs: nat, age: nat)
    requires !S.Sprinkler(m, second).on && m.lastRead <= m.clock && (!m.pc.Resting? ==> m.pc.now == m.lastRead)
    ensures var r := Next(Next(m, SetAutoOff(second, secs)), Order(SwitchOrder(second, true), age));
      var since := if age <= m.clock then m.clock - age else 0;
      && (secs > 0 ==> S.Activated(r, S.Activation(second, since, 1000 * secs, false, m.clock)))
      && (secs == 0 ==> S.Sprinkler(r, second).on && S.Sprinkler(r, second).Limit() == None)
  {
  }
}
