/** Where the valve was last driven, against where the controller believes it to be. */
module ControllerRecovery {
  import opened Wrappers
  import opened WaterValves
  import opened Controllers
  import opened Machines
  import opened ControllerPersistence
  import V = ValveRuns

  /** The direction a coil was driven in last: `true` for opening. */
  function After(pins: Outputs, before: Option<bool>): Option<bool> {
    if pins.openMotor then Some(true) else if pins.closeMotor then Some(false) else before
  }

  /** The same over a run: the pins change when a tick returns. */
  function Driven(m: Machine, steps: seq<Step>, before: Option<bool>): Option<bool> {
    if steps == [] then before
    else
      var (init, step) := (steps[..|steps| - 1], steps[|steps| - 1]);
      var r := Run(m, steps);
      if step.Tick? && r.pc.Resting? then After(r.pins.valve, Driven(m, init, before)) else Driven(m, init, before)
  }

  // ----- an uninterrupted sequence -----

  function LastDriven(trace: seq<V.Drive>, before: Option<bool>): Option<bool> {
    if trace == [] then before
    else After(trace[|trace| - 1].pins, LastDriven(trace[..|trace| - 1], before))
  }

  lemma {:induction false} LastDrivenIs(trace: seq<V.Drive>, open: bool, i: nat, before: Option<bool>)
    requires i < |trace| && V.Coil(trace[i], open)
    requires forall k :: 0 <= k < |trace| ==> !V.Coil(trace[k], !open)
    ensures LastDriven(trace, before) == Some(open)
  {
    var n := |trace| - 1;
    assert !V.Coil(trace[n], !open);
    if i < n {
      LastDrivenIs(trace[..n], open, i, before);
    }
  }

  /** A sequence that completes with tick gaps no longer than the motor time leaves the state where the
      coil was driven. */
  lemma {:induction false} SequenceAgrees(v: Valve, events: seq<V.Event>, g: nat, before: Option<bool>)
    requires V.OneSequence(v, events, g) && g <= v.timing.MotorRunMs()
    ensures LastDriven(V.Trace(v, events), before) == Some(V.Run(v, events).userState)
  {
    var i, j := V.OnePulse(v, events, g);
    LastDrivenIs(V.Trace(v, events), v.phase.TurningOn?, i, before);
  }

  /** One millisecond more can skip the pulse: the valve counts as open, and no coil was driven. */
  lemma {:induction false} LongGapSkipsPulse(timing: Timing)
    ensures var v := Valve(TurningOn(0), false, timing);
      var (first, last) := (SETTLE_MS - 1, SETTLE_MS + timing.MotorRunMs());
      && last - first == timing.MotorRunMs() + 1
      && v.Ticked(first) == (v, ALL_LOW) && v.Ticked(last) == (v, ALL_LOW)
      && v.Ticked(timing.SequenceMs()) == (v.(phase := Idle, userState := true), ALL_LOW)
  {
  }

  // ----- over whole runs, power cuts included -----

  /** What a run leaves to know besides the machine: the clock reading of the latest tick that returned;
      whether storage is behind the valve; and whether the coil is adrift of it since a power cut. */
  datatype Track = Track(returned: nat, behind: bool, adrift: bool)

  predicate Drives(pins: Outputs) { pins.openMotor || pins.closeMotor }

  /** A sequence whose coil has been driven and that has not completed. */
  predicate Moving(v: Valve, returned: nat) {
    v.IsBusy() && v.phase.startMs + SETTLE_MS <= returned
  }

  /** Where the controller knows the coil to have been driven: where the valve rests, or against that once a
      sequence has begun to drive. */
  function Known(m: Machine, t: Track): bool {
    m.dev.valve.userState != Moving(m.dev.valve, t.returned)
  }

  function Followed(t: Track, m: Machine, step: Step): Track {
    var r := Next(m, step);
    match step
    case Tick(_) =>
      var completes := m.pc.TickedSprinkler2? && m.dev.valve.IsBusy() && !r.dev.valve.IsBusy();
      var behind := if r.pc.ValveWritten? then false else t.behind != completes;
      if r.pc.Resting? then Track(r.lastRead, behind, t.adrift && !Drives(r.pins.valve)) else t.(behind := behind)
    case PowerCut(_) =>
      // What was restored against what was driven.
      Track(0, false, t.adrift != (Moving(m.dev.valve, t.returned) != t.behind))
    case _ => t
  }

  function History(m: Machine, steps: seq<Step>, t: Track): Track {
    if steps == [] then t
    else
      var (init, step) := (steps[..|steps| - 1], steps[|steps| - 1]);
      Followed(History(m, init, t), Run(m, init), step)
  }

  /** A tick begins at most `g` after the one before, which is no longer than any motor time; a water
      command's clock reading is less than the settle time older than the latest tick's; and the timing
      changes between sequences only. */
  predicate Steady(m: Machine, step: Step, g: nat) {
    match step
    case Tick(_) => m.pc.Resting? ==> m.clock <= m.lastRead + g
    case Order(command, age) => command.Water? ==> m.lastRead < ReadAgo(m.clock, age) + SETTLE_MS
    case SetTiming(timing) => !m.dev.valve.IsBusy() && g <= timing.MotorRunMs()
    case PowerCut(config) => g <= config.timing.MotorRunMs()
    case _ => true
  }

  ghost predicate SteadyRun(m: Machine, steps: seq<Step>, g: nat) {
    forall i :: 0 <= i < |steps| ==> Steady(Run(m, steps[..i]), steps[i], g)
  }

  /** The pins that the tick under way will return. */
  function Pending(pc: Pc): Outputs {
    match pc
    case Resting => ALL_LOW
    case Started(_) => ALL_LOW
    case TickedSprinkler1(_) => ALL_LOW
    case TickedSprinkler2(_) => ALL_LOW
    case TickedValve(_, out) => out
    case SawSprinkler1(_, out, _) => out
    case SawSprinkler2(_, out, _, _) => out
    case _ => pc.pins.valve
  }

  predicate BeforeValve(pc: Pc) {
    pc.Resting? || pc.Started? || pc.TickedSprinkler1? || pc.TickedSprinkler2?
  }

  /** Clock readings in order, and the valve's phase with its rest state. */
  predicate Timed(m: Machine, t: Track, g: nat) {
    && t.returned <= m.lastRead <= t.returned + g && m.lastRead <= m.clock
    && (if m.pc.Resting? then t.returned == m.lastRead else m.pc.now == m.lastRead)
    && (m.pc.CloseOrdered? ==> m.lastRead <= m.pc.at)
    && g <= m.dev.valve.timing.MotorRunMs()
    && (m.dev.valve.phase.TurningOn? || m.dev.valve.phase.Draining? ==> !m.dev.valve.userState)
    && (m.dev.valve.phase.TurningOff? ==> m.dev.valve.userState)
  }

  /** The pins about to be returned drive a coil only for a sequence under way that is due to drive, and
      they do when it begins to. */
  predicate PinsFit(pins: Outputs, v: Valve, returned: nat, read: nat) {
    && !(pins.openMotor && pins.closeMotor)
    && (Drives(pins) ==> Moving(v, read) && pins.openMotor == v.phase.TurningOn?)
    && (Moving(v, read) && !Moving(v, returned) ==> Drives(pins))
  }

  predicate Fits(m: Machine, t: Track) {
    if BeforeValve(m.pc) then true else PinsFit(Pending(m.pc), m.dev.valve, t.returned, m.lastRead)
  }

  /** Storage lags behind the valve exactly as recorded. */
  predicate Stored(m: Machine, t: Track) {
    && (Decoded(m.store) == Some(true)) == (m.dev.valve.userState != t.behind)
    && (if m.pc.ValveWritten? then Decoded(m.store) == Some(m.pc.on) else m.dev.persisted == Decoded(m.store))
    && (m.pc.HasUserState? || m.pc.ValveWritten? ==> m.pc.on == m.dev.valve.userState)
  }

  predicate Placed(m: Machine, t: Track, coil: Option<bool>) {
    && coil == Some(Known(m, t) != t.adrift)
    && (Moving(m.dev.valve, t.returned) ==> !t.adrift)
  }

  ghost predicate Held(m: Machine, t: Track, coil: Option<bool>, g: nat) {
    Timed(m, t, g) && Fits(m, t) && Stored(m, t) && Placed(m, t, coil)
  }

  function CoilAfter(m: Machine, step: Step, coil: Option<bool>): Option<bool> {
    var r := Next(m, step);
    if step.Tick? && r.pc.Resting? then After(r.pins.valve, coil) else coil
  }

  lemma {:induction false} HeldStart(m: Machine, o: Oracle, t: Track, coil: Option<bool>, g: nat)
    requires Held(m, t, coil, g) && Steady(m, Tick(o), g) && BeforeValve(m.pc) && !m.pc.TickedSprinkler2?
    ensures Held(TickStep(m, o), Followed(t, m, Tick(o)), CoilAfter(m, Tick(o), coil), g)
  {
  }

  lemma {:induction false} HeldValve(m: Machine, o: Oracle, t: Track, coil: Option<bool>, g: nat)
    requires Held(m, t, coil, g) && m.pc.TickedSprinkler2?
    ensures Held(TickStep(m, o), Followed(t, m, Tick(o)), CoilAfter(m, Tick(o), coil), g)
  {
  }

  predicate Carries(pc: Pc) {
    !BeforeValve(pc) && !pc.CloseOrdered? && !pc.Persisting? && !pc.HasUserState? && !pc.ValveWritten?
  }

  lemma {:induction false} CarriesOn(m: Machine, o: Oracle)
    requires Carries(m.pc)
    ensures var r := TickStep(m, o);
      && r.dev.valve == m.dev.valve && r.dev.persisted == m.dev.persisted && Decoded(r.store) == Decoded(m.store)
      && r.clock == m.clock && r.lastRead == m.lastRead
      && !BeforeValve(r.pc) && !r.pc.HasUserState? && !r.pc.ValveWritten? && r.pc.now == m.pc.now
      && Pending(r.pc) == Pending(m.pc) && (r.pc.CloseOrdered? ==> r.pc.at == m.clock)
  {
  }

  lemma {:induction false} HeldCarried(m: Machine, o: Oracle, t: Track, coil: Option<bool>, g: nat)
    requires Held(m, t, coil, g) && Carries(m.pc)
    ensures Held(TickStep(m, o), Followed(t, m, Tick(o)), CoilAfter(m, Tick(o), coil), g)
  {
    CarriesOn(m, o);
  }

  lemma {:induction false} HeldClose(m: Machine, o: Oracle, t: Track, coil: Option<bool>, g: nat)
    requires Held(m, t, coil, g) && m.pc.CloseOrdered?
    ensures Held(TickStep(m, o), Followed(t, m, Tick(o)), CoilAfter(m, Tick(o), coil), g)
  {
  }

  lemma {:induction false} HeldPersist(m: Machine, o: Oracle, t: Track, coil: Option<bool>, g: nat)
    requires Held(m, t, coil, g) && (m.pc.Persisting? || m.pc.ValveWritten?)
    ensures Held(TickStep(m, o), Followed(t, m, Tick(o)), CoilAfter(m, Tick(o), coil), g)
  {
  }

  lemma {:induction false} HeldWrite(m: Machine, o: Oracle, t: Track, coil: Option<bool>, g: nat)
    requires Held(m, t, coil, g) && m.pc.HasUserState?
    ensures Held(TickStep(m, o), Followed(t, m, Tick(o)), CoilAfter(m, Tick(o), coil), g)
  {
    assert DecodeValve(Some(EncodeValve(m.pc.on))) == Some(m.pc.on);
  }

  lemma {:induction false} HeldOrder(m: Machine, command: Command, age: nat, t: Track, coil: Option<bool>, g: nat)
    requires Held(m, t, coil, g) && Steady(m, Order(command, age), g)
    ensures Held(Next(m, Order(command, age)), t, coil, g)
  {
  }

  lemma {:induction false} HeldCut(m: Machine, config: Config, t: Track, coil: Option<bool>, g: nat)
    requires Held(m, t, coil, g) && Steady(m, PowerCut(config), g)
    ensures Held(Next(m, PowerCut(config)), Followed(t, m, PowerCut(config)), coil, g)
  {
  }

  lemma {:induction false} HeldOther(m: Machine, step: Step, t: Track, coil: Option<bool>, g: nat)
    requires Held(m, t, coil, g) && Steady(m, step, g) && !step.Tick? && !step.Order? && !step.PowerCut?
    ensures Held(Next(m, step), t, coil, g)
  {
  }

  lemma {:induction false} HeldTick(m: Machine, o: Oracle, t: Track, coil: Option<bool>, g: nat)
    requires Held(m, t, coil, g) && Steady(m, Tick(o), g)
    ensures Held(TickStep(m, o), Followed(t, m, Tick(o)), CoilAfter(m, Tick(o), coil), g)
  {
    if m.pc.TickedSprinkler2? {
      HeldValve(m, o, t, coil, g);
    } else if BeforeValve(m.pc) {
      HeldStart(m, o, t, coil, g);
    } else if Carries(m.pc) {
      HeldCarried(m, o, t, coil, g);
    } else if m.pc.CloseOrdered? {
      HeldClose(m, o, t, coil, g);
    } else if m.pc.HasUserState? {
      HeldWrite(m, o, t, coil, g);
    } else {
      HeldPersist(m, o, t, coil, g);
    }
  }

  lemma {:induction false} HeldStep(m: Machine, step: Step, t: Track, coil: Option<bool>, g: nat)
    requires Held(m, t, coil, g) && Steady(m, step, g)
    ensures Held(Next(m, step), Followed(t, m, step), CoilAfter(m, step, coil), g)
  {
    match step
    case Tick(o) => HeldTick(m, o, t, coil, g);
    case Order(command, age) => HeldOrder(m, command, age, t, coil, g);
    case PowerCut(config) => HeldCut(m, config, t, coil, g);
    case _ => HeldOther(m, step, t, coil, g);
  }

  lemma {:induction false} SteadyBefore(m: Machine, steps: seq<Step>, g: nat)
    requires SteadyRun(m, steps, g) && steps != []
    ensures SteadyRun(m, steps[..|steps| - 1], g)
    ensures Steady(Run(m, steps[..|steps| - 1]), steps[|steps| - 1], g)
  {
    var init := steps[..|steps| - 1];
    forall i | 0 <= i < |init| ensures Steady(Run(m, init[..i]), init[i], g) {
      assert init[..i] == steps[..i] && init[i] == steps[i];
    }
  }

  lemma {:induction false} HeldAlways(m: Machine, steps: seq<Step>, t: Track, coil: Option<bool>, g: nat)
    requires Held(m, t, coil, g) && SteadyRun(m, steps, g)
    ensures Held(Run(m, steps), History(m, steps, t), Driven(m, steps, coil), g)
  {
    if steps != [] {
      var (init, step) := (steps[..|steps| - 1], steps[|steps| - 1]);
      SteadyBefore(m, steps, g);
      HeldAlways(m, init, t, coil, g);
      HeldStep(Run(m, init), step, History(m, init, t), Driven(m, init, coil), g);
    }
  }

  /** At a first boot with the coil last driven this way. */
  function Fresh(m: Machine, coil: bool): Track {
    Track(0, false, m.dev.valve.userState != coil)
  }

  /** Over every run, power cuts anywhere and writes failing or not: the coil was last driven where the
      controller knows it to be, the other way exactly while it is adrift; and storage says open exactly
      if the valve does, the other way exactly while it is behind. */
  lemma {:induction false} CoilIsKnown(config: Config, store: Option<Store>, steps: seq<Step>, coil: bool, g: nat)
    requires g <= config.timing.MotorRunMs() && SteadyRun(Initial(config, store), steps, g)
    ensures var m0 := Initial(config, store);
      var (m, t) := (Run(m0, steps), History(m0, steps, Fresh(m0, coil)));
      && Driven(m0, steps, Some(coil)) == Some(Known(m, t) != t.adrift)
      && (Decoded(m.store) == Some(true)) == (m.dev.valve.userState != t.behind)
      && (Moving(m.dev.valve, t.returned) ==> !t.adrift)
  {
    var m0 := Initial(config, store);
    HeldAlways(m0, steps, Fresh(m0, coil), Some(coil), g);
  }

  /** When the state restored after a cut agrees with the coil: when nothing was under way and nothing was
      unwritten, or both were, and the coil was not adrift; else only if it was. */
  lemma {:induction false} RestoredAgrees(config: Config, store: Option<Store>, steps: seq<Step>, reloaded: Config,
      coil: bool, g: nat)
    requires g <= config.timing.MotorRunMs() && SteadyRun(Initial(config, store), steps, g)
    ensures var m0 := Initial(config, store);
      var (m, t) := (Run(m0, steps), History(m0, steps, Fresh(m0, coil)));
      Driven(m0, steps, Some(coil)) == Some(Next(m, PowerCut(reloaded)).dev.valve.userState) <==>
      t.adrift == (Moving(m.dev.valve, t.returned) != t.behind)
  {
    CoilIsKnown(config, store, steps, coil, g);
  }

  // ----- the first cut, when writes succeed -----

  predicate Undamaged(m: Machine, step: Step) {
    !step.PowerCut? && (step.Tick? && m.pc.HasUserState? ==> step.o.valveOk)
  }

  ghost predicate UndamagedRun(m: Machine, steps: seq<Step>) {
    forall i :: 0 <= i < |steps| ==> Undamaged(Run(m, steps[..i]), steps[i])
  }

  /** Storage is behind only from the completion to its write, in one tick. */
  predicate Fleeting(m: Machine, t: Track) {
    && m.store.Some? && !t.adrift
    && (t.behind ==> !BeforeValve(m.pc) && !m.pc.ValveWritten? && !Moving(m.dev.valve, m.lastRead))
  }

  lemma {:induction false} FleetingTick(m: Machine, o: Oracle, t: Track, coil: Option<bool>, g: nat)
    requires Held(m, t, coil, g) && Fleeting(m, t) && Undamaged(m, Tick(o))
    ensures Fleeting(TickStep(m, o), Followed(t, m, Tick(o)))
  {
    if Carries(m.pc) { CarriesOn(m, o); }
  }

  lemma {:induction false} FleetingStep(m: Machine, step: Step, t: Track, coil: Option<bool>, g: nat)
    requires Held(m, t, coil, g) && Fleeting(m, t) && Undamaged(m, step) && Steady(m, step, g)
    ensures Fleeting(Next(m, step), Followed(t, m, step))
  {
    if step.Tick? { FleetingTick(m, step.o, t, coil, g); }
  }

  lemma {:induction false} FleetingAlways(m: Machine, steps: seq<Step>, t: Track, coil: Option<bool>, g: nat)
    requires Held(m, t, coil, g) && Fleeting(m, t) && SteadyRun(m, steps, g) && UndamagedRun(m, steps)
    ensures Fleeting(Run(m, steps), History(m, steps, t))
  {
    if steps != [] {
      var (init, step) := (steps[..|steps| - 1], steps[|steps| - 1]);
      SteadyBefore(m, steps, g);
      assert UndamagedRun(m, init) by {
        assert forall i :: 0 <= i < |init| ==> init[..i] == steps[..i] && init[i] == steps[i];
      }
      HeldAlways(m, init, t, coil, g);
      FleetingAlways(m, init, t, coil, g);
      FleetingStep(Run(m, init), step, History(m, init, t), Driven(m, init, coil), g);
    }
  }

  /** Before any other cut, with storage right at first and no write failing: a cut leaves the restored state
      wrong exactly when it falls between the return of the first tick that drives a sequence's coil, opening
      or closing, and the write of the completed sequence's state; between two ticks, exactly while a sequence
      has begun to drive and not completed. */
  lemma {:induction false} FirstCutStrandsIff(config: Config, store: Store, steps: seq<Step>, reloaded: Config, g: nat)
    requires g <= config.timing.MotorRunMs() && SteadyRun(Initial(config, Some(store)), steps, g)
    requires UndamagedRun(Initial(config, Some(store)), steps)
    ensures var m0 := Initial(config, Some(store));
      var coil := m0.dev.valve.userState;
      var (m, t) := (Run(m0, steps), History(m0, steps, Fresh(m0, coil)));
      var restored := Next(m, PowerCut(reloaded)).dev.valve.userState;
      && (Driven(m0, steps, Some(coil)) != Some(restored) <==> Moving(m.dev.valve, t.returned) || t.behind)
      && (m.pc.Resting? ==>
           (Driven(m0, steps, Some(coil)) != Some(restored) <==> Moving(m.dev.valve, m.lastRead)))
  {
    var m0 := Initial(config, Some(store));
    var coil := m0.dev.valve.userState;
    HeldAlways(m0, steps, Fresh(m0, coil), Some(coil), g);
    FleetingAlways(m0, steps, Fresh(m0, coil), Some(coil), g);
  }

  // ----- and then -----

  /** At rest in this state as far as the controller knows, in the valve, in storage and in what the tick
      thread is about to store or return. */
  ghost predicate Believed(m: Machine, on: bool) {
    && m.dev.valve.phase.Idle? && m.dev.valve.userState == on && (Decoded(m.store) == Some(true)) == on
    && m.pins.valve == ALL_LOW && PinsQuiet(m.pc)
    && (m.pc.HasUserState? || m.pc.ValveWritten? ==> m.pc.on == on)
  }

  /** No order to leave this state, by a user or by the alarm. */
  predicate Stays(m: Machine, step: Step, on: bool) {
    && !(step.Order? && step.command == Water(!on))
    && (on ==> !(step.Tick? && m.pc.CloseOrdered?))
  }

  ghost predicate StaysRun(m: Machine, steps: seq<Step>, on: bool) {
    forall i :: 0 <= i < |steps| ==> Stays(Run(m, steps[..i]), steps[i], on)
  }

  lemma {:induction false} BelievedTick(m: Machine, o: Oracle, on: bool)
    requires Believed(m, on) && Stays(m, Tick(o), on)
    ensures Believed(TickStep(m, o), on)
  {
    if m.pc.HasUserState? {
      assert DecodeValve(Some(EncodeValve(on))) == Some(on);
    } else {
      CacheKept(m, o);
    }
  }

  lemma {:induction false} BelievedStep(m: Machine, step: Step, on: bool)
    requires Believed(m, on) && Stays(m, step, on)
    ensures Believed(Next(m, step), on)
  {
    if step.Tick? { BelievedTick(m, step.o, on); }
  }

  /** Believed to rest in a state, the valve is not driven until it is ordered to leave that state: every
      order to enter it is ignored, the alarm's to close included, and so is every further power cut. */
  lemma {:induction false} NothingDriven(m: Machine, steps: seq<Step>, on: bool, before: Option<bool>)
    requires Believed(m, on) && StaysRun(m, steps, on)
    ensures Believed(Run(m, steps), on) && Driven(m, steps, before) == before
  {
    if steps != [] {
      var (init, step) := (steps[..|steps| - 1], steps[|steps| - 1]);
      assert StaysRun(m, init, on) by {
        assert forall i :: 0 <= i < |init| ==> init[..i] == steps[..i] && init[i] == steps[i];
      }
      NothingDriven(m, init, on, before);
      BelievedStep(Run(m, init), step, on);
    }
  }

  lemma {:induction false} DrivenJoins(m: Machine, a: seq<Step>, b: seq<Step>, before: Option<bool>)
    ensures Driven(m, a + b, before) == Driven(Run(m, a), b, Driven(m, a, before))
  {
    if b == [] {
      assert a + b == a;
    } else {
      DrivenJoins(m, a, b[..|b| - 1], before);
      JoinLast(a, b);
      RunJoins(m, a, b);
    }
  }

  /** No recovery sequence follows a cut: when the restored state is wrong, opening or closing, the valve
      stays where the coil left it and the controller reports the opposite, for as long as nobody orders it
      to leave the state it does not have. */
  lemma {:induction false} CutStrands(config: Config, store: Option<Store>, steps: seq<Step>, reloaded: Config,
      after: seq<Step>, coil: bool, g: nat)
    requires g <= config.timing.MotorRunMs() && SteadyRun(Initial(config, store), steps, g)
    requires var m0 := Initial(config, store);
      var (m, t) := (Run(m0, steps), History(m0, steps, Fresh(m0, coil)));
      var boot := Next(m, PowerCut(reloaded));
      t.adrift != (Moving(m.dev.valve, t.returned) != t.behind) && StaysRun(boot, after, boot.dev.valve.userState)
    ensures var m0 := Initial(config, store);
      var all := steps + [PowerCut(reloaded)] + after;
      var driven := Driven(m0, all, Some(coil));
      && driven == Driven(m0, steps, Some(coil)) && driven.Some?
      && Run(m0, all).dev.valve.State() == if driven.value then Off else On
  {
    var m0 := Initial(config, store);
    var cut := [PowerCut(reloaded)];
    RestoredAgrees(config, store, steps, reloaded, coil, g);
    CoilIsKnown(config, store, steps, coil, g);
    assert (steps + cut)[..|steps|] == steps;
    var (boot, driven) := (Run(m0, steps + cut), Driven(m0, steps + cut, Some(coil)));
    NothingDriven(boot, after, boot.dev.valve.userState, driven);
    DrivenJoins(m0, steps + cut, after, Some(coil));
    RunJoins(m0, steps + cut, after);
  }
}
