/** The controller as concurrent tasks see it: `App::tick` cut at every lock it takes, with
    the commands, configuration changes, clears, sensor reports and power cuts of the other
    tasks allowed in between. */
module Machines {
  import opened Wrappers
  import opened WaterValves
  import opened TimedSwitches
  import opened Controllers

  /** Where the tick thread stands, with the locals it holds there. */
  datatype Pc =
    | Resting
    | Started(now: nat)
    | TickedSprinkler1(now: nat)
    | TickedSprinkler2(now: nat)
    | TickedValve(now: nat, out: Outputs)
    | SawSprinkler1(now: nat, out: Outputs, s1: bool)
    | SawSprinkler2(now: nat, out: Outputs, s1: bool, s2: bool)
    | SawValve(now: nat, s1: bool, s2: bool, state: WaterState, pins: Pins)
    | SnapshotSet(now: nat, pins: Pins)
    | HasConfig(now: nat, pins: Pins, alarm: AlarmConfig)
    | Checked(now: nat, pins: Pins, alarm: AlarmConfig, delta: nat)
    | Seen(now: nat, pins: Pins, alarm: AlarmConfig, delta: nat, seen: Snapshot)
    | Latched(now: nat, pins: Pins, ev: AlarmEvent)
    | Pushed(now: nat, pins: Pins, ring: seq<AlarmEvent>)
    | CloseDue(now: nat, pins: Pins)
    | CloseOrdered(now: nat, pins: Pins, at: nat)
    | Persisting(now: nat, pins: Pins)
    | HasUserState(now: nat, pins: Pins, on: bool)
    | ValveWritten(now: nat, pins: Pins, on: bool)

  /** What happened, in the order in which it took effect. */
  datatype Entry =
    | Evaluated(now: nat, alarm: AlarmConfig, seen: Snapshot, fired: Option<AlarmEvent>)
    | ClearedByUser
    | WaterCommand(on: bool)
    | RingPush(ev: AlarmEvent)
    | HistoryWrite(ok: bool)
    | ValveWrite(on: bool)
    | Rebooted

  /** `pins` is what the last finished tick returned; `lastRead`, the clock reading of the
      latest tick, and `log` only record. */
  datatype Machine = Machine(
    clock: nat, dev: Device, store: Option<Store>, pc: Pc, pins: Pins, lastRead: nat, log: seq<Entry>)

  /** The outside answers a tick step may need. */
  datatype Oracle = Oracle(epochSecs: nat, historyOk: bool, valveOk: bool)

  const ALL_OFF := Pins(false, false, ALL_LOW)

  datatype Step =
    | Tick(o: Oracle)
    | Elapse(ms: nat)
    | Order(command: Command, age: nat)
    | FireSchedule(second: bool, durationSecs: Option<nat>, age: nat)
    | SetAutoOff1(secs: nat)
    | SetAutoOff2(secs: nat)
    | SetTiming(timing: Timing)
    | SetConfig(config: Config)
    | ReportFlow(flow: Option<real>)
    | Clear
    | PowerCut(config: Config)

  /** The next lock-level step of the tick thread. */
  function TickStep(m: Machine, o: Oracle): Machine {
    var d := m.dev;
    match m.pc
    case Resting => m.(pc := Started(m.clock), lastRead := m.clock)
    case Started(now) =>
      m.(dev := d.(sprinkler1 := d.sprinkler1.Ticked(now)), pc := TickedSprinkler1(now))
    case TickedSprinkler1(now) =>
      m.(dev := d.(sprinkler2 := d.sprinkler2.Ticked(now)), pc := TickedSprinkler2(now))
    case TickedSprinkler2(now) =>
      var (valve, out) := d.valve.Ticked(now);
      m.(dev := d.(valve := valve), pc := TickedValve(now, out))
    case TickedValve(now, out) => m.(pc := SawSprinkler1(now, out, d.sprinkler1.on))
    case SawSprinkler1(now, out, s1) => m.(pc := SawSprinkler2(now, out, s1, d.sprinkler2.on))
    case SawSprinkler2(now, out, s1, s2) =>
      m.(pc := SawValve(now, s1, s2, d.valve.State(), Pins(s1, s2, out)))
    case SawValve(now, s1, s2, state, pins) =>
      m.(dev := d.(snap := d.snap.(sprinkler1 := s1, sprinkler2 := s2, water := WaterControlOf(state))),
         pc := SnapshotSet(now, pins))
    case SnapshotSet(now, pins) => m.(pc := HasConfig(now, pins, d.config.alarm))
    case HasConfig(now, pins, alarm) =>
      m.(dev := d.(lastCheck := Some(now)), pc := Checked(now, pins, alarm, DeltaSecs(d.lastCheck, now)))
    case Checked(now, pins, alarm, delta) =>
      if alarm.enabled then m.(pc := Seen(now, pins, alarm, delta, d.snap))
      else m.(dev := Cleared(d), pc := Persisting(now, pins), log := m.log + [Evaluated(now, alarm, d.snap, None)])
    case Seen(now, pins, alarm, delta, seen) =>
      var fired := if Fires(d.snap.alarmElapsed, seen, alarm, delta)
                   then Some(AlarmEvent(o.epochSecs, now, FlowOf(seen), alarm.durationSecs)) else None;
      m.(dev := Counted(d, seen, alarm, delta), log := m.log + [Evaluated(now, alarm, seen, fired)],
         pc := if fired.Some? then Latched(now, pins, fired.value)
               else if seen.alarmActive && seen.water == ControlOn then CloseDue(now, pins)
               else Persisting(now, pins))
    case Latched(now, pins, ev) =>
      m.(dev := Recorded(d, ev), pc := Pushed(now, pins, Recorded(d, ev).history), log := m.log + [RingPush(ev)])
    case Pushed(now, pins, ring) =>
      m.(store := HistoryStored(m.store, ring, o.historyOk), pc := CloseDue(now, pins),
         log := m.log + [HistoryWrite(o.historyOk)])
    case CloseDue(now, pins) => m.(pc := CloseOrdered(now, pins, m.clock))
    case CloseOrdered(now, pins, at) =>
      m.(dev := Commanded(d, Water(false), at).0, pc := Persisting(now, pins), log := m.log + [WaterCommand(false)])
    case Persisting(now, pins) =>
      if m.store.Some? then m.(pc := HasUserState(now, pins, d.valve.userState))
      else m.(pc := Resting, pins := pins)
    case HasUserState(now, pins, on) =>
      if d.persisted != Some(on) && o.valveOk && m.store.Some? then
        m.(store := Some(m.store.value.(valve := Some(EncodeValve(on)))), pc := ValveWritten(now, pins, on),
           log := m.log + [ValveWrite(on)])
      else m.(pc := Resting, pins := pins)
    case ValveWritten(now, pins, on) =>
      m.(dev := d.(persisted := Some(on)), pc := Resting, pins := pins)
  }

  /** A clock reading taken `age` ms ago. */
  function ReadAgo(clock: nat, age: nat): nat {
    if age <= clock then clock - age else 0
  }

  function Next(m: Machine, step: Step): Machine {
    var d := m.dev;
    match step
    case Tick(o) => TickStep(m, o)
    case Elapse(ms) => m.(clock := m.clock + ms)
    case Order(command, age) =>
      m.(dev := Commanded(d, command, ReadAgo(m.clock, age)).0,
         log := if command.Water? then m.log + [WaterCommand(command.on)] else m.log)
    case FireSchedule(second, durationSecs, age) =>
      var now := ReadAgo(m.clock, age);
      m.(dev := if second then d.(sprinkler2 := ScheduleFired(d.sprinkler2, now, durationSecs))
                else d.(sprinkler1 := ScheduleFired(d.sprinkler1, now, durationSecs)))
    case SetAutoOff1(secs) => m.(dev := d.(sprinkler1 := d.sprinkler1.(autoOff := AutoOff(secs))))
    case SetAutoOff2(secs) => m.(dev := d.(sprinkler2 := d.sprinkler2.(autoOff := AutoOff(secs))))
    case SetTiming(timing) => m.(dev := d.(valve := d.valve.(timing := timing)))
    case SetConfig(config) => m.(dev := d.(config := config))
    case ReportFlow(flow) => m.(dev := d.(snap := d.snap.(flow := flow)))
    case Clear => m.(dev := Cleared(d), log := m.log + [ClearedByUser])
    case PowerCut(config) =>
      Machine(0, Booted(config, m.store), m.store, Resting, ALL_OFF, 0, m.log + [Rebooted])
  }

  function Initial(config: Config, store: Option<Store>): Machine {
    Machine(0, Booted(config, store), store, Resting, ALL_OFF, 0, [])
  }

  function Run(m: Machine, steps: seq<Step>): Machine {
    if steps == [] then m else Next(Run(m, steps[..|steps| - 1]), steps[|steps| - 1])
  }

  lemma {:induction false} RunLast(m: Machine, steps: seq<Step>)
    requires steps != []
    ensures Run(m, steps) == Next(Run(m, steps[..|steps| - 1]), steps[|steps| - 1])
  {
  }

  lemma {:induction false} JoinLast(a: seq<Step>, b: seq<Step>)
    requires b != []
    ensures var (ab, n) := (a + b, |a + b| - 1);
      ab[..n] == a + b[..|b| - 1] && ab[n] == b[|b| - 1]
  {
  }

  lemma {:induction false} RunJoins(m: Machine, a: seq<Step>, b: seq<Step>)
    ensures Run(m, a + b) == Run(Run(m, a), b)
  {
    if b == [] {
      assert a + b == a;
    } else {
      RunJoins(m, a, b[..|b| - 1]);
      JoinLast(a, b);
      RunLast(m, a + b);
      RunLast(Run(m, a), b);
    }
  }

  // ----- the micro-steps are the tick -----

  /** `n` tick steps with nothing in between. */
  function Solo(m: Machine, o: Oracle, n: nat): Machine
    decreases n
  {
    if n == 0 then m else Solo(TickStep(m, o), o, n - 1)
  }

  lemma {:induction false} SoloSplit(m: Machine, o: Oracle, a: nat, b: nat)
    ensures Solo(m, o, a + b) == Solo(Solo(m, o, a), o, b)
    decreases a
  {
    if a > 0 {
      SoloSplit(TickStep(m, o), o, a - 1, b);
    }
  }

  lemma {:induction false} Solo3(m: Machine, o: Oracle)
    ensures Solo(m, o, 1) == TickStep(m, o)
    ensures Solo(m, o, 2) == TickStep(TickStep(m, o), o)
    ensures Solo(m, o, 3) == TickStep(TickStep(TickStep(m, o), o), o)
  {
    Solo1(m, o);
    Solo1(TickStep(m, o), o);
    Solo1(TickStep(TickStep(m, o), o), o);
    SoloSplit(m, o, 1, 1);
    SoloSplit(m, o, 2, 1);
  }

  lemma {:induction false} Solo1(m: Machine, o: Oracle)
    ensures Solo(m, o, 1) == TickStep(m, o)
  {
    assert Solo(TickStep(m, o), o, 0) == TickStep(m, o);
  }

  lemma {:induction false} Solo4(m: Machine, o: Oracle)
    ensures Solo(m, o, 4) == TickStep(TickStep(TickStep(TickStep(m, o), o), o), o)
  {
    Solo3(m, o);
    SoloSplit(m, o, 3, 1);
    Solo1(Solo(m, o, 3), o);
  }

  function SoloInputs(m: Machine, o: Oracle): Inputs {
    Inputs(m.clock, o.epochSecs, m.clock, o.historyOk, o.valveOk)
  }

  /** Undisturbed, the lock-level steps add up to `App::tick`. */
  lemma {:induction false} SoloIsTick(m: Machine, o: Oracle) returns (n: nat)
    requires m.pc == Resting
    ensures var r := Solo(m, o, n);
      r.pc == Resting && (r.dev, r.store, r.pins) == TickedOnce(m.dev, m.store, SoloInputs(m, o))
  {
    SoloTimers(m, o);
    var x := m.(dev := Timers(m.dev, m.clock).0, lastRead := m.clock,
                pc := TickedValve(m.clock, Timers(m.dev, m.clock).1));
    var k, r := SoloRestTo(x, o);
    n := 4 + k;
    Chained(m, o, 4, x, k, r);
  }

  lemma {:induction false} SoloRestTo(m: Machine, o: Oracle) returns (n: nat, r: Machine)
    requires m.pc.TickedValve? && m.pc.now == m.clock
    ensures r == Solo(m, o, n) && r.pc == Resting
    ensures var (alarmed, written) := AlarmEvaluated(Mirrored(m.dev), m.store, SoloInputs(m, o));
      (r.dev, r.store) == ValvePersisted(alarmed, written, o.valveOk)
    ensures r.pins == Pins(m.dev.sprinkler1.on, m.dev.sprinkler2.on, m.pc.out)
  {
    n := SoloRest(m, o);
    r := Solo(m, o, n);
  }

  lemma {:induction false} SoloRest(m: Machine, o: Oracle) returns (n: nat)
    requires m.pc.TickedValve? && m.pc.now == m.clock
    ensures var r := Solo(m, o, n);
      var (alarmed, written) := AlarmEvaluated(Mirrored(m.dev), m.store, SoloInputs(m, o));
      r.pc == Resting && (r.dev, r.store) == ValvePersisted(alarmed, written, o.valveOk)
      && r.pins == Pins(m.dev.sprinkler1.on, m.dev.sprinkler2.on, m.pc.out)
  {
    var k := SoloToPersist(m, o);
    var j := SoloPersist(Solo(m, o, k), o);
    SoloSplit(m, o, k, j);
    n := k + j;
  }

  lemma {:induction false} SoloToPersist(m: Machine, o: Oracle) returns (n: nat)
    requires m.pc.TickedValve? && m.pc.now == m.clock
    ensures var r := Solo(m, o, n);
      (r.dev, r.store) == AlarmEvaluated(Mirrored(m.dev), m.store, SoloInputs(m, o))
      && r.pc == Persisting(m.pc.now, Pins(m.dev.sprinkler1.on, m.dev.sprinkler2.on, m.pc.out))
  {
    SoloMirror(m, o);
    var x := m.(dev := Mirrored(m.dev),
                pc := SnapshotSet(m.pc.now, Pins(m.dev.sprinkler1.on, m.dev.sprinkler2.on, m.pc.out)));
    var k, r := SoloAlarmTo(x, o);
    n := 4 + k;
    Chained(m, o, 4, x, k, r);
  }

  lemma {:induction false} Chained(m: Machine, o: Oracle, a: nat, x: Machine, b: nat, r: Machine)
    requires Solo(m, o, a) == x && Solo(x, o, b) == r
    ensures Solo(m, o, a + b) == r
  {
    SoloSplit(m, o, a, b);
  }

  lemma {:induction false} SoloAlarmTo(m: Machine, o: Oracle) returns (n: nat, r: Machine)
    requires m.pc.SnapshotSet? && m.pc.now == m.clock
    ensures r == Solo(m, o, n) && (r.dev, r.store) == AlarmEvaluated(m.dev, m.store, SoloInputs(m, o))
    ensures r.pc == Persisting(m.pc.now, m.pc.pins)
  {
    n := SoloAlarm(m, o);
    r := Solo(m, o, n);
  }

  lemma {:induction false} SoloTimers(m: Machine, o: Oracle)
    requires m.pc == Resting
    ensures Solo(m, o, 4) == m.(dev := Timers(m.dev, m.clock).0, lastRead := m.clock,
      pc := TickedValve(m.clock, Timers(m.dev, m.clock).1))
  {
    Solo4(m, o);
  }

  lemma {:induction false} SoloMirror(m: Machine, o: Oracle)
    requires m.pc.TickedValve?
    ensures Solo(m, o, 4) == m.(dev := Mirrored(m.dev),
      pc := SnapshotSet(m.pc.now, Pins(m.dev.sprinkler1.on, m.dev.sprinkler2.on, m.pc.out)))
  {
    Solo4(m, o);
  }

  /** The machine after `evaluate_flow_alarm`, up to the log. */
  predicate AlarmDone(m: Machine, r: Machine, i: Inputs)
    requires m.pc.SnapshotSet?
  {
    (r.dev, r.store) == AlarmEvaluated(m.dev, m.store, i) &&
    r.pc == Persisting(m.pc.now, m.pc.pins) && r.clock == m.clock
  }

  /** From the evaluation onwards: with nothing to close, with a retry, with a fire. */
  lemma {:induction false} SoloAfterCount(m: Machine, o: Oracle) returns (n: nat)
    requires m.pc.Latched? || m.pc.CloseDue? || m.pc.Persisting?
    ensures var r := Solo(m, o, n);
      var recorded := if m.pc.Latched? then Recorded(m.dev, m.pc.ev) else m.dev;
      r.pc == Persisting(m.pc.now, m.pc.pins) && r.clock == m.clock
      && r.dev == (if m.pc.Persisting? then m.dev else Commanded(recorded, Water(false), m.clock).0)
      && r.store == if m.pc.Latched? then HistoryStored(m.store, recorded.history, o.historyOk) else m.store
  {
    Solo4(m, o);
    Solo3(m, o);
    n := if m.pc.Latched? then 4 else if m.pc.CloseDue? then 2 else 0;
  }

  lemma {:induction false} SoloAlarm(m: Machine, o: Oracle) returns (n: nat)
    requires m.pc.SnapshotSet? && m.pc.now == m.clock
    ensures AlarmDone(m, Solo(m, o, n), SoloInputs(m, o))
  {
    Solo3(m, o);
    if !m.dev.config.alarm.enabled {
      n := 3;
    } else {
      Solo4(m, o);
      var r := Solo(m, o, 4);
      var k := SoloAfterCount(r, o);
      SoloSplit(m, o, 4, k);
      n := 4 + k;
    }
  }

  lemma {:induction false} SoloPersist(m: Machine, o: Oracle) returns (n: nat)
    requires m.pc.Persisting?
    ensures var r := Solo(m, o, n);
      r.pc == Resting && (r.dev, r.store) == ValvePersisted(m.dev, m.store, o.valveOk) && r.pins == m.pc.pins
  {
    Solo3(m, o);
    n := if m.store.None? then 1 else if Solo(m, o, 2).pc.Resting? then 2 else 3;
  }
}
