/** The state the controller guards with its mutexes, and each operation on it:
    `crates/core/src/app.rs`. Webhook delivery and logging are left out. */
module Controllers {
  import opened Bytes
  import opened Wrappers
  import opened WaterValves
  import opened TimedSwitches

  const ALARM_HISTORY_CAP: nat := 16

  datatype AlarmConfig = AlarmConfig(enabled: bool, threshold: real, durationSecs: nat)

  datatype Config = Config(autoOff1Secs: nat, autoOff2Secs: nat, timing: Timing, alarm: AlarmConfig)

  datatype AlarmEvent = AlarmEvent(epochSecs: nat, uptimeMs: nat, flow: real, durationSecs: nat)

  datatype WaterControl = ControlOff | ControlOn | Transitioning

  datatype Snapshot = Snapshot(
    sprinkler1: bool, sprinkler2: bool, water: WaterControl, flow: Option<real>,
    alarmActive: bool, alarmElapsed: nat)

  /** What NVS holds under the two keys. An alarm history that does not decode is `None`. */
  datatype Store = Store(valve: Option<seq<byte>>, history: Option<seq<AlarmEvent>>)

  /** Everything behind a mutex. */
  datatype Device = Device(
    valve: Valve, sprinkler1: Switch, sprinkler2: Switch, config: Config, snap: Snapshot,
    lastCheck: Option<nat>, history: seq<AlarmEvent>, persisted: Option<bool>)

  datatype Command = Sprinkler1(on: bool) | Sprinkler2(on: bool) | Water(on: bool)

  datatype Outcome = Accepted | Busy

  datatype Pins = Pins(sprinkler1: bool, sprinkler2: bool, valve: Outputs)

  function AutoOff(secs: nat): Option<nat> {
    if secs == 0 then None else Some(secs * 1000)
  }

  function WaterControlOf(s: WaterState): WaterControl {
    match s
    case Off => ControlOff
    case On => ControlOn
    case _ => Transitioning
  }

  function DecodeValve(bytes: Option<seq<byte>>): Option<bool> {
    if bytes.Some? && bytes.value != [] then Some(bytes.value[0] != 0) else None
  }

  function EncodeValve(on: bool): seq<byte> {
    if on then [1] else [0]
  }

  /** The last `n` elements. */
  function LastOf<T>(s: seq<T>, n: nat): seq<T> {
    if |s| <= n then s else s[|s| - n..]
  }

  // ----- construction -----

  function Booted(config: Config, store: Option<Store>): Device {
    var restored := if store.Some? then DecodeValve(store.value.valve) else None;
    var history := if store.Some? && store.value.history.Some? then store.value.history.value else [];
    Device(
      Valve(Idle, restored == Some(true), config.timing),
      Switch(false, None, AutoOff(config.autoOff1Secs), None),
      Switch(false, None, AutoOff(config.autoOff2Secs), None),
      config, Snapshot(false, false, ControlOff, None, false, 0),
      None, LastOf(history, ALARM_HISTORY_CAP), restored)
  }

  // ----- commands -----

  function Commanded(d: Device, command: Command, now: nat): (Device, Outcome) {
    match command
    case Sprinkler1(on) =>
      (d.(sprinkler1 := if on then d.sprinkler1.TurnedOn(now) else d.sprinkler1.TurnedOff()), Accepted)
    case Sprinkler2(on) =>
      (d.(sprinkler2 := if on then d.sprinkler2.TurnedOn(now) else d.sprinkler2.TurnedOff()), Accepted)
    case Water(on) =>
      if d.valve.IsBusy() then (d, Busy)
      else (d.(valve := if on then d.valve.TurnedOn(now) else d.valve.TurnedOff(now)), Accepted)
  }

  function ScheduleFired(s: Switch, now: nat, durationSecs: Option<nat>): Switch {
    if durationSecs.Some? then s.TurnedOnFor(now, durationSecs.value * 1000) else s.TurnedOn(now)
  }

  function Cleared(d: Device): Device {
    d.(snap := d.snap.(alarmActive := false, alarmElapsed := 0))
  }

  // ----- the flow alarm -----

  /** Whole seconds since the last check, as a u32; the remainder is dropped. */
  function DeltaSecs(lastCheck: Option<nat>, now: nat): nat {
    match lastCheck
    case None => 0
    case Some(t) => (Elapsed(now, t) / 1000) % U32_MODULUS
  }

  function SaturatingAdd(a: nat, b: nat): nat {
    if a + b >= U32_MODULUS then U32_MODULUS - 1 else a + b
  }

  /** What the evaluation sees of the snapshot it took. */
  predicate Sustained(seen: Snapshot, alarm: AlarmConfig) {
    !seen.sprinkler1 && !seen.sprinkler2 && FlowOf(seen) >= alarm.threshold
  }

  function FlowOf(seen: Snapshot): real {
    if seen.flow.Some? then seen.flow.value else 0.0
  }

  function CountedSecs(before: nat, seen: Snapshot, alarm: AlarmConfig, delta: nat): nat {
    if Sustained(seen, alarm) then SaturatingAdd(before, delta) else 0
  }

  predicate Fires(before: nat, seen: Snapshot, alarm: AlarmConfig, delta: nat) {
    !seen.alarmActive && CountedSecs(before, seen, alarm, delta) >= alarm.durationSecs
  }

  /** The counter update, and the latch if it fires. `seen` is the snapshot taken before. */
  function Counted(d: Device, seen: Snapshot, alarm: AlarmConfig, delta: nat): Device {
    var elapsed := CountedSecs(d.snap.alarmElapsed, seen, alarm, delta);
    var fired := Fires(d.snap.alarmElapsed, seen, alarm, delta);
    d.(snap := d.snap.(alarmElapsed := elapsed, alarmActive := d.snap.alarmActive || fired))
  }

  function Recorded(d: Device, ev: AlarmEvent): Device {
    var h := if |d.history| == ALARM_HISTORY_CAP then d.history[1..] else d.history;
    d.(history := h + [ev])
  }

  function HistoryStored(store: Option<Store>, history: seq<AlarmEvent>, ok: bool): Option<Store> {
    if store.Some? && ok then Some(store.value.(history := Some(history))) else store
  }

  // ----- one tick, without interference -----

  /** What a tick takes from outside: clock readings and whether its NVS writes succeed. */
  datatype Inputs = Inputs(now: nat, epochSecs: nat, closeAt: nat, historyOk: bool, valveOk: bool)

  function Timers(d: Device, now: nat): (Device, Outputs) {
    var (valve, outputs) := d.valve.Ticked(now);
    (d.(sprinkler1 := d.sprinkler1.Ticked(now), sprinkler2 := d.sprinkler2.Ticked(now), valve := valve), outputs)
  }

  function Mirrored(d: Device): Device {
    d.(snap := d.snap.(sprinkler1 := d.sprinkler1.on, sprinkler2 := d.sprinkler2.on,
                       water := WaterControlOf(d.valve.State())))
  }

  function AlarmEvaluated(d: Device, store: Option<Store>, i: Inputs): (Device, Option<Store>) {
    var (alarm, seen) := (d.config.alarm, d.snap);
    var delta := DeltaSecs(d.lastCheck, i.now);
    var checked := d.(lastCheck := Some(i.now));
    if !alarm.enabled then
      (Cleared(checked), store)
    else
      var counted := Counted(checked, seen, alarm, delta);
      if Fires(seen.alarmElapsed, seen, alarm, delta) then
        var ev := AlarmEvent(i.epochSecs, i.now, FlowOf(seen), alarm.durationSecs);
        var recorded := Recorded(counted, ev);
        (Commanded(recorded, Water(false), i.closeAt).0, HistoryStored(store, recorded.history, i.historyOk))
      else if seen.alarmActive && seen.water == ControlOn then
        (Commanded(counted, Water(false), i.closeAt).0, store)
      else
        (counted, store)
  }

  function ValvePersisted(d: Device, store: Option<Store>, ok: bool): (Device, Option<Store>) {
    var on := d.valve.userState;
    if store.Some? && d.persisted != Some(on) && ok then
      (d.(persisted := Some(on)), Some(store.value.(valve := Some(EncodeValve(on)))))
    else
      (d, store)
  }

  function TickedOnce(d: Device, store: Option<Store>, i: Inputs): (Device, Option<Store>, Pins) {
    var (timed, outputs) := Timers(d, i.now);
    var (alarmed, written) := AlarmEvaluated(Mirrored(timed), store, i);
    var (done, kept) := ValvePersisted(alarmed, written, i.valveOk);
    (done, kept, Pins(timed.sprinkler1.on, timed.sprinkler2.on, outputs))
  }

  // ----- the object -----

  class App {
    const valve: WaterValve
    const sprinkler1: TimedSwitch
    const sprinkler2: TimedSwitch
    var config: Config
    var snap: Snapshot
    var lastCheck: Option<nat>
    var history: seq<AlarmEvent>
    var persisted: Option<bool>
    var store: Option<Store>

    ghost predicate Valid()
      reads this
    {
      sprinkler1 != sprinkler2
    }

    function View(): Device
      reads this, valve, sprinkler1, sprinkler2
    {
      Device(valve.View(), sprinkler1.View(), sprinkler2.View(), config, snap, lastCheck, history, persisted)
    }

    constructor WithNvs(config: Config, store: Option<Store>)
      ensures Valid() && fresh(valve) && fresh(sprinkler1) && fresh(sprinkler2)
      ensures View() == Booted(config, store) && this.store == store
    {
      var s1 := new TimedSwitch(AutoOff(config.autoOff1Secs));
      var s2 := new TimedSwitch(AutoOff(config.autoOff2Secs));
      var v := new WaterValve.WithTiming(config.timing);
      var restored := if store.Some? then DecodeValve(store.value.valve) else None;
      if restored.Some? {
        v.Restore(restored.value);
      }
      var past := if store.Some? && store.value.history.Some? then store.value.history.value else [];
      valve, sprinkler1, sprinkler2 := v, s1, s2;
      this.config, this.store := config, store;
      snap := Snapshot(false, false, ControlOff, None, false, 0);
      lastCheck, persisted := None, restored;
      history := LastOf(past, ALARM_HISTORY_CAP);
    }

    method SwitchCommand(command: Command, now: nat) returns (outcome: Outcome)
      requires Valid()
      modifies valve, sprinkler1, sprinkler2
      ensures (View(), outcome) == Commanded(old(View()), command, now)
    {
      outcome := Accepted;
      match command
      case Sprinkler1(on) =>
        if on { sprinkler1.TurnOn(now); } else { sprinkler1.TurnOff(now); }
      case Sprinkler2(on) =>
        if on { sprinkler2.TurnOn(now); } else { sprinkler2.TurnOff(now); }
      case Water(on) =>
        if valve.View().IsBusy() {
          outcome := Busy;
        } else if on {
          valve.TurnOn(now);
        } else {
          valve.TurnOff(now);
        }
    }

    /** False if there is no such sprinkler. */
    method FireScheduleSprinkler(id: string, durationSecs: Option<nat>, now: nat) returns (known: bool)
      requires Valid()
      modifies sprinkler1, sprinkler2
      ensures known <==> id == "sprinkler_1" || id == "sprinkler_2"
      ensures View() == if id == "sprinkler_1" then
          old(View()).(sprinkler1 := ScheduleFired(old(View()).sprinkler1, now, durationSecs))
        else if id == "sprinkler_2" then
          old(View()).(sprinkler2 := ScheduleFired(old(View()).sprinkler2, now, durationSecs))
        else old(View())
    {
      if id != "sprinkler_1" && id != "sprinkler_2" {
        return false;
      }
      var s := if id == "sprinkler_1" then sprinkler1 else sprinkler2;
      if durationSecs.Some? {
        s.TurnOnFor(now, durationSecs.value * 1000);
      } else {
        s.TurnOn(now);
      }
      return true;
    }

    method ReplaceConfig(cfg: Config)
      requires Valid()
      modifies this`config, valve, sprinkler1, sprinkler2
      ensures View() == old(View()).(
        sprinkler1 := old(View()).sprinkler1.(autoOff := AutoOff(cfg.autoOff1Secs)),
        sprinkler2 := old(View()).sprinkler2.(autoOff := AutoOff(cfg.autoOff2Secs)),
        valve := old(View()).valve.(timing := cfg.timing),
        config := cfg)
    {
      sprinkler1.SetAutoOff(AutoOff(cfg.autoOff1Secs));
      sprinkler2.SetAutoOff(AutoOff(cfg.autoOff2Secs));
      valve.SetTiming(cfg.timing);
      config := cfg;
    }

    method ClearFlowAlarm()
      modifies this`snap
      ensures View() == Cleared(old(View()))
    {
      snap := snap.(alarmActive := false, alarmElapsed := 0);
    }

    method RecordAlarmEvent(ev: AlarmEvent, ok: bool)
      modifies this`history, this`store
      ensures View() == Recorded(old(View()), ev)
      ensures store == HistoryStored(old(store), history, ok)
    {
      if |history| == ALARM_HISTORY_CAP {
        history := history[1..];
      }
      history := history + [ev];
      if store.Some? && ok {
        store := Some(store.value.(history := Some(history)));
      }
    }

    method EvaluateFlowAlarm(i: Inputs)
      requires Valid()
      modifies this`snap, this`lastCheck, this`history, this`store, valve, sprinkler1, sprinkler2
      ensures (View(), store) == AlarmEvaluated(old(View()), old(store), i)
    {
      var alarm := config.alarm;
      var delta := DeltaSecs(lastCheck, i.now);
      lastCheck := Some(i.now);
      if !alarm.enabled {
        snap := snap.(alarmActive := false, alarmElapsed := 0);
        return;
      }
      var seen := snap;
      var justFired := false;
      snap := snap.(alarmElapsed :=
        if seen.sprinkler1 || seen.sprinkler2 || FlowOf(seen) < alarm.threshold then 0
        else SaturatingAdd(snap.alarmElapsed, delta));
      if !seen.alarmActive && snap.alarmElapsed >= alarm.durationSecs {
        snap := snap.(alarmActive := true);
        justFired := true;
      }
      if justFired {
        RecordAlarmEvent(AlarmEvent(i.epochSecs, i.now, FlowOf(seen), alarm.durationSecs), i.historyOk);
        var _ := SwitchCommand(Water(false), i.closeAt);
      } else if seen.alarmActive && seen.water == ControlOn {
        var _ := SwitchCommand(Water(false), i.closeAt);
      }
    }

    method Tick(i: Inputs) returns (pins: Pins)
      requires Valid()
      modifies this`snap, this`lastCheck, this`history, this`persisted, this`store, valve, sprinkler1, sprinkler2
      ensures (View(), store, pins) == TickedOnce(old(View()), old(store), i)
    {
      var _ := sprinkler1.Tick(i.now);
      var _ := sprinkler2.Tick(i.now);
      var outputs := valve.Tick(i.now);
      pins := Pins(sprinkler1.on, sprinkler2.on, outputs);
      snap := snap.(sprinkler1 := sprinkler1.on, sprinkler2 := sprinkler2.on,
                    water := WaterControlOf(valve.View().State()));
      ghost var mirrored := View();
      assert mirrored == Mirrored(Timers(old(View()), i.now).0);
      EvaluateFlowAlarm(i);
      PersistValve(i.valveOk);
    }

    method PersistValve(ok: bool)
      modifies this`persisted, this`store
      ensures (View(), store) == ValvePersisted(old(View()), old(store), ok)
    {
      if store.Some? {
        var userOn := valve.userState;
        if persisted != Some(userOn) {
          if ok {
            store := Some(store.value.(valve := Some(EncodeValve(userOn))));
            persisted := Some(userOn);
          }
        }
      }
    }
  }
}
