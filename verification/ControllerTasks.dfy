/** What the other tasks' operations, a boot and one tick amount to, in terms of the settings and of the bytes
    stored: times in milliseconds, settings in seconds. */
module ControllerTasks {
  import opened Wrappers
  import opened WaterValves
  import opened Controllers
  import opened Machines
  import P = ControllerPersistence

  // ----- configuration -----

  function LimitOf(secs: nat): Option<nat> {
    if secs == 0 then None else Some(1000 * secs)
  }

  /** The four locks that replacing the configuration takes, one after the other. */
  function Reconfigure(config: Config): seq<Step> {
    [SetAutoOff1(config.autoOff1Secs)] + [SetAutoOff2(config.autoOff2Secs)] + [SetTiming(config.timing)] +
    [SetConfig(config)]
  }

  lemma {:induction false} RunSnoc(m: Machine, steps: seq<Step>, step: Step)
    ensures Run(m, steps + [step]) == Next(Run(m, steps), step)
  {
    assert (steps + [step])[..|steps|] == steps;
  }

  /** Undisturbed, they replace every setting and leave everything else, running activations, sequences and
      the alarm included. */
  lemma {:induction false} ReconfigureReplaces(m: Machine, config: Config)
    ensures var (d, r) := (m.dev, Run(m, Reconfigure(config)));
      && r.dev == Device(Valve(d.valve.phase, d.valve.userState, config.timing),
                         d.sprinkler1.(autoOff := LimitOf(config.autoOff1Secs)),
                         d.sprinkler2.(autoOff := LimitOf(config.autoOff2Secs)),
                         config, d.snap, d.lastCheck, d.history, d.persisted)
      && r == m.(dev := r.dev)
  {
    var s1 := [SetAutoOff1(config.autoOff1Secs)];
    var s2 := s1 + [SetAutoOff2(config.autoOff2Secs)];
    var s3 := s2 + [SetTiming(config.timing)];
    assert Run(m, []) == m && [] + s1 == s1;
    RunSnoc(m, [], SetAutoOff1(config.autoOff1Secs));
    RunSnoc(m, s1, SetAutoOff2(config.autoOff2Secs));
    RunSnoc(m, s2, SetTiming(config.timing));
    RunSnoc(m, s3, SetConfig(config));
  }

  // ----- commands -----

  /** A water command is refused exactly while the motor sequence runs, and then changes nothing; a sprinkler
      command never is, and changes nothing but its sprinkler. */
  lemma {:induction false} BusyRefuses(d: Device, command: Command, now: nat)
    ensures var (r, outcome) := Commanded(d, command, now);
      && (outcome == Busy <==> command.Water? && (d.valve.State() == Opening || d.valve.State() == Closing))
      && (outcome == Busy ==> r == d)
      && (command.Water? ==> r == d.(valve := r.valve))
      && (command.Sprinkler1? ==> r == d.(sprinkler1 := r.sprinkler1) && r.sprinkler1.on == command.on)
      && (command.Sprinkler2? ==> r == d.(sprinkler2 := r.sprinkler2) && r.sprinkler2.on == command.on)
  {
  }

  // ----- boot -----

  /** The stored byte decides, any but zero for open; without one the valve boots closed. */
  lemma {:induction false} BootsAsStored(config: Config, store: Option<Store>)
    ensures var (d, bytes) := (Booted(config, store), if store.Some? then store.value.valve else None);
      && d.valve == Valve(Idle, bytes.Some? && bytes.value != [] && bytes.value[0] != 0, config.timing)
      && (d.persisted.None? <==> bytes.None? || bytes.value == [])
      && !d.sprinkler1.on && !d.sprinkler2.on
      && d.sprinkler1.Limit() == LimitOf(config.autoOff1Secs) && d.sprinkler2.Limit() == LimitOf(config.autoOff2Secs)
      && d.snap == Snapshot(false, false, ControlOff, None, false, 0)
  {
  }

  /** Every write of the valve's state in any run leaves one byte in storage: 1 for open, 0 for closed. */
  lemma {:induction false} WritesOneByte(m: Machine, o: Oracle)
    requires TickStep(m, o).pc.ValveWritten?
    ensures m.pc.HasUserState? && TickStep(m, o).store.Some?
    ensures TickStep(m, o).store.value.valve == Some([if m.pc.on then 1 else 0])
  {
  }

  // ----- one tick -----

  /** After an undisturbed tick the snapshot shows the sprinklers as the pins returned, and the water control on
      exactly if the tick left the valve resting open, in transition exactly if it left it moving. */
  lemma {:induction false} SnapshotShows(d: Device, store: Option<Store>, i: Inputs)
    ensures var (r, pins) := (TickedOnce(d, store, i).0, TickedOnce(d, store, i).2);
      var state := d.valve.Ticked(i.now).0.State();
      && r.snap.sprinkler1 == pins.sprinkler1 && r.snap.sprinkler2 == pins.sprinkler2
      && pins.sprinkler1 == (d.sprinkler1.on && !d.sprinkler1.Expired(i.now))
      && pins.sprinkler2 == (d.sprinkler2.on && !d.sprinkler2.Expired(i.now))
      && pins.valve == d.valve.Ticked(i.now).1
      && (r.snap.water == ControlOn <==> state == On)
      && (r.snap.water == Transitioning <==> state == Opening || state == Closing)
      && r.snap.flow == d.snap.flow
  {
  }

  // ----- the record of a fire -----

  /** One undisturbed tick that latches the alarm records it: the wall clock, its own reading, the flow and the
      duration, behind the latest fifteen. */
  lemma {:induction false} LatchRecords(d: Device, store: Option<Store>, i: Inputs)
    requires !d.snap.alarmActive && TickedOnce(d, store, i).0.snap.alarmActive && |d.history| <= 16
    ensures var (r, ev) := (TickedOnce(d, store, i).0, AlarmEvent(i.epochSecs, i.now,
      if d.snap.flow.Some? then d.snap.flow.value else 0.0, d.config.alarm.durationSecs));
      r.history == (if |d.history| == 16 then d.history[1..] else d.history) + [ev]
  {
  }

  /** In any run the valve's state is written only when that changes what storage says. */
  lemma {:induction false} NoRedundantWrite(config: Config, store: Option<Store>, steps: seq<Step>, o: Oracle)
    requires TickStep(Run(Initial(config, store), steps), o).pc.ValveWritten?
    ensures var m := Run(Initial(config, store), steps);
      P.Decoded(m.store) != Some(m.pc.on) && P.Decoded(TickStep(m, o).store) == Some(m.pc.on)
  {
    P.CacheFaithfulAlways(Initial(config, store), steps, P.Decoded(store));
  }

  predicate Recorded(e: Entry) {
    e.Evaluated? && e.fired.Some? ==>
      && e.fired.value.uptimeMs == e.now && e.fired.value.durationSecs == e.alarm.durationSecs
      && e.fired.value.flow == if e.seen.flow.Some? then e.seen.flow.value else 0.0
  }

  lemma {:induction false} RecordedStep(m: Machine, step: Step)
    ensures var (l, r) := (m.log, Next(m, step).log);
      r == l || (|r| == |l| + 1 && r[..|l|] == l && Recorded(r[|l|]))
  {
  }

  ghost predicate AllRecorded(log: seq<Entry>) {
    forall i :: 0 <= i < |log| ==> Recorded(log[i])
  }

  /** Every fire of every run is recorded with its time, the flow it saw and the duration then in force. */
  lemma {:induction false} FiresAreRecorded(config: Config, store: Option<Store>, steps: seq<Step>)
    ensures AllRecorded(Run(Initial(config, store), steps).log)
  {
    if steps != [] {
      var (before, step) := (Run(Initial(config, store), steps[..|steps| - 1]), steps[|steps| - 1]);
      FiresAreRecorded(config, store, steps[..|steps| - 1]);
      RecordedStep(before, step);
      RecordedGrows(before.log, Next(before, step).log);
    }
  }

  lemma {:induction false} RecordedGrows(l: seq<Entry>, r: seq<Entry>)
    requires AllRecorded(l)
    requires r == l || (|r| == |l| + 1 && r[..|l|] == l && Recorded(r[|l|]))
    ensures AllRecorded(r)
  {
    forall i | 0 <= i < |r| ensures Recorded(r[i]) {
      if i < |l| { assert l[i] == r[i]; }
    }
  }
}
