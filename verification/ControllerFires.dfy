/** When the flow alarm fires, for every interleaving. */
module ControllerFires {
  import opened Bytes
  import opened Wrappers
  import opened Controllers
  import opened Machines
  import opened ControllerAlarm

  // ----- what an evaluation saw -----

  /** The user has cleared the alarm since the latest evaluation. */
  predicate ClearedSince(log: seq<Entry>) {
    log != [] &&
    match log[|log| - 1]
    case ClearedByUser => true
    case Evaluated(_, _, _, _) => false
    case Rebooted => false
    case _ => ClearedSince(log[..|log| - 1])
  }

  /** A snapshot without the latch is right; one with it can be out of date, by a clear only. */
  predicate SawLatch(seen: Snapshot, log: seq<Entry>) {
    (Active(log) ==> seen.alarmActive) && (seen.alarmActive && !Active(log) ==> ClearedSince(log))
  }

  predicate Honest(log: seq<Entry>) {
    log == [] ||
    var (before, e) := (log[..|log| - 1], log[|log| - 1]);
    Honest(before) && (e.Evaluated? ==> SawLatch(e.seen, before))
  }

  ghost predicate Witnessed(m: Machine) {
    && Agrees(m) && Honest(m.log)
    && (m.pc.Seen? ==> SawLatch(m.pc.seen, m.log))
  }

  lemma {:induction false} HonestExtends(log: seq<Entry>, e: Entry)
    ensures Honest(log + [e]) <==> Honest(log) && (e.Evaluated? ==> SawLatch(e.seen, log))
    ensures ClearedSince(log + [e]) <==> e.ClearedByUser? || (Neutral(e) && ClearedSince(log))
  {
    assert (log + [e])[..|log + [e]| - 1] == log;
  }

  /** An entry of another task keeps what the tick thread saw right. */
  lemma {:induction false} SawLatchAside(seen: Snapshot, log: seq<Entry>, e: Entry)
    requires SawLatch(seen, log) && !e.Evaluated? && !e.Rebooted?
    ensures SawLatch(seen, log + [e])
  {
    HonestExtends(log, e);
    Figures(log, e);
  }

  lemma {:induction false} WitnessedTick(m: Machine, o: Oracle)
    requires Witnessed(m)
    ensures Witnessed(TickStep(m, o))
  {
    AgreesTick(m, o);
    if m.pc.Checked? {
      WitnessedChecked(m, o);
    } else if m.pc.Seen? {
      HonestExtends(m.log, TickStep(m, o).log[|m.log|]);
    } else if !BeforeEvaluation(m.pc) && !m.pc.Resting? {
      LaterEntry(m, o);
      LaterKeeps(m, o);
      var r := TickStep(m, o);
      if r.log != m.log {
        HonestExtends(m.log, r.log[|m.log|]);
      }
    } else {
      EarlierKeeps(m, o);
    }
  }

  lemma {:induction false} WitnessedChecked(m: Machine, o: Oracle)
    requires Witnessed(m) && m.pc.Checked?
    ensures Honest(TickStep(m, o).log)
    ensures TickStep(m, o).pc.Seen? ==> SawLatch(TickStep(m, o).pc.seen, TickStep(m, o).log)
  {
    if !m.pc.alarm.enabled {
      HonestExtends(m.log, Evaluated(m.pc.now, m.pc.alarm, m.dev.snap, None));
    }
  }

  lemma {:induction false} EarlierKeeps(m: Machine, o: Oracle)
    requires (BeforeEvaluation(m.pc) || m.pc.Resting?) && !m.pc.Checked? && !m.pc.Seen?
    ensures TickStep(m, o).log == m.log && !TickStep(m, o).pc.Seen?
  {
  }

  lemma {:induction false} WitnessedOther(m: Machine, step: Step)
    requires Witnessed(m) && !step.Tick?
    ensures Witnessed(Next(m, step))
  {
    AgreesStep(m, step);
    match step
    case Order(command, _) => WitnessedAside(m.pc, m.log, WaterCommand(command.on));
    case Clear => WitnessedAside(m.pc, m.log, ClearedByUser);
    case PowerCut(_) => HonestExtends(m.log, Rebooted);
    case _ =>
  }

  lemma {:induction false} WitnessedAside(pc: Pc, log: seq<Entry>, e: Entry)
    requires Honest(log) && (pc.Seen? ==> SawLatch(pc.seen, log)) && !e.Evaluated? && !e.Rebooted?
    ensures Honest(log + [e]) && (pc.Seen? ==> SawLatch(pc.seen, log + [e]))
  {
    HonestExtends(log, e);
    if pc.Seen? {
      SawLatchAside(pc.seen, log, e);
    }
  }

  lemma {:induction false} WitnessedAlways(m: Machine, steps: seq<Step>)
    requires Witnessed(m)
    ensures Witnessed(Run(m, steps))
  {
    if steps != [] {
      var (before, step) := (steps[..|steps| - 1], steps[|steps| - 1]);
      WitnessedAlways(m, before);
      if step.Tick? { WitnessedTick(Run(m, before), step.o); } else { WitnessedOther(Run(m, before), step); }
    }
  }

  // ----- for whole runs -----

  /** The log of a run from boot. */
  function LogOf(config: Config, store: Option<Store>, steps: seq<Step>): seq<Entry> {
    Run(Initial(config, store), steps).log
  }

  lemma {:induction false} HonestPrefix(log: seq<Entry>, n: nat)
    requires Honest(log) && n <= |log|
    ensures Honest(log[..n])
  {
    if n == |log| {
      assert log[..n] == log;
    } else {
      HonestPrefix(log[..|log| - 1], n);
      assert log[..|log| - 1][..n] == log[..n];
    }
  }

  /** What holds of the evaluation at index `i` of a log that a run can leave. */
  lemma {:induction false} AtEvaluation(config: Config, store: Option<Store>, steps: seq<Step>, i: nat)
    requires i < |LogOf(config, store, steps)| && LogOf(config, store, steps)[i].Evaluated?
    ensures var log := LogOf(config, store, steps);
      && Coherent(log[..i]) && Coherent(log[..i] + [log[i]]) && log[..i + 1] == log[..i] + [log[i]]
      && SawLatch(log[i].seen, log[..i])
  {
    WitnessedAlways(Initial(config, store), steps);
    var log := LogOf(config, store, steps);
    var upTo := log[..i + 1];
    CoherentPrefix(log, i);
    CoherentPrefix(log, i + 1);
    HonestPrefix(log, i + 1);
    assert upTo == log[..i] + [log[i]];
    HonestExtends(log[..i], log[i]);
  }

  /** The alarm fires at an evaluation if and only if it is enabled there, the evaluation saw no latch
      and it brings the count to the limit. What it saw is the latch itself unless the user cleared
      the alarm after the snapshot was taken. */
  lemma {:induction false} FiresExactly(config: Config, store: Option<Store>, steps: seq<Step>, i: nat)
    requires i < |LogOf(config, store, steps)| && LogOf(config, store, steps)[i].Evaluated?
    ensures var (log, e) := (LogOf(config, store, steps), LogOf(config, store, steps)[i]);
      && (e.fired.Some? <==>
           e.alarm.enabled && !e.seen.alarmActive && Count(log[..i + 1]) >= e.alarm.durationSecs)
      && (!ClearedSince(log[..i]) ==> e.seen.alarmActive == Active(log[..i]))
      && (Active(log[..i + 1]) <==> e.alarm.enabled && (Active(log[..i]) || e.fired.Some?))
  {
    AtEvaluation(config, store, steps, i);
    var log := LogOf(config, store, steps);
    Figures(log[..i], log[i]);
  }

  /** After an evaluation the anchor and the latest evaluation exist. */
  lemma {:induction false} AnchorAt(log: seq<Entry>)
    requires log != [] && log[|log| - 1].Evaluated?
    ensures LastEval(log) == Some(|log| - 1) && Anchor(log).Some?
  {
  }

  /** The time since the anchor at index `i`, where an evaluation is. */
  function ElapsedAt(log: seq<Entry>, i: nat): int
    requires i < |log| && log[i].Evaluated?
  {
    AnchorAt(log[..i + 1]);
    log[i].now - log[AnchorOf(log, i)].now
  }

  function AnchorOf(log: seq<Entry>, i: nat): (r: nat)
    requires i < |log| && log[i].Evaluated?
    ensures r <= i && log[r].Evaluated?
  {
    AnchorAt(log[..i + 1]);
    Anchor(log[..i + 1]).value
  }

  /** When the alarm fires, in terms of time: at every enabled evaluation that saw no latch and comes at
      least the duration after the anchor, not counting the milliseconds that were lost to rounding since. */
  lemma {:induction false} FiresWhen(config: Config, store: Option<Store>, steps: seq<Step>, i: nat)
    requires var log := LogOf(config, store, steps);
      i < |log| && log[i].Evaluated? && log[i].alarm.enabled && ElapsedAt(log, i) < 1000 * U32_MODULUS
    ensures var (log, e) := (LogOf(config, store, steps), LogOf(config, store, steps)[i]);
      e.fired.Some? <==>
      !e.seen.alarmActive && ElapsedAt(log, i) >= 1000 * e.alarm.durationSecs + Lost(log[..i + 1], AnchorOf(log, i))
  {
    FiresExactly(config, store, steps, i);
    AtEvaluation(config, store, steps, i);
    var upTo := LogOf(config, store, steps)[..i + 1];
    AnchorAt(upTo);
    CountIsWhole(upTo);
  }

  /** So it is at most 999 ms late for each evaluation since the anchor. */
  lemma {:induction false} FiresInTime(config: Config, store: Option<Store>, steps: seq<Step>, i: nat)
    requires var log := LogOf(config, store, steps);
      i < |log| && log[i].Evaluated? && log[i].alarm.enabled &&
      1000 * log[i].alarm.durationSecs + 999 * EvalsAfter(log[..i + 1], AnchorOf(log, i))
      <= ElapsedAt(log, i) < 1000 * U32_MODULUS
    ensures var (log, e) := (LogOf(config, store, steps), LogOf(config, store, steps)[i]);
      && (e.fired.Some? <==> !e.seen.alarmActive)
      && (!ClearedSince(log[..i]) ==> Active(log[..i + 1]))
  {
    FiresExactly(config, store, steps, i);
    FiresWhen(config, store, steps, i);
    var log := LogOf(config, store, steps);
    LostBounds(log[..i + 1], AnchorOf(log, i));
  }

  /** With gaps of whole seconds it is on time. */
  lemma {:induction false} FiresOnTheSecond(config: Config, store: Option<Store>, steps: seq<Step>, i: nat)
    requires var log := LogOf(config, store, steps);
      i < |log| && log[i].Evaluated? && log[i].alarm.enabled && ElapsedAt(log, i) < 1000 * U32_MODULUS &&
      WholeGaps(log[..i + 1], AnchorOf(log, i))
    ensures var (log, e) := (LogOf(config, store, steps), LogOf(config, store, steps)[i]);
      e.fired.Some? <==> !e.seen.alarmActive && ElapsedAt(log, i) >= 1000 * e.alarm.durationSecs
  {
    FiresWhen(config, store, steps, i);
    var log := LogOf(config, store, steps);
    LostBounds(log[..i + 1], AnchorOf(log, i));
  }

  /** With gaps of at least a second, as from the other firmware's tick, it fires at the evaluation that makes
      as many since the anchor as the duration has seconds, if not before. */
  lemma {:induction false} FiresByCount(config: Config, store: Option<Store>, steps: seq<Step>, i: nat)
    requires var log := LogOf(config, store, steps);
      i < |log| && log[i].Evaluated? && log[i].alarm.enabled && ElapsedAt(log, i) < 1000 * U32_MODULUS &&
      LongGaps(log[..i + 1], AnchorOf(log, i)) &&
      EvalsAfter(log[..i + 1], AnchorOf(log, i)) >= log[i].alarm.durationSecs
    ensures var (log, e) := (LogOf(config, store, steps), LogOf(config, store, steps)[i]);
      && (e.fired.Some? <==> !e.seen.alarmActive)
      && (!ClearedSince(log[..i]) ==> Active(log[..i + 1]))
  {
    FiresExactly(config, store, steps, i);
    AtEvaluation(config, store, steps, i);
    var upTo := LogOf(config, store, steps)[..i + 1];
    AnchorAt(upTo);
    CountsEach(upTo);
  }

  /** A zero duration fires at every enabled evaluation that saw no latch, whatever the flow. */
  lemma {:induction false} ZeroDurationFires(config: Config, store: Option<Store>, steps: seq<Step>, i: nat)
    requires var log := LogOf(config, store, steps);
      i < |log| && log[i].Evaluated? && log[i].alarm.enabled && log[i].alarm.durationSecs == 0
    ensures var e := LogOf(config, store, steps)[i]; e.fired.Some? <==> !e.seen.alarmActive
  {
    FiresExactly(config, store, steps, i);
  }
}
