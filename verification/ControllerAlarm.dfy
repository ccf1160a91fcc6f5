/** What a fired flow alarm says about the time before it, for every interleaving. */
module ControllerAlarm {
  import opened Bytes
  import opened Wrappers
  import opened WaterValves
  import opened Controllers
  import opened Machines

  // ----- reading the log -----

  /** The evaluation counted: enabled, flow at or above the threshold, no sprinkler on. */
  predicate Qualifies(e: Entry) {
    e.Evaluated? && e.alarm.enabled && Sustained(e.seen, e.alarm)
  }

  /** The index of the latest evaluation since boot. */
  function LastEval(log: seq<Entry>): (r: Option<nat>)
    ensures r.Some? ==> r.value < |log| && log[r.value].Evaluated?
  {
    if log == [] || log[|log| - 1].Rebooted? then None
    else if log[|log| - 1].Evaluated? then Some(|log| - 1)
    else LastEval(log[..|log| - 1])
  }

  function LastEvalAt(log: seq<Entry>): Option<nat> {
    if LastEval(log).Some? then Some(log[LastEval(log).value].now) else None
  }

  /** The evaluation that the current count is measured from: the latest one since boot
      that did not count, or that a clear came after. */
  function Anchor(log: seq<Entry>): (r: Option<nat>)
    ensures r.Some? ==> r.value < |log| && log[r.value].Evaluated?
  {
    if log == [] then None else
      var (before, e) := (log[..|log| - 1], log[|log| - 1]);
      match e
      case Evaluated(_, _, _, _) =>
        if Qualifies(e) && Anchor(before).Some? then Anchor(before) else Some(|log| - 1)
      case ClearedByUser => LastEval(before)
      case Rebooted => None
      case _ => Anchor(before)
  }

  /** The elapsed-seconds counter. */
  function Count(log: seq<Entry>): nat {
    if log == [] then 0 else
      var (before, e) := (log[..|log| - 1], log[|log| - 1]);
      match e
      case Evaluated(now, alarm, seen, _) =>
        if alarm.enabled then CountedSecs(Count(before), seen, alarm, DeltaSecs(LastEvalAt(before), now)) else 0
      case ClearedByUser => 0
      case Rebooted => 0
      case _ => Count(before)
  }

  function Active(log: seq<Entry>): bool {
    if log == [] then false else
      var (before, e) := (log[..|log| - 1], log[|log| - 1]);
      match e
      case Evaluated(_, alarm, _, fired) => alarm.enabled && (Active(before) || fired.Some?)
      case ClearedByUser => false
      case Rebooted => false
      case _ => Active(before)
  }

  /** Clock readings never go back within a boot, and an evaluation fires exactly when it is enabled,
      saw no latch and brings the count to the limit. */
  predicate Coherent(log: seq<Entry>) {
    log == [] ||
    var (before, e) := (log[..|log| - 1], log[|log| - 1]);
    Coherent(before) &&
    (e.Evaluated? ==>
      (LastEvalAt(before).Some? ==> LastEvalAt(before).value <= e.now) &&
      (e.fired.Some? <==> e.alarm.enabled && !e.seen.alarmActive && Count(log) >= e.alarm.durationSecs))
  }

  // ----- the machine keeps the log's figures -----

  predicate BeforeEvaluation(pc: Pc) {
    !pc.Resting? && !pc.Latched? && !pc.Pushed? && !pc.CloseDue? && !pc.CloseOrdered? &&
    !pc.Persisting? && !pc.HasUserState? && !pc.ValveWritten?
  }

  ghost predicate Agrees(m: Machine) {
    && m.dev.snap.alarmElapsed == Count(m.log)
    && m.dev.snap.alarmActive == Active(m.log)
    && Coherent(m.log)
    && (LastEvalAt(m.log).Some? ==> LastEvalAt(m.log).value <= m.clock)
    && (!m.pc.Resting? ==> m.pc.now <= m.clock)
    && (BeforeEvaluation(m.pc) && LastEvalAt(m.log).Some? ==> LastEvalAt(m.log).value <= m.pc.now)
    && (m.pc.Seen? ==> m.pc.alarm.enabled)
    && if m.pc.Checked? || m.pc.Seen? then
         m.dev.lastCheck == Some(m.pc.now) && m.pc.delta == DeltaSecs(LastEvalAt(m.log), m.pc.now)
       else
         m.dev.lastCheck == LastEvalAt(m.log)
  }

  /** The figures after one more entry. */
  lemma {:induction false} Figures(log: seq<Entry>, e: Entry)
    ensures Count(log + [e]) ==
      if e.Evaluated? then
        (if e.alarm.enabled then CountedSecs(Count(log), e.seen, e.alarm, DeltaSecs(LastEvalAt(log), e.now)) else 0)
      else if e.ClearedByUser? || e.Rebooted? then 0 else Count(log)
    ensures Active(log + [e]) ==
      if e.Evaluated? then e.alarm.enabled && (Active(log) || e.fired.Some?)
      else if e.ClearedByUser? || e.Rebooted? then false else Active(log)
    ensures LastEvalAt(log + [e]) == if e.Evaluated? then Some(e.now) else if e.Rebooted? then None else LastEvalAt(log)
    ensures Coherent(log + [e]) <==> Coherent(log) && (e.Evaluated? ==>
      (LastEvalAt(log).Some? ==> LastEvalAt(log).value <= e.now) &&
      (e.fired.Some? <==> e.alarm.enabled && !e.seen.alarmActive && Count(log + [e]) >= e.alarm.durationSecs))
  {
    assert (log + [e])[..|log + [e]| - 1] == log;
  }

  /** An entry that leaves every figure as it was. */
  predicate Neutral(e: Entry) {
    !e.Evaluated? && !e.ClearedByUser? && !e.Rebooted?
  }

  lemma {:induction false} FiguresKept(log: seq<Entry>, e: Entry)
    requires Neutral(e)
    ensures Count(log + [e]) == Count(log) && Active(log + [e]) == Active(log)
    ensures LastEvalAt(log + [e]) == LastEvalAt(log) && (Coherent(log + [e]) <==> Coherent(log))
  {
    Figures(log, e);
  }

  lemma {:induction false} AgreesTick(m: Machine, o: Oracle)
    requires Agrees(m)
    ensures Agrees(TickStep(m, o))
  {
    if m.pc.Checked? {
      AgreesChecked(m, o);
    } else if m.pc.Seen? {
      AgreesSeen(m, o);
    } else if !BeforeEvaluation(m.pc) && !m.pc.Resting? {
      AgreesLater(m, o);
    }
  }

  /** From the evaluation to the end of the tick nothing the figures depend on changes. */
  lemma {:induction false} LaterKeeps(m: Machine, o: Oracle)
    requires !BeforeEvaluation(m.pc) && !m.pc.Resting?
    ensures var r := TickStep(m, o);
      && r.dev.snap == m.dev.snap && r.dev.lastCheck == m.dev.lastCheck && r.clock == m.clock
      && !BeforeEvaluation(r.pc) && (r.pc.Resting? || r.pc.now == m.pc.now)
  {
  }

  lemma {:induction false} LaterEntry(m: Machine, o: Oracle)
    requires !BeforeEvaluation(m.pc) && !m.pc.Resting?
    ensures var r := TickStep(m, o);
      r.log == m.log || (|r.log| == |m.log| + 1 && r.log == m.log + [r.log[|m.log|]] && Neutral(r.log[|m.log|]))
  {
  }

  lemma {:induction false} AgreesLater(m: Machine, o: Oracle)
    requires Agrees(m) && !BeforeEvaluation(m.pc) && !m.pc.Resting?
    ensures Agrees(TickStep(m, o))
  {
    LaterKeeps(m, o);
    LaterEntry(m, o);
    var r := TickStep(m, o);
    if r.log != m.log {
      FiguresKept(m.log, r.log[|m.log|]);
    }
  }

  lemma {:induction false} AgreesChecked(m: Machine, o: Oracle)
    requires Agrees(m) && m.pc.Checked?
    ensures Agrees(TickStep(m, o))
  {
    if !m.pc.alarm.enabled {
      Figures(m.log, Evaluated(m.pc.now, m.pc.alarm, m.dev.snap, None));
    }
  }

  lemma {:induction false} AgreesSeen(m: Machine, o: Oracle)
    requires Agrees(m) && m.pc.Seen?
    ensures Agrees(TickStep(m, o))
  {
    Figures(m.log, TickStep(m, o).log[|m.log|]);
  }

  lemma {:induction false} AgreesStep(m: Machine, step: Step)
    requires Agrees(m)
    ensures Agrees(Next(m, step))
  {
    match step
    case Tick(o) => AgreesTick(m, o);
    case Order(command, age) => AgreesOrder(m, command, age);
    case Clear => Figures(m.log, ClearedByUser);
    case PowerCut(_) => Figures(m.log, Rebooted);
    case _ =>
  }

  lemma {:induction false} CommandKeeps(d: Device, command: Command, at: nat)
    ensures Commanded(d, command, at).0.snap == d.snap && Commanded(d, command, at).0.lastCheck == d.lastCheck
  {
  }

  lemma {:induction false} AgreesOrder(m: Machine, command: Command, age: nat)
    requires Agrees(m)
    ensures Agrees(Next(m, Order(command, age)))
  {
    CommandKeeps(m.dev, command, ReadAgo(m.clock, age));
    if command.Water? {
      FiguresKept(m.log, WaterCommand(command.on));
    }
  }

  lemma {:induction false} AgreesAlways(m: Machine, steps: seq<Step>)
    requires Agrees(m)
    ensures Agrees(Run(m, steps))
  {
    if steps != [] {
      AgreesAlways(m, steps[..|steps| - 1]);
      AgreesStep(Run(m, steps[..|steps| - 1]), steps[|steps| - 1]);
    }
  }

  // ----- what the count means -----

  /** After index `r` there is no reboot and every evaluation counted. */
  ghost predicate Stretch(log: seq<Entry>, r: nat) {
    forall i :: r < i < |log| ==> !log[i].Rebooted? && (log[i].Evaluated? ==> Qualifies(log[i]))
  }

  lemma {:induction false} StretchGrows(log: seq<Entry>, r: nat)
    requires log != [] && Stretch(log[..|log| - 1], r)
    requires !log[|log| - 1].Rebooted? && (log[|log| - 1].Evaluated? ==> Qualifies(log[|log| - 1]))
    ensures Stretch(log, r)
  {
    forall i | r < i < |log| - 1 ensures !log[i].Rebooted? && (log[i].Evaluated? ==> Qualifies(log[i])) {
      assert log[..|log| - 1][i] == log[i];
    }
  }

  /** Since its anchor every evaluation counted, without a reboot, and the count is at most
      the whole seconds that passed. */
  lemma {:induction false} CountIsSustained(log: seq<Entry>)
    requires Coherent(log)
    ensures Anchor(log).None? <==> LastEval(log).None?
    ensures Anchor(log).None? ==> Count(log) == 0
    ensures Anchor(log).Some? ==>
      && Anchor(log).value <= LastEval(log).value
      && Stretch(log, Anchor(log).value)
      && log[Anchor(log).value].now + 1000 * Count(log) <= log[LastEval(log).value].now
  {
    if log != [] {
      var (before, e) := (log[..|log| - 1], log[|log| - 1]);
      CountIsSustained(before);
      NothingAfterLastEval(log);
      if Anchor(before).Some? && !e.Rebooted? && !e.ClearedByUser? && (e.Evaluated? ==> Qualifies(e)) {
        StretchGrows(log, Anchor(before).value);
      }
    }
  }

  lemma {:induction false} NothingAfterLastEval(log: seq<Entry>)
    ensures LastEval(log).Some? ==>
      forall i :: LastEval(log).value < i < |log| ==> !log[i].Evaluated? && !log[i].Rebooted?
  {
    if log != [] {
      NothingAfterLastEval(log[..|log| - 1]);
    }
  }

  /** How many evaluations come after index `r`. */
  function EvalsAfter(log: seq<Entry>, r: nat): nat {
    if |log| <= r + 1 then 0
    else EvalsAfter(log[..|log| - 1], r) + if log[|log| - 1].Evaluated? then 1 else 0
  }

  /** The gap that the evaluation at `i` closes. */
  function GapAt(log: seq<Entry>, i: nat): int
    requires i < |log| && log[i].Evaluated?
  {
    if LastEvalAt(log[..i]).Some? then log[i].now - LastEvalAt(log[..i]).value else 0
  }

  /** What the evaluations after index `r` lost to rounding. */
  function Lost(log: seq<Entry>, r: nat): nat {
    if |log| <= r + 1 then 0
    else
      var (before, e) := (log[..|log| - 1], log[|log| - 1]);
      Lost(before, r) + if e.Evaluated? then GapAt(log, |log| - 1) % 1000 else 0
  }

  /** Short of saturation the time since the anchor is the count and what was lost to rounding. */
  lemma {:induction false} CountIsWhole(log: seq<Entry>)
    requires Coherent(log) && Anchor(log).Some? && LastEval(log).Some?
    requires log[LastEval(log).value].now - log[Anchor(log).value].now < 1000 * U32_MODULUS
    ensures log[LastEval(log).value].now - log[Anchor(log).value].now
      == 1000 * Count(log) + Lost(log, Anchor(log).value)
  {
    var (before, e) := (log[..|log| - 1], log[|log| - 1]);
    CountIsSustained(before);
    if e.Evaluated? {
      if Qualifies(e) && Anchor(before).Some? {
        CountIsWhole(before);
        CountedGap(before, e, GapAt(log, |log| - 1));
      }
    } else if e.ClearedByUser? {
      NothingAfterLastEval(log);
      NoEvalsAfter(log, Anchor(log).value);
    } else if !e.Rebooted? {
      CountIsWhole(before);
    }
  }

  /** That is less than a second for each evaluation, and nothing exactly with gaps of whole seconds. */
  lemma {:induction false} LostBounds(log: seq<Entry>, r: nat)
    ensures Lost(log, r) <= 999 * EvalsAfter(log, r)
    ensures Lost(log, r) == 0 <==> WholeGaps(log, r)
  {
    if |log| > r + 1 {
      LostBounds(log[..|log| - 1], r);
      WholeBefore(log, r);
    }
  }

  /** With gaps of at least a second every evaluation since the anchor counts one at least. */
  lemma {:induction false} CountsEach(log: seq<Entry>)
    requires Coherent(log) && Anchor(log).Some? && LastEval(log).Some? && LongGaps(log, Anchor(log).value)
    requires log[LastEval(log).value].now - log[Anchor(log).value].now < 1000 * U32_MODULUS
    ensures Count(log) >= EvalsAfter(log, Anchor(log).value)
  {
    var (before, e) := (log[..|log| - 1], log[|log| - 1]);
    CountIsSustained(before);
    if e.Evaluated? {
      if Qualifies(e) && Anchor(before).Some? {
        LongBefore(log, Anchor(log).value);
        CountsEach(before);
        CountedGap(before, e, GapAt(log, |log| - 1));
      }
    } else if e.ClearedByUser? {
      NothingAfterLastEval(log);
      NoEvalsAfter(log, Anchor(log).value);
    } else if !e.Rebooted? {
      LongBefore(log, Anchor(log).value);
      CountsEach(before);
    }
  }

  lemma {:induction false} NoEvalsAfter(log: seq<Entry>, r: nat)
    requires forall i :: r < i < |log| ==> !log[i].Evaluated?
    ensures EvalsAfter(log, r) == 0 && Lost(log, r) == 0
  {
    if |log| > r + 1 {
      NoEvalsAfter(log[..|log| - 1], r);
    }
  }

  /** Every gap closed after index `r` is a whole number of seconds. */
  ghost predicate WholeGaps(log: seq<Entry>, r: nat) {
    forall i :: r < i < |log| && log[i].Evaluated? ==> GapAt(log, i) % 1000 == 0
  }

  lemma {:induction false} WholeBefore(log: seq<Entry>, r: nat)
    requires |log| > r + 1
    ensures WholeGaps(log, r) <==>
      WholeGaps(log[..|log| - 1], r) && (log[|log| - 1].Evaluated? ==> GapAt(log, |log| - 1) % 1000 == 0)
  {
    ExactBefore(log);
    var before := log[..|log| - 1];
    if WholeGaps(before, r) && (log[|log| - 1].Evaluated? ==> GapAt(log, |log| - 1) % 1000 == 0) {
      forall i | r < i < |log| && log[i].Evaluated? ensures GapAt(log, i) % 1000 == 0 {
        if i < |before| { assert before[i] == log[i]; }
      }
    }
  }

  /** Every gap closed after index `r` is at least a second. */
  ghost predicate LongGaps(log: seq<Entry>, r: nat) {
    forall i :: r < i < |log| && log[i].Evaluated? ==> GapAt(log, i) >= 1000
  }

  lemma {:induction false} LongBefore(log: seq<Entry>, r: nat)
    requires log != [] && LongGaps(log, r)
    ensures LongGaps(log[..|log| - 1], r)
    ensures r < |log| - 1 && log[|log| - 1].Evaluated? ==> GapAt(log, |log| - 1) >= 1000
  {
    ExactBefore(log);
  }

  /** What a counting evaluation adds, short of saturation. */
  lemma {:induction false} CountedGap(before: seq<Entry>, e: Entry, gap: nat)
    requires Qualifies(e) && LastEvalAt(before).Some? && e.now - LastEvalAt(before).value == gap
    requires 1000 * Count(before) + gap < 1000 * U32_MODULUS
    ensures gap == 1000 * (gap / 1000) + gap % 1000
    ensures CountedSecs(Count(before), e.seen, e.alarm, DeltaSecs(LastEvalAt(before), e.now)) ==
            Count(before) + gap / 1000
  {
  }

  lemma {:induction false} ExactBefore(log: seq<Entry>)
    requires log != []
    ensures forall i :: 0 <= i < |log| - 1 && log[i].Evaluated? ==> GapAt(log[..|log| - 1], i) == GapAt(log, i)
  {
    forall i | 0 <= i < |log| - 1 && log[i].Evaluated?
      ensures GapAt(log[..|log| - 1], i) == GapAt(log, i)
    {
      assert log[..|log| - 1][..i] == log[..i];
    }
  }

  predicate SubSecondGaps(log: seq<Entry>) {
    forall i :: 0 <= i < |log| && log[i].Evaluated? ==> GapAt(log, i) < 1000
  }

  /** Evaluations less than a second apart add nothing: the count never leaves zero. */
  lemma {:induction false} SubSecondGapsCountNothing(log: seq<Entry>)
    requires Coherent(log) && SubSecondGaps(log)
    ensures Count(log) == 0
    ensures forall i :: 0 <= i < |log| && log[i].Evaluated? && log[i].fired.Some? ==> log[i].alarm.durationSecs == 0
  {
    if log != [] {
      ExactBefore(log);
      SubSecondGapsCountNothing(log[..|log| - 1]);
      if log[|log| - 1].Evaluated? {
        assert GapAt(log, |log| - 1) < 1000;
      }
    }
  }

  // ----- for whole runs -----

  lemma {:induction false} CoherentPrefix(log: seq<Entry>, n: nat)
    requires Coherent(log) && n <= |log|
    ensures Coherent(log[..n])
  {
    if n == |log| {
      assert log[..n] == log;
    } else {
      CoherentPrefix(log[..|log| - 1], n);
      assert log[..|log| - 1][..n] == log[..n];
    }
  }

  /** An alarm with a positive duration fires only after a stretch at least that long in
      which, since an earlier evaluation `r` of the same boot, every evaluation found the
      alarm enabled, the flow at or above the threshold then in force and no sprinkler on. */
  lemma {:induction false} FireIsSustained(config: Config, store: Option<Store>, steps: seq<Step>,
      i: nat) returns (r: nat)
    requires var log := Run(Initial(config, store), steps).log;
      i < |log| && log[i].Evaluated? && log[i].fired.Some? && log[i].alarm.durationSecs > 0
    ensures var log := Run(Initial(config, store), steps).log;
      && r < i && log[r].Evaluated?
      && log[r].now + 1000 * log[i].alarm.durationSecs <= log[i].now
      && forall k :: r < k <= i ==> !log[k].Rebooted? && (log[k].Evaluated? ==> Qualifies(log[k]))
  {
    AgreesAlways(Initial(config, store), steps);
    var log := Run(Initial(config, store), steps).log;
    var upTo := log[..i + 1];
    CoherentPrefix(log, i + 1);
    CountIsSustained(upTo);
    r := Anchor(upTo).value;
    assert LastEval(upTo) == Some(i);
    assert forall k :: r < k <= i ==> upTo[k] == log[k];
  }

  /** With ticks less than a second apart, as on the IDF firmware, no alarm with a positive
      duration ever fires. */
  lemma {:induction false} SubSecondTicksNeverFire(config: Config, store: Option<Store>, steps: seq<Step>)
    requires SubSecondGaps(Run(Initial(config, store), steps).log)
    requires PositiveDurations(Run(Initial(config, store), steps).log)
    ensures !Run(Initial(config, store), steps).dev.snap.alarmActive
    ensures NeverFires(Run(Initial(config, store), steps).log)
  {
    AgreesAlways(Initial(config, store), steps);
    var log := Run(Initial(config, store), steps).log;
    SubSecondGapsCountNothing(log);
    NoFireNotActive(log);
  }

  predicate PositiveDurations(log: seq<Entry>) {
    forall i :: 0 <= i < |log| && log[i].Evaluated? ==> log[i].alarm.durationSecs > 0
  }

  predicate NeverFires(log: seq<Entry>) {
    forall i :: 0 <= i < |log| && log[i].Evaluated? ==> log[i].fired.None?
  }

  lemma {:induction false} NoFireNotActive(log: seq<Entry>)
    requires NeverFires(log)
    ensures !Active(log)
  {
    if log != [] {
      NoFireNotActive(log[..|log| - 1]);
    }
  }

  /** A latched alarm drops only through a clear, an evaluation that found the alarm
      disabled, or a reboot. */
  lemma {:induction false} LatchDropsOnly(m: Machine, step: Step)
    requires m.dev.snap.alarmActive && !Next(m, step).dev.snap.alarmActive
    ensures step.Clear? || step.PowerCut? || (step.Tick? && m.pc.Checked? && !m.pc.alarm.enabled)
  {
  }
}
