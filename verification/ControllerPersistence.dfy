/** What survives power cuts: the valve state, the idle coils and the alarm history, over
    runs in which power may be cut at any step. Each NVS write succeeds or leaves the store
    as it was. */
module ControllerPersistence {
  import opened Wrappers
  import opened WaterValves
  import opened Controllers
  import opened Machines

  // ----- the valve state -----

  /** The valve state of the last successful write, or what the store held at first. */
  function LastWritten(log: seq<Entry>, first: Option<bool>): Option<bool> {
    if log == [] then first
    else if log[|log| - 1].ValveWrite? then Some(log[|log| - 1].on)
    else LastWritten(log[..|log| - 1], first)
  }

  function Decoded(store: Option<Store>): Option<bool> {
    if store.Some? then DecodeValve(store.value.valve) else None
  }

  /** The cached value is what NVS holds, except while the tick thread is between the two
      writes; there it is about to become so. */
  ghost predicate CacheFaithful(m: Machine, first: Option<bool>) {
    && (if m.pc.ValveWritten? then Decoded(m.store) == Some(m.pc.on) else m.dev.persisted == Decoded(m.store))
    && Decoded(m.store) == LastWritten(m.log, first)
  }

  lemma {:induction false} WrittenExtends(log: seq<Entry>, e: Entry, first: Option<bool>)
    ensures LastWritten(log + [e], first) == if e.ValveWrite? then Some(e.on) else LastWritten(log, first)
  {
    assert (log + [e])[..|log + [e]| - 1] == log;
  }

  /** The steps of the tick thread that add to the log. */
  predicate Logs(pc: Pc) {
    pc.Checked? || pc.Seen? || pc.Latched? || pc.Pushed? || pc.CloseOrdered? || pc.HasUserState?
  }

  lemma {:induction false} NoLog(m: Machine, o: Oracle)
    requires !Logs(m.pc)
    ensures TickStep(m, o).log == m.log && TickStep(m, o).store == m.store
  {
  }

  lemma {:induction false} CacheFaithfulTick(m: Machine, o: Oracle, first: Option<bool>)
    requires CacheFaithful(m, first)
    ensures CacheFaithful(TickStep(m, o), first)
  {
    if m.pc.HasUserState? {
      CacheWrites(m, o, first);
    } else {
      CacheKept(m, o);
      NoValveEntry(m, o);
      var r := TickStep(m, o);
      if r.log != m.log {
        WrittenExtends(m.log, r.log[|m.log|], first);
      }
    }
  }

  lemma {:induction false} CacheKept(m: Machine, o: Oracle)
    requires !m.pc.HasUserState?
    ensures !TickStep(m, o).pc.ValveWritten?
    ensures TickStep(m, o).dev.persisted == if m.pc.ValveWritten? then Some(m.pc.on) else m.dev.persisted
    ensures Decoded(TickStep(m, o).store) == Decoded(m.store)
  {
  }

  lemma {:induction false} NoValveEntry(m: Machine, o: Oracle)
    requires !m.pc.HasUserState?
    ensures var r := TickStep(m, o);
      r.log == m.log ||
      (|r.log| == |m.log| + 1 && r.log == m.log + [r.log[|m.log|]] && !r.log[|m.log|].ValveWrite?)
  {
    if !Logs(m.pc) { NoLog(m, o); }
  }

  lemma {:induction false} CacheWrites(m: Machine, o: Oracle, first: Option<bool>)
    requires CacheFaithful(m, first) && m.pc.HasUserState?
    ensures CacheFaithful(TickStep(m, o), first)
  {
    WrittenExtends(m.log, ValveWrite(m.pc.on), first);
  }

  lemma {:induction false} CacheFaithfulStep(m: Machine, step: Step, first: Option<bool>)
    requires CacheFaithful(m, first)
    ensures CacheFaithful(Next(m, step), first)
  {
    match step
    case Tick(o) => CacheFaithfulTick(m, o, first);
    case Order(command, _) => WrittenExtends(m.log, WaterCommand(command.on), first);
    case Clear => WrittenExtends(m.log, ClearedByUser, first);
    case PowerCut(_) => WrittenExtends(m.log, Rebooted, first);
    case _ =>
  }

  lemma {:induction false} CacheFaithfulAlways(m: Machine, steps: seq<Step>, first: Option<bool>)
    requires CacheFaithful(m, first)
    ensures CacheFaithful(Run(m, steps), first)
  {
    if steps != [] {
      CacheFaithfulAlways(m, steps[..|steps| - 1], first);
      CacheFaithfulStep(Run(m, steps[..|steps| - 1]), steps[|steps| - 1], first);
    }
  }

  /** A controller rebuilt after a power cut at any point starts in the valve state of the
      last successful write, with the cached value matching the store. */
  lemma {:induction false} RebootRestoresLastWrite(config: Config, store: Option<Store>, steps: seq<Step>,
      reloaded: Config)
    ensures var m := Run(Initial(config, store), steps); var r := Next(m, PowerCut(reloaded));
      && r.dev.persisted == LastWritten(m.log, Decoded(store))
      && r.dev.valve == Valve(Idle, LastWritten(m.log, Decoded(store)) == Some(true), reloaded.timing)
      && (m.pc.Resting? ==> m.dev.persisted == r.dev.persisted)
  {
    CacheFaithfulAlways(Initial(config, store), steps, Decoded(store));
  }

  // ----- no coil without a command -----

  /** No water command took effect since boot. */
  predicate Uncommanded(log: seq<Entry>) {
    log == [] || log[|log| - 1].Rebooted? ||
    (!log[|log| - 1].WaterCommand? && Uncommanded(log[..|log| - 1]))
  }

  predicate PinsQuiet(pc: Pc) {
    match pc
    case TickedValve(_, out) => out == ALL_LOW
    case SawSprinkler1(_, out, _) => out == ALL_LOW
    case SawSprinkler2(_, out, _, _) => out == ALL_LOW
    case Resting => true
    case Started(_) => true
    case TickedSprinkler1(_) => true
    case TickedSprinkler2(_) => true
    case _ => pc.pins.valve == ALL_LOW
  }

  ghost predicate Quiet(m: Machine) {
    Uncommanded(m.log) ==> m.dev.valve.phase.Idle? && m.pins.valve == ALL_LOW && PinsQuiet(m.pc)
  }

  lemma {:induction false} UncommandedExtends(log: seq<Entry>, e: Entry)
    ensures Uncommanded(log + [e]) <==> e.Rebooted? || (!e.WaterCommand? && Uncommanded(log))
  {
    assert (log + [e])[..|log + [e]| - 1] == log;
  }

  lemma {:induction false} QuietStep(m: Machine, step: Step)
    requires Quiet(m)
    ensures Quiet(Next(m, step))
  {
    if step.Tick? { QuietTick(m, step.o); } else { QuietOther(m, step); }
  }

  lemma {:induction false} QuietTick(m: Machine, o: Oracle)
    requires Quiet(m)
    ensures Quiet(TickStep(m, o))
  {
    var r := TickStep(m, o);
    if Logs(m.pc) {
      if r.log != m.log {
        UncommandedExtends(m.log, r.log[|m.log|]);
      }
    } else {
      NoLog(m, o);
    }
  }

  lemma {:induction false} QuietOther(m: Machine, step: Step)
    requires Quiet(m) && !step.Tick?
    ensures Quiet(Next(m, step))
  {
    match step
    case Order(command, _) => UncommandedExtends(m.log, WaterCommand(command.on));
    case Clear => UncommandedExtends(m.log, ClearedByUser);
    case PowerCut(_) => UncommandedExtends(m.log, Rebooted);
    case _ =>
  }

  /** From boot until the first water command, the alarm's own included, every tick returns
      with both coils and the drain low. */
  lemma {:induction false} QuietUntilCommanded(config: Config, store: Option<Store>, steps: seq<Step>)
    ensures Quiet(Run(Initial(config, store), steps))
  {
    if steps != [] {
      QuietUntilCommanded(config, store, steps[..|steps| - 1]);
      QuietStep(Run(Initial(config, store), steps[..|steps| - 1]), steps[|steps| - 1]);
    }
  }

  // ----- the alarm history -----

  /** All events the RAM ring has seen, had it no bound: a reboot falls back to what was
      written last. */
  function Remembered(log: seq<Entry>, first: seq<AlarmEvent>): seq<AlarmEvent> {
    if log == [] then first else
      var (before, e) := (log[..|log| - 1], log[|log| - 1]);
      if e.RingPush? then Remembered(before, first) + [e.ev]
      else if e.Rebooted? then Written(before, first)
      else Remembered(before, first)
  }

  /** The same for the store. */
  function Written(log: seq<Entry>, first: seq<AlarmEvent>): seq<AlarmEvent> {
    if log == [] then first else
      var (before, e) := (log[..|log| - 1], log[|log| - 1]);
      if e.HistoryWrite? && e.ok then Remembered(before, first) else Written(before, first)
  }

  function StoredHistory(store: Option<Store>): seq<AlarmEvent> {
    if store.Some? && store.value.history.Some? then store.value.history.value else []
  }

  ghost predicate Ring(m: Machine, first: seq<AlarmEvent>) {
    RingAt(m.pc, m.dev.history, m.store, m.log, first)
  }

  ghost predicate RingAt(pc: Pc, history: seq<AlarmEvent>, store: Option<Store>, log: seq<Entry>,
      first: seq<AlarmEvent>)
  {
    && history == LastOf(Remembered(log, first), ALARM_HISTORY_CAP)
    && LastOf(StoredHistory(store), ALARM_HISTORY_CAP) == LastOf(Written(log, first), ALARM_HISTORY_CAP)
    && store.Some?
    && (pc.Pushed? ==> pc.ring == history)
  }

  lemma {:induction false} HistoryExtends(log: seq<Entry>, e: Entry, first: seq<AlarmEvent>)
    ensures Remembered(log + [e], first) ==
      if e.RingPush? then Remembered(log, first) + [e.ev]
      else if e.Rebooted? then Written(log, first) else Remembered(log, first)
    ensures Written(log + [e], first) ==
      if e.HistoryWrite? && e.ok then Remembered(log, first) else Written(log, first)
  {
    assert (log + [e])[..|log + [e]| - 1] == log;
  }

  /** Pushing onto a ring of the last `cap` keeps it the last `cap`. */
  lemma {:induction false} PushKeepsLast(d: Device, all: seq<AlarmEvent>, ev: AlarmEvent)
    requires d.history == LastOf(all, ALARM_HISTORY_CAP)
    ensures Recorded(d, ev).history == LastOf(all + [ev], ALARM_HISTORY_CAP)
  {
  }

  lemma {:induction false} RingTick(m: Machine, o: Oracle, first: seq<AlarmEvent>)
    requires Ring(m, first)
    ensures Ring(TickStep(m, o), first)
  {
    if m.pc.Latched? {
      RingPushed(m, o, first);
    } else if m.pc.Pushed? {
      RingWritten(m, o, first);
    } else {
      RingUntouched(m, o, first);
    }
  }

  lemma {:induction false} RingPushed(m: Machine, o: Oracle, first: seq<AlarmEvent>)
    requires Ring(m, first) && m.pc.Latched?
    ensures Ring(TickStep(m, o), first)
  {
    HistoryExtends(m.log, RingPush(m.pc.ev), first);
    PushKeepsLast(m.dev, Remembered(m.log, first), m.pc.ev);
  }

  lemma {:induction false} RingWritten(m: Machine, o: Oracle, first: seq<AlarmEvent>)
    requires Ring(m, first) && m.pc.Pushed?
    ensures RingAt(CloseDue(m.pc.now, m.pc.pins), m.dev.history, HistoryStored(m.store, m.pc.ring, o.historyOk),
      m.log + [HistoryWrite(o.historyOk)], first)
  {
    HistoryExtends(m.log, HistoryWrite(o.historyOk), first);
    LastOfLast(Remembered(m.log, first), ALARM_HISTORY_CAP);
  }

  lemma {:induction false} LastOfLast(s: seq<AlarmEvent>, n: nat)
    ensures LastOf(LastOf(s, n), n) == LastOf(s, n)
  {
  }

  /** An entry that changes neither the remembered nor the written history. */
  predicate Forgettable(e: Entry) {
    !e.RingPush? && !e.HistoryWrite? && !e.Rebooted?
  }

  lemma {:induction false} KeepsHistory(m: Machine, o: Oracle)
    requires !m.pc.Latched? && !m.pc.Pushed?
    ensures var r := TickStep(m, o);
      && r.dev.history == m.dev.history && StoredHistory(r.store) == StoredHistory(m.store)
      && (r.store.Some? <==> m.store.Some?) && !r.pc.Pushed?
  {
  }

  lemma {:induction false} ForgettableEntry(m: Machine, o: Oracle)
    requires !m.pc.Latched? && !m.pc.Pushed?
    ensures var r := TickStep(m, o);
      r.log == m.log ||
      (|r.log| == |m.log| + 1 && r.log == m.log + [r.log[|m.log|]] && Forgettable(r.log[|m.log|]))
  {
    if !Logs(m.pc) { NoLog(m, o); }
  }

  lemma {:induction false} RingUntouched(m: Machine, o: Oracle, first: seq<AlarmEvent>)
    requires Ring(m, first) && !m.pc.Latched? && !m.pc.Pushed?
    ensures Ring(TickStep(m, o), first)
  {
    KeepsHistory(m, o);
    ForgettableEntry(m, o);
    var r := TickStep(m, o);
    if r.log != m.log {
      HistoryExtends(m.log, r.log[|m.log|], first);
    }
  }

  lemma {:induction false} RingOther(m: Machine, step: Step, first: seq<AlarmEvent>)
    requires Ring(m, first) && !step.Tick?
    ensures Ring(Next(m, step), first)
  {
    match step
    case Order(command, _) => HistoryExtends(m.log, WaterCommand(command.on), first);
    case Clear => HistoryExtends(m.log, ClearedByUser, first);
    case PowerCut(_) => HistoryExtends(m.log, Rebooted, first);
    case _ =>
  }

  lemma {:induction false} RingStep(m: Machine, step: Step, first: seq<AlarmEvent>)
    requires Ring(m, first)
    ensures Ring(Next(m, step), first)
  {
    if step.Tick? { RingTick(m, step.o, first); } else { RingOther(m, step, first); }
  }

  lemma {:induction false} RingAlways(m: Machine, steps: seq<Step>, first: seq<AlarmEvent>)
    requires Ring(m, first)
    ensures Ring(Run(m, steps), first)
  {
    if steps != [] {
      RingAlways(m, steps[..|steps| - 1], first);
      RingStep(Run(m, steps[..|steps| - 1]), steps[|steps| - 1], first);
    }
  }

  /** Every alarm that fired, across all boots. */
  function Fired(log: seq<Entry>): seq<AlarmEvent> {
    if log == [] then [] else
      Fired(log[..|log| - 1]) + FireOf(log[|log| - 1])
  }

  function FireOf(e: Entry): seq<AlarmEvent> {
    if e.Evaluated? && e.fired.Some? then [e.fired.value] else []
  }

  /** The fires the device still knows of: a reboot drops those not saved. */
  function Kept(log: seq<Entry>): seq<AlarmEvent>
    decreases |log|
  {
    if log == [] then [] else
      var (before, e) := (log[..|log| - 1], log[|log| - 1]);
      if e.Rebooted? then Saved(before) else Kept(before) + FireOf(e)
  }

  /** The fires covered by the latest successful history write. */
  function Saved(log: seq<Entry>): seq<AlarmEvent>
    decreases |log|
  {
    if log == [] then [] else
      var (before, e) := (log[..|log| - 1], log[|log| - 1]);
      if e.HistoryWrite? && e.ok then Kept(before) else Saved(before)
  }

  /** Some fire has not been saved yet. */
  predicate Unsaved(log: seq<Entry>) {
    log != [] &&
    var e := log[|log| - 1];
    (FireOf(e) != [] || (!(e.HistoryWrite? && e.ok) && !e.Rebooted? && Unsaved(log[..|log| - 1])))
  }

  /** Power was never cut while a fire was unsaved. */
  predicate Lossless(log: seq<Entry>) {
    log == [] ||
    var (before, e) := (log[..|log| - 1], log[|log| - 1]);
    Lossless(before) && (e.Rebooted? ==> !Unsaved(before))
  }

  predicate WritesOk(log: seq<Entry>) {
    log == [] || (WritesOk(log[..|log| - 1]) && (log[|log| - 1].HistoryWrite? ==> log[|log| - 1].ok))
  }

  // ----- what is kept, in terms of the log alone -----

  /** The saved fires are the kept ones without a last part, which is empty if none is unsaved. */
  lemma {:induction false} SavedIsPrefix(log: seq<Entry>)
    ensures Saved(log) <= Kept(log)
    ensures Unsaved(log) <==> Saved(log) != Kept(log)
  {
    if log != [] {
      SavedIsPrefix(log[..|log| - 1]);
    }
  }

  /** No fire is kept that did not happen, and one that is lost stays lost. */
  lemma {:induction false} KeptAtMostFired(log: seq<Entry>)
    ensures |Kept(log)| <= |Fired(log)|
    ensures Lossless(log) ==> Kept(log) == Fired(log)
    ensures !Lossless(log) ==> |Kept(log)| < |Fired(log)|
  {
    if log != [] {
      KeptAtMostFired(log[..|log| - 1]);
      SavedIsPrefix(log[..|log| - 1]);
    }
  }

  /** Every fire of every boot is kept exactly when power is never cut on an unsaved one. */
  lemma {:induction false} AllKeptIff(log: seq<Entry>)
    ensures Kept(log) == Fired(log) <==> Lossless(log)
  {
    KeptAtMostFired(log);
  }

  // ----- what the machine holds -----

  /** Ties the log to the point the tick thread is at. */
  ghost predicate Ledger(m: Machine, first: seq<AlarmEvent>) {
    LedgerAt(m.pc, m.log, first)
  }

  ghost predicate LedgerAt(pc: Pc, log: seq<Entry>, first: seq<AlarmEvent>) {
    && Remembered(log, first) + (if pc.Latched? then [pc.ev] else []) == first + Kept(log)
    && Written(log, first) == first + Saved(log)
    && (WritesOk(log) && !pc.Latched? && !pc.Pushed? ==> !Unsaved(log))
  }

  lemma {:induction false} LedgerExtends(log: seq<Entry>, e: Entry)
    ensures Kept(log + [e]) == if e.Rebooted? then Saved(log) else Kept(log) + FireOf(e)
    ensures Saved(log + [e]) == if e.HistoryWrite? && e.ok then Kept(log) else Saved(log)
    ensures Unsaved(log + [e]) <==>
      FireOf(e) != [] || (!(e.HistoryWrite? && e.ok) && !e.Rebooted? && Unsaved(log))
    ensures WritesOk(log + [e]) <==> WritesOk(log) && (e.HistoryWrite? ==> e.ok)
  {
    assert (log + [e])[..|log + [e]| - 1] == log;
  }

  /** An entry that neither fires, records nor reboots. */
  predicate Silent(e: Entry) {
    e.ClearedByUser? || e.WaterCommand? || e.ValveWrite? || (e.Evaluated? && e.fired.None?)
  }

  lemma {:induction false} LedgerSilent(pc: Pc, next: Pc, log: seq<Entry>, e: Entry, first: seq<AlarmEvent>)
    requires LedgerAt(pc, log, first) && Silent(e)
    requires !pc.Pushed? && !next.Pushed? && !pc.Latched? && !next.Latched?
    ensures LedgerAt(next, log + [e], first)
  {
    HistoryExtends(log, e, first);
    LedgerExtends(log, e);
  }

  /** Entries of the other tasks leave the tick thread where it is. */
  lemma {:induction false} LedgerAside(pc: Pc, log: seq<Entry>, e: Entry, first: seq<AlarmEvent>)
    requires LedgerAt(pc, log, first) && (e.ClearedByUser? || e.WaterCommand?)
    ensures LedgerAt(pc, log + [e], first)
  {
    HistoryExtends(log, e, first);
    LedgerExtends(log, e);
  }

  lemma {:induction false} LedgerReboot(pc: Pc, log: seq<Entry>, first: seq<AlarmEvent>)
    requires LedgerAt(pc, log, first)
    ensures LedgerAt(Resting, log + [Rebooted], first)
  {
    HistoryExtends(log, Rebooted, first);
    LedgerExtends(log, Rebooted);
  }

  lemma {:induction false} LedgerTick(m: Machine, o: Oracle, first: seq<AlarmEvent>)
    requires Ledger(m, first)
    ensures Ledger(TickStep(m, o), first)
  {
    if m.pc.Seen? {
      LedgerFire(m, o, first);
    } else if m.pc.Latched? {
      LedgerPush(m, first);
    } else if m.pc.Pushed? {
      LedgerHistory(m, o, first);
    } else if !Logs(m.pc) {
      NoLog(m, o);
      NotLatching(m, o);
    } else {
      SilentEntry(m, o);
      var r := TickStep(m, o);
      if r.log != m.log {
        LedgerSilent(m.pc, r.pc, m.log, r.log[|m.log|], first);
      }
    }
  }

  lemma {:induction false} NotLatching(m: Machine, o: Oracle)
    requires !m.pc.Seen? && !m.pc.Latched?
    ensures !TickStep(m, o).pc.Latched? && !TickStep(m, o).pc.Pushed?
  {
  }

  lemma {:induction false} SilentEntry(m: Machine, o: Oracle)
    requires Logs(m.pc) && !m.pc.Seen? && !m.pc.Latched? && !m.pc.Pushed?
    ensures var r := TickStep(m, o);
      && !r.pc.Latched? && !r.pc.Pushed?
      && (r.log == m.log || (|r.log| == |m.log| + 1 && r.log == m.log + [r.log[|m.log|]] && Silent(r.log[|m.log|])))
  {
  }

  lemma {:induction false} LedgerPush(m: Machine, first: seq<AlarmEvent>)
    requires Ledger(m, first) && m.pc.Latched?
    ensures LedgerAt(Pushed(m.pc.now, m.pc.pins, Recorded(m.dev, m.pc.ev).history), m.log + [RingPush(m.pc.ev)], first)
  {
    HistoryExtends(m.log, RingPush(m.pc.ev), first);
    LedgerExtends(m.log, RingPush(m.pc.ev));
  }

  lemma {:induction false} LedgerHistory(m: Machine, o: Oracle, first: seq<AlarmEvent>)
    requires Ledger(m, first) && m.pc.Pushed?
    ensures LedgerAt(CloseDue(m.pc.now, m.pc.pins), m.log + [HistoryWrite(o.historyOk)], first)
  {
    HistoryExtends(m.log, HistoryWrite(o.historyOk), first);
    LedgerExtends(m.log, HistoryWrite(o.historyOk));
  }

  lemma {:induction false} LedgerFiring(pc: Pc, next: Pc, log: seq<Entry>, e: Entry, first: seq<AlarmEvent>)
    requires LedgerAt(pc, log, first) && !pc.Latched? && FireOf(e) != []
    requires next.Latched? && FireOf(e) == [next.ev]
    ensures LedgerAt(next, log + [e], first)
  {
    HistoryExtends(log, e, first);
    LedgerExtends(log, e);
    var (remembered, kept) := (Remembered(log, first), Kept(log));
    assert remembered + [] == remembered;
    assert first + (kept + [next.ev]) == (first + kept) + [next.ev];
  }

  lemma {:induction false} SeenEntry(m: Machine, o: Oracle)
    requires m.pc.Seen?
    ensures var r := TickStep(m, o);
      && |r.log| == |m.log| + 1 && r.log == m.log + [r.log[|m.log|]] && r.log[|m.log|].Evaluated? && !r.pc.Pushed?
      && (if r.log[|m.log|].fired.Some? then r.pc.Latched? && r.pc.ev == r.log[|m.log|].fired.value
          else !r.pc.Latched?)
  {
  }

  lemma {:induction false} LedgerFire(m: Machine, o: Oracle, first: seq<AlarmEvent>)
    requires Ledger(m, first) && m.pc.Seen?
    ensures Ledger(TickStep(m, o), first)
  {
    SeenEntry(m, o);
    var r := TickStep(m, o);
    var e := r.log[|m.log|];
    if e.fired.Some? {
      LedgerFiring(m.pc, r.pc, m.log, e, first);
    } else {
      LedgerSilent(m.pc, r.pc, m.log, e, first);
    }
  }

  lemma {:induction false} LedgerOther(m: Machine, step: Step, first: seq<AlarmEvent>)
    requires Ledger(m, first) && !step.Tick?
    ensures Ledger(Next(m, step), first)
  {
    match step
    case Order(command, _) => LedgerAside(m.pc, m.log, WaterCommand(command.on), first);
    case Clear => LedgerAside(m.pc, m.log, ClearedByUser, first);
    case PowerCut(_) => LedgerReboot(m.pc, m.log, first);
    case _ =>
  }

  lemma {:induction false} LedgerStep(m: Machine, step: Step, first: seq<AlarmEvent>)
    requires Ledger(m, first)
    ensures Ledger(Next(m, step), first)
  {
    if step.Tick? { LedgerTick(m, step.o, first); } else { LedgerOther(m, step, first); }
  }

  lemma {:induction false} LedgerAlways(m: Machine, steps: seq<Step>, first: seq<AlarmEvent>)
    requires Ledger(m, first)
    ensures Ledger(Run(m, steps), first)
  {
    if steps != [] {
      LedgerAlways(m, steps[..|steps| - 1], first);
      LedgerStep(Run(m, steps[..|steps| - 1]), steps[|steps| - 1], first);
    }
  }

  /** Over every run, power cuts and failed writes anywhere: the stored history is the last 16 of the
      saved fires of all boots, after what was stored at first, and the RAM ring the last 16 of the
      kept ones, the fire being recorded excepted. When every write succeeds, all that is kept is
      saved whenever the tick thread is not about to write. */
  lemma {:induction false} HistoryIsLastFires(config: Config, store: Store, steps: seq<Step>)
    ensures var m := Run(Initial(config, Some(store)), steps);
      var first := StoredHistory(Some(store));
      && LastOf(StoredHistory(m.store), 16) == LastOf(first + Saved(m.log), ALARM_HISTORY_CAP)
      && (!m.pc.Latched? ==> m.dev.history == LastOf(first + Kept(m.log), 16))
      && (WritesOk(m.log) && !m.pc.Latched? && !m.pc.Pushed? ==> Saved(m.log) == Kept(m.log))
      && (Kept(m.log) == Fired(m.log) <==> Lossless(m.log))
  {
    var first := StoredHistory(Some(store));
    var m := Initial(config, Some(store));
    RingAlways(m, steps, first);
    LedgerAlways(m, steps, first);
    var r := Run(m, steps);
    AllKeptIff(r.log);
    SavedIsPrefix(r.log);
    assert !r.pc.Latched? ==> Remembered(r.log, first) + [] == Remembered(r.log, first);
  }
}
