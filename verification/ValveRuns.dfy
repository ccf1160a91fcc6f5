/** What the valve sequencer guarantees over whole runs of ticks, commands and timing
    changes. */
module ValveRuns {
  import opened WaterValves

  datatype Event =
    | Tick(now: nat)
    | CommandOn(now: nat)
    | CommandOff(now: nat)
    | Retime(timing: Timing)

  /** What one tick drives onto the pins, and when. */
  datatype Drive = Drive(at: nat, pins: Outputs)

  function Next(v: Valve, e: Event): Valve {
    match e
    case Tick(now) => v.Ticked(now).0
    case CommandOn(now) => v.TurnedOn(now)
    case CommandOff(now) => v.TurnedOff(now)
    case Retime(timing) => v.(timing := timing)
  }

  function Run(v: Valve, events: seq<Event>): Valve {
    if events == [] then v else Next(Run(v, events[..|events| - 1]), events[|events| - 1])
  }

  function Trace(v: Valve, events: seq<Event>): seq<Drive> {
    if events == [] then [] else
      var (before, e) := (events[..|events| - 1], events[|events| - 1]);
      Trace(v, before) + if e.Tick? then [Drive(e.now, Run(v, before).Ticked(e.now).1)] else []
  }

  // ----- no coil follows the other too soon -----

  /** The latest tick so far. */
  function LastTick(events: seq<Event>): nat {
    if events == [] then 0
    else if events[|events| - 1].Tick? then events[|events| - 1].now
    else LastTick(events[..|events| - 1])
  }

  /** Ticks come in order; a command carries a clock reading at most `lag` ms older than
      the latest tick. Timing changes come at any point. */
  predicate InOrder(events: seq<Event>, lag: nat) {
    events == [] ||
    var (before, e) := (events[..|events| - 1], events[|events| - 1]);
    InOrder(before, lag) &&
    match e
    case Tick(now) => LastTick(before) <= now
    case CommandOn(now) => LastTick(before) <= now + lag
    case CommandOff(now) => LastTick(before) <= now + lag
    case Retime(_) => true
  }

  predicate Coil(d: Drive, open: bool) {
    if open then d.pins.openMotor else d.pins.closeMotor
  }

  /** Every drive of the given coil is followed by a tick no later than `due`. */
  ghost predicate Released(trace: seq<Drive>, open: bool, due: nat) {
    forall a :: 0 <= a < |trace| && Coil(trace[a], open) ==> a + 1 < |trace| && trace[a + 1].at <= due
  }

  /** Ties the phase to what the pins did: a coil is high only in its own sequence, and the
      other one was released before this sequence started. */
  ghost predicate Settled(v: Valve, trace: seq<Drive>, last: nat, lag: nat) {
    && (forall a :: 0 <= a < |trace| ==> trace[a].at <= last)
    && match v.phase
       case Idle => Released(trace, true, last) && Released(trace, false, last)
       case Draining(_) => Released(trace, true, last) && Released(trace, false, last)
       case TurningOn(start) => Released(trace, false, start + lag)
       case TurningOff(start) => Released(trace, true, start + lag)
  }

  lemma {:induction false} SettledAlways(v: Valve, events: seq<Event>, lag: nat)
    requires v.phase.Idle? && InOrder(events, lag)
    ensures Settled(Run(v, events), Trace(v, events), LastTick(events), lag)
  {
    if events != [] {
      var before := events[..|events| - 1];
      SettledAlways(v, before, lag);
      SettledStep(Run(v, before), Trace(v, before), LastTick(before), events[|events| - 1], lag);
    }
  }

  lemma {:induction false} SettledStep(v: Valve, trace: seq<Drive>, last: nat, e: Event, lag: nat)
    requires Settled(v, trace, last, lag)
    requires match e
      case Tick(now) => last <= now
      case CommandOn(now) => last <= now + lag
      case CommandOff(now) => last <= now + lag
      case Retime(_) => true
    ensures Settled(Next(v, e), trace + if e.Tick? then [Drive(e.now, v.Ticked(e.now).1)] else [],
      if e.Tick? then e.now else last, lag)
  {
    if e.Tick? {
      var d := Drive(e.now, v.Ticked(e.now).1);
      ReleasedExtends(trace, d, true, last);
      ReleasedExtends(trace, d, false, last);
      if v.IsBusy() {
        ReleasedExtends(trace, d, !v.phase.TurningOn?, v.phase.startMs + lag);
      }
    } else {
      assert trace + [] == trace;
    }
  }

  /** One more tick releases every earlier drive; it may only start one of its own. */
  lemma {:induction false} ReleasedExtends(trace: seq<Drive>, d: Drive, open: bool, due: nat)
    ensures Released(trace, open, due) && !Coil(d, open) ==> Released(trace + [d], open, due)
    ensures (forall a :: 0 <= a < |trace| ==> trace[a].at <= d.at) && !Coil(d, open) ==>
              Released(trace + [d], open, d.at)
  {
    var longer := trace + [d];
    assert forall a :: 0 <= a < |trace| ==> longer[a] == trace[a];
  }

  /** From the moment one coil's pin goes low until the other's goes high at least
      SETTLE_MS pass, whatever the tick times and however the timing is changed in
      between, less the staleness of the command's clock reading. */
  lemma {:induction false} SettleGap(v: Valve, events: seq<Event>, lag: nat, open: bool, a: nat, b: nat)
    requires v.phase.Idle? && InOrder(events, lag)
    requires a < b < |Trace(v, events)|
    requires Coil(Trace(v, events)[a], open) && Coil(Trace(v, events)[b], !open)
    ensures Trace(v, events)[a + 1].at + SETTLE_MS <= Trace(v, events)[b].at + lag
  {
    var (before, e) := (events[..|events| - 1], events[|events| - 1]);
    if b < |Trace(v, before)| {
      SettleGap(v, before, lag, open, a, b);
    } else {
      SettledAlways(v, before, lag);
    }
  }

  // ----- one contiguous pulse per sequence -----

  /** Mid-sequence the valve takes no command. */
  lemma {:induction false} BusyIgnoresCommands(v: Valve, now: nat)
    requires v.IsBusy()
    ensures v.TurnedOn(now) == v && v.TurnedOff(now) == v
  {
  }

  predicate NoRetime(events: seq<Event>) {
    forall i :: 0 <= i < |events| ==> !events[i].Retime?
  }

  /** Ticks and commands within one sequence that started at `start`, up to and including
      the tick that completes it. */
  ghost predicate OneSequence(v: Valve, events: seq<Event>, g: nat) {
    && v.IsBusy() && events != [] && NoRetime(events)
    && (forall i :: 0 <= i < |events| - 1 && events[i].Tick? ==>
         events[i].now < v.phase.startMs + v.timing.SequenceMs())
    && events[|events| - 1].Tick?
    && events[|events| - 1].now >= v.phase.startMs + v.timing.SequenceMs()
    && Gaps(Ticks(events), v.phase.startMs, g)
  }

  function Ticks(events: seq<Event>): seq<nat> {
    if events == [] then [] else
      var e := events[|events| - 1];
      Ticks(events[..|events| - 1]) + if e.Tick? then [e.now] else []
  }

  /** Tick gaps are at most `g`, and the first tick comes at most `g` after `start`. */
  predicate Gaps(ts: seq<nat>, start: nat, g: nat) {
    (ts != [] ==> ts[0] <= start + g) &&
    (forall i :: 0 < i < |ts| ==> ts[i - 1] <= ts[i] <= ts[i - 1] + g) &&
    (forall i, j :: 0 <= i < j < |ts| ==> ts[i] <= ts[j])
  }

  /** Before completion the valve stays in its sequence and drives the pulse of the time. */
  lemma {:induction false} DuringSequence(v: Valve, events: seq<Event>)
    requires v.IsBusy() && NoRetime(events)
    requires forall i :: 0 <= i < |events| && events[i].Tick? ==>
      events[i].now < v.phase.startMs + v.timing.SequenceMs()
    ensures Run(v, events) == v
    ensures |Trace(v, events)| == |Ticks(events)|
    ensures forall k :: 0 <= k < |Ticks(events)| ==>
      Trace(v, events)[k] == Drive(Ticks(events)[k], v.Ticked(Ticks(events)[k]).1)
    ensures forall k :: 0 <= k < |Ticks(events)| ==> Ticks(events)[k] < v.phase.startMs + v.timing.SequenceMs()
  {
    if events != [] {
      DuringSequence(v, events[..|events| - 1]);
      if !events[|events| - 1].Tick? {
        BusyIgnoresCommands(v, events[|events| - 1].now);
      }
    }
  }

  /** The first tick at or after `deadline`, less than a gap late. */
  lemma {:induction false} FirstAtOrAfter(ts: seq<nat>, start: nat, g: nat, deadline: nat) returns (i: nat)
    requires Gaps(ts, start, g) && ts != [] && ts[|ts| - 1] >= deadline > start
    ensures i < |ts| && deadline <= ts[i] < deadline + g
    ensures forall k :: 0 <= k < |ts| ==> (ts[k] >= deadline <==> i <= k)
  {
    i := 0;
    while ts[i] < deadline
      invariant i < |ts|
      invariant forall k :: 0 <= k < i ==> ts[k] < deadline
      decreases |ts| - i
    {
      i := i + 1;
    }
    assert i > 0 ==> ts[i] <= ts[i - 1] + g;
  }

  /** A valve that has opened rests; one that has closed drains first, if a drain time is set. */
  function AfterSequence(v: Valve, now: nat): Phase {
    if v.phase.TurningOn? || v.timing.drainSecs == 0 then Idle else Draining(now)
  }

  /** Every completed sequence drives its own coil in one contiguous stretch of ticks
      `i..j`, never the other coil, for the motor time give or take one tick gap. */
  lemma {:induction false} OnePulse(v: Valve, events: seq<Event>, g: nat) returns (i: nat, j: nat)
    requires OneSequence(v, events, g) && g <= v.timing.MotorRunMs()
    ensures var trace := Trace(v, events); var open := v.phase.TurningOn?;
      && i < j < |trace|
      && (forall k :: 0 <= k < |trace| ==> (Coil(trace[k], open) <==> i <= k < j))
      && (forall k :: 0 <= k < |trace| ==> !Coil(trace[k], !open))
      && v.timing.MotorRunMs() < trace[j].at - trace[i].at + g
      && trace[j].at - trace[i].at < v.timing.MotorRunMs() + g
    ensures Run(v, events) == v.(userState := v.phase.TurningOn?, phase := AfterSequence(v, events[|events| - 1].now))
  {
    var (before, ts) := (events[..|events| - 1], Ticks(events));
    var start := v.phase.startMs;
    DuringSequence(v, before);
    var (trace, open) := (Trace(v, events), v.phase.TurningOn?);
    assert |trace| == |ts|;
    forall k | 0 <= k < |trace|
      ensures trace[k].at == ts[k] && !Coil(trace[k], !open)
      ensures Coil(trace[k], open) <==> start + SETTLE_MS <= ts[k] < start + SETTLE_MS + v.timing.MotorRunMs()
    {
      if k < |trace| - 1 {
        assert trace[k] == Trace(v, before)[k];
      }
    }
    i := FirstAtOrAfter(ts, start, g, start + SETTLE_MS);
    j := FirstAtOrAfter(ts, start, g, start + SETTLE_MS + v.timing.MotorRunMs());
  }

  // ----- one drain -----

  /** Ticks and closing commands within one drain, up to and including the tick that ends it. */
  ghost predicate OneDrain(v: Valve, events: seq<Event>, g: nat) {
    && v.phase.Draining? && events != [] && NoRetime(events)
    && (forall i :: 0 <= i < |events| ==> !events[i].CommandOn?)
    && (forall i :: 0 <= i < |events| - 1 && events[i].Tick? ==>
         events[i].now < v.phase.startMs + 1000 * v.timing.drainSecs)
    && events[|events| - 1].Tick?
    && events[|events| - 1].now >= v.phase.startMs + 1000 * v.timing.drainSecs
    && Gaps(Ticks(events), v.phase.startMs, g)
  }

  lemma {:induction false} WhileDraining(v: Valve, events: seq<Event>)
    requires v.phase.Draining? && v.timing.drainSecs > 0 && NoRetime(events)
    requires forall i :: 0 <= i < |events| ==> !events[i].CommandOn?
    requires forall i :: 0 <= i < |events| && events[i].Tick? ==>
      events[i].now < v.phase.startMs + 1000 * v.timing.drainSecs
    ensures Run(v, events) == v
    ensures forall k :: 0 <= k < |Trace(v, events)| ==> Trace(v, events)[k].pins == DRAIN_HIGH
    ensures |Ticks(events)| == |Trace(v, events)|
    ensures forall k :: 0 <= k < |Ticks(events)| ==> Ticks(events)[k] < v.phase.startMs + 1000 * v.timing.drainSecs
  {
    if events != [] {
      var (before, e) := (events[..|events| - 1], events[|events| - 1]);
      WhileDraining(v, before);
      assert e.Tick? ==> v.Ticked(e.now) == (v, DRAIN_HIGH);
    }
  }

  /** A drain that no turn-on cancels holds the drain pin alone, at every tick until its time is up;
      the first tick from then on, less than a gap late, ends it. */
  lemma {:induction false} DrainThenIdle(v: Valve, events: seq<Event>, g: nat)
    requires OneDrain(v, events, g) && v.timing.drainSecs > 0
    ensures var trace := Trace(v, events);
      && trace != [] && trace[|trace| - 1].pins == ALL_LOW
      && (forall k :: 0 <= k < |trace| - 1 ==> trace[k].pins == DRAIN_HIGH)
      && trace[|trace| - 1].at < v.phase.startMs + 1000 * v.timing.drainSecs + g
    ensures Run(v, events) == v.(phase := Idle)
  {
    var (before, ts) := (events[..|events| - 1], Ticks(events));
    WhileDraining(v, before);
    var i := FirstAtOrAfter(ts, v.phase.startMs, g, v.phase.startMs + 1000 * v.timing.drainSecs);
    assert ts == Ticks(before) + [events[|events| - 1].now];
    assert i == |ts| - 1;
  }
}
