/** What an order does: from rest or mid-drain to open, and from open to closed. Times in milliseconds,
    settings in seconds. */
module ValveOrders {
  import opened WaterValves
  import opened ValveRuns

  function Order(open: bool, now: nat): Event {
    if open then CommandOn(now) else CommandOff(now)
  }

  /** The ticks and repeated commands after an order at `now`, up to and including the first tick two settle
      times and the motor time later. */
  ghost predicate Follows(v: Valve, now: nat, events: seq<Event>, g: nat) {
    && events != [] && NoRetime(events) && Gaps(Ticks(events), now, g)
    && (forall i :: 0 <= i < |events| - 1 && events[i].Tick? ==>
         events[i].now < now + 2000 + 1000 * v.timing.motorRunSecs)
    && events[|events| - 1].Tick?
    && events[|events| - 1].now >= now + 2000 + 1000 * v.timing.motorRunSecs
  }

  lemma {:induction false} FirstEvent(v: Valve, e: Event, events: seq<Event>)
    requires !e.Tick?
    ensures Run(v, [e] + events) == Run(Next(v, e), events)
    ensures Trace(v, [e] + events) == Trace(Next(v, e), events)
  {
    if events == [] {
      assert [e] + events == [e] && [e][..0] == [];
      assert Run(v, []) == v && Trace(v, []) == [];
    } else {
      var init := events[..|events| - 1];
      FirstEvent(v, e, init);
      assert ([e] + events)[..|events|] == [e] + init;
    }
  }

  /** Before the last tick the order's own coil is high exactly from one settle time after it for the motor
      time, and the other pins are low. */
  lemma {:induction false} PinsByTime(v: Valve, events: seq<Event>, open: bool, now: nat)
    requires v.phase == if open then TurningOn(now) else TurningOff(now)
    requires NoRetime(events) && forall i :: 0 <= i < |events| && events[i].Tick? ==>
      events[i].now < now + 2000 + 1000 * v.timing.motorRunSecs
    ensures Run(v, events) == v && |Trace(v, events)| == |Ticks(events)|
    ensures forall k :: 0 <= k < |Ticks(events)| ==>
      var d := Trace(v, events)[k];
      && d.at == Ticks(events)[k] && !Coil(d, !open) && !d.pins.drain
      && (Coil(d, open) <==> now + 1000 <= d.at < now + 1000 + 1000 * v.timing.motorRunSecs)
  {
    DuringSequence(v, events);
  }

  lemma {:induction false} LastByTime(v: Valve, open: bool, now: nat, at: nat)
    requires v.phase == if open then TurningOn(now) else TurningOff(now)
    requires at >= now + 2000 + 1000 * v.timing.motorRunSecs
    ensures v.Ticked(at).0.State() == (if open then On else Off)
    ensures v.Ticked(at).1 == Outputs(false, false, !open && v.timing.drainSecs > 0)
    ensures !open && v.timing.drainSecs > 0 ==> v.Ticked(at).0.phase == Draining(at)
  {
  }

  /** An opening order to a valve that is off, resting or draining, and a closing one to a valve that is on:
      one pulse of the order's own coil, for the motor time give or take a tick gap and after the settle time;
      the other coil low throughout; the drain pin low until the sequence ends, and then high after a closing
      with a drain time; and the state on or off from the first tick two settle times and the motor time after
      the order, not before. */
  lemma {:induction false} OrderIsCarriedOut(v: Valve, open: bool, now: nat, events: seq<Event>, g: nat)
    returns (i: nat, j: nat)
    requires v.State() == if open then Off else On
    requires Follows(v, now, events, g) && g <= 1000 * v.timing.motorRunSecs
    ensures var trace := Trace(v, [Order(open, now)] + events); var n := |trace| - 1;
      && i < j <= n
      && (forall k :: 0 <= k <= n ==> (Coil(trace[k], open) <==> i <= k < j) && !Coil(trace[k], !open))
      && now + 1000 <= trace[i].at < now + 1000 + g
      && now + 1000 + 1000 * v.timing.motorRunSecs <= trace[j].at < now + 1000 + 1000 * v.timing.motorRunSecs + g
      && (forall k :: 0 <= k < n ==> !trace[k].pins.drain)
      && (trace[n].pins.drain <==> !open && v.timing.drainSecs > 0)
    ensures Run(v, [Order(open, now)] + events[..|events| - 1]).State() == if open then Opening else Closing
    ensures Run(v, [Order(open, now)] + events).State() == if open then On else Off
  {
    var (w, before, ts) := (Next(v, Order(open, now)), events[..|events| - 1], Ticks(events));
    assert w == v.(phase := if open then TurningOn(now) else TurningOff(now));
    FirstEvent(v, Order(open, now), events);
    FirstEvent(v, Order(open, now), before);
    PinsByTime(w, before, open, now);
    LastByTime(w, open, now, events[|events| - 1].now);
    var trace := Trace(w, events);
    assert |trace| == |ts|;
    forall k | 0 <= k < |trace|
      ensures trace[k].at == ts[k] && !Coil(trace[k], !open)
      ensures Coil(trace[k], open) <==> now + 1000 <= ts[k] < now + 1000 + 1000 * v.timing.motorRunSecs
      ensures k < |trace| - 1 ==> !trace[k].pins.drain
    {
      if k < |trace| - 1 {
        assert trace[k] == Trace(w, before)[k];
      }
    }
    i := FirstAtOrAfter(ts, now, g, now + 1000);
    j := FirstAtOrAfter(ts, now, g, now + 1000 + 1000 * v.timing.motorRunSecs);
  }
}
