/** The settle time a stale clock reading can take away is exactly its staleness: a retiming ends the
    opening sequence at once, and a command whose clock reading is `lag` old starts the closing one. */
module ValveExamples {
  import opened WaterValves
  import opened ValveRuns

  const SLOW: Timing := Timing(14, 0)

  const IDLE: Valve := Valve(Idle, false, SLOW)

  function HastyEvents(lag: nat): seq<Event>
    requires lag <= SETTLE_MS
  {
    [CommandOn(0), Tick(1000), Retime(Timing(0, 0)), Tick(2000), Retime(SLOW)] +
    [CommandOff(2000 - lag)] + [Tick(3000 - lag)]
  }

  lemma {:induction false} RunSnoc(v: Valve, before: seq<Event>, e: Event)
    ensures Run(v, before + [e]) == Next(Run(v, before), e)
    ensures Trace(v, before + [e]) ==
      Trace(v, before) + if e.Tick? then [Drive(e.now, Run(v, before).Ticked(e.now).1)] else []
  {
    assert (before + [e])[..|before|] == before;
  }

  lemma {:induction false} Opens(es: seq<Event>)
    requires es == [CommandOn(0), Tick(1000), Retime(Timing(0, 0)), Tick(2000), Retime(SLOW)]
    ensures Run(IDLE, es) == IDLE.(userState := true) && InOrder(es, 0) && LastTick(es) == 2000
    ensures Trace(IDLE, es) == [Drive(1000, OPEN_HIGH), Drive(2000, ALL_LOW)]
  {
    var e1 := [CommandOn(0)];
    var e2 := e1 + [Tick(1000)];
    var e3 := e2 + [Retime(Timing(0, 0))];
    var e4 := e3 + [Tick(2000)];
    assert Run(IDLE, []) == IDLE && Trace(IDLE, []) == [] && [] + e1 == e1;
    RunSnoc(IDLE, [], CommandOn(0));
    assert InOrder(e1, 0) && LastTick(e1) == 0;
    RunSnoc(IDLE, e1, Tick(1000));
    RunSnoc(IDLE, e2, Retime(Timing(0, 0)));
    RunSnoc(IDLE, e3, Tick(2000));
    RunSnoc(IDLE, e4, Retime(SLOW));
    assert e2[..1] == e1 && InOrder(e2, 0) && LastTick(e2) == 1000;
    assert e3[..2] == e2 && InOrder(e3, 0) && LastTick(e3) == 1000;
    assert e4[..3] == e3 && InOrder(e4, 0) && LastTick(e4) == 2000;
    assert es == e4 + [Retime(SLOW)] && es[..4] == e4;
  }

  lemma {:induction false} FreshIsInOrder(events: seq<Event>, lag: nat)
    requires InOrder(events, 0)
    ensures InOrder(events, lag)
  {
    if events != [] {
      FreshIsInOrder(events[..|events| - 1], lag);
    }
  }

  lemma {:induction false} StalenessTakesFromSettle(lag: nat)
    requires lag <= SETTLE_MS
    ensures var (events, trace) := (HastyEvents(lag), Trace(IDLE, HastyEvents(lag)));
      && InOrder(events, lag) && |trace| == 3 && Coil(trace[0], true) && Coil(trace[2], false)
      && trace[1].at + SETTLE_MS == trace[2].at + lag
  {
    var es := [CommandOn(0), Tick(1000), Retime(Timing(0, 0)), Tick(2000), Retime(SLOW)];
    var (off, tick) := (CommandOff(2000 - lag), Tick(3000 - lag));
    Opens(es);
    FreshIsInOrder(es, lag);
    RunSnoc(IDLE, es, off);
    RunSnoc(IDLE, es + [off], tick);
    assert (es + [off])[..5] == es && (es + [off] + [tick])[..6] == es + [off];
    assert (es + [off])[5] == off;
  }
}
