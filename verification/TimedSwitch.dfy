/** The sprinkler output with its auto-off timer: `crates/core/src/switch.rs`. Times and
    durations are milliseconds. */
module TimedSwitches {
  import opened Wrappers

  /** The value of a switch object. */
  datatype Switch = Switch(on: bool, onSince: Option<nat>, autoOff: Option<nat>, overrideOff: Option<nat>) {

    function TurnedOn(now: nat): Switch {
      if on then this else this.(on := true, onSince := Some(now), overrideOff := None)
    }

    function TurnedOnFor(now: nat, duration: nat): Switch {
      if on then this else this.(on := true, onSince := Some(now), overrideOff := Some(duration))
    }

    function TurnedOff(): Switch {
      this.(on := false, onSince := None, overrideOff := None)
    }

    /** The limit in force: the override of this activation, else the configured one. */
    function Limit(): Option<nat> {
      if overrideOff.Some? then overrideOff else autoOff
    }

    predicate Expired(now: nat) {
      on && Limit().Some? && onSince.Some? &&
      (if now < onSince.value then 0 else now - onSince.value) >= Limit().value
    }

    function Ticked(now: nat): Switch {
      if Expired(now) then TurnedOff() else this
    }
  }

  class TimedSwitch {
    var on: bool
    var onSince: Option<nat>
    var autoOff: Option<nat>
    var overrideOff: Option<nat>

    function View(): Switch
      reads this
    {
      Switch(on, onSince, autoOff, overrideOff)
    }

    constructor (autoOff: Option<nat>)
      ensures View() == Switch(false, None, autoOff, None)
    {
      this.on, this.onSince, this.autoOff, this.overrideOff := false, None, autoOff, None;
    }

    method SetAutoOff(autoOff: Option<nat>)
      modifies this
      ensures View() == old(View()).(autoOff := autoOff)
    {
      this.autoOff := autoOff;
    }

    method TurnOn(now: nat)
      modifies this
      ensures View() == old(View()).TurnedOn(now)
      ensures View() == if old(on) then old(View()) else Switch(true, Some(now), old(autoOff), None)
    {
      if !on {
        on := true;
        onSince := Some(now);
        overrideOff := None;
      }
    }

    method TurnOnFor(now: nat, duration: nat)
      modifies this
      ensures View() == old(View()).TurnedOnFor(now, duration)
      ensures View() == if old(on) then old(View()) else Switch(true, Some(now), old(autoOff), Some(duration))
    {
      if !on {
        on := true;
        onSince := Some(now);
        overrideOff := Some(duration);
      }
    }

    method TurnOff(now: nat)
      modifies this
      ensures View() == old(View()).TurnedOff() == Switch(false, None, old(autoOff), None)
    {
      on := false;
      onSince := None;
      overrideOff := None;
    }

    /** True only when this tick is the one that switched off. */
    method Tick(now: nat) returns (fired: bool)
      modifies this
      ensures View() == old(View()).Ticked(now)
      ensures fired <==> old(View()).on && !View().on
    {
      if !on {
        return false;
      }
      var limit := if overrideOff.Some? then overrideOff else autoOff;
      if limit.None? || onSince.None? {
        return false;
      }
      var elapsed := if now < onSince.value then 0 else now - onSince.value;
      if elapsed >= limit.value {
        TurnOff(now);
        return true;
      }
      return false;
    }
  }

  // ----- one activation, over a run of events -----

  datatype Event =
    | Tick(now: nat)
    | CommandOn(now: nat)
    | CommandOnFor(now: nat, duration: nat)
    | CommandOff
    | Reconfigure(autoOff: Option<nat>)

  function Next(s: Switch, e: Event): Switch {
    match e
    case Tick(now) => s.Ticked(now)
    case CommandOn(now) => s.TurnedOn(now)
    case CommandOnFor(now, duration) => s.TurnedOnFor(now, duration)
    case CommandOff => s.TurnedOff()
    case Reconfigure(autoOff) => s.(autoOff := autoOff)
  }

  function Run(s: Switch, events: seq<Event>): Switch {
    if events == [] then s else Next(Run(s, events[..|events| - 1]), events[|events| - 1])
  }

  /** The tick before position `i`, or `before` if there is none. */
  function LastTick(events: seq<Event>, before: int): int {
    if events == [] then before
    else if events[|events| - 1].Tick? then events[|events| - 1].now
    else LastTick(events[..|events| - 1], before)
  }

  /** Successive ticks are at most `g` apart, the first at most `g` after `before`. */
  predicate Punctual(events: seq<Event>, before: int, g: nat) {
    forall i :: 0 <= i < |events| && events[i].Tick? ==>
      LastTick(events[..i], before) <= events[i].now <= LastTick(events[..i], before) + g
  }

  /** No manual off; the configuration changes only if an override is in force. */
  predicate Undisturbed(s: Switch, events: seq<Event>) {
    forall i :: 0 <= i < |events| ==>
      !events[i].CommandOff? && (s.overrideOff.Some? || !events[i].Reconfigure?)
  }

  predicate TicksBefore(events: seq<Event>, deadline: int) {
    forall i :: 0 <= i < |events| && events[i].Tick? ==> events[i].now < deadline
  }

  /** Until its limit the activation stands, untouched by repeated commands and, under an
      override, by any configuration change. */
  lemma {:induction false} Stands(s: Switch, events: seq<Event>, d: nat)
    requires s.on && s.onSince.Some? && s.Limit() == Some(d) && d > 0 && Undisturbed(s, events)
    requires TicksBefore(events, s.onSince.value + d)
    ensures Run(s, events) == s.(autoOff := Run(s, events).autoOff)
    ensures Run(s, events).Limit() == Some(d)
  {
    if events != [] {
      var before := events[..|events| - 1];
      assert forall i :: 0 <= i < |before| ==> before[i] == events[i];
      Stands(s, before, d);
    }
  }

  lemma {:induction false} LastTickBefore(events: seq<Event>, before: int, deadline: int)
    requires before < deadline && TicksBefore(events, deadline)
    ensures LastTick(events, before) < deadline
  {
    if events != [] {
      LastTickBefore(events[..|events| - 1], before, deadline);
    }
  }

  /** An activation with limit `d` outlives every tick before `d` and is switched off by the first tick from
      then on, less than one tick gap after the limit or, if its clock reading was older than that, at most one
      after `before`, the last tick before the activation. */
  lemma {:induction false} OffInTime(s: Switch, events: seq<Event>, d: nat, before: int, g: nat)
    requires s.on && s.onSince.Some? && s.Limit() == Some(d) && d > 0
    requires events != [] && Undisturbed(s, events) && Punctual(events, before, g)
    requires TicksBefore(events[..|events| - 1], s.onSince.value + d)
    requires events[|events| - 1].Tick? && events[|events| - 1].now >= s.onSince.value + d
    ensures Run(s, events[..|events| - 1]).on && !Run(s, events).on
    ensures var off := events[|events| - 1].now;
      s.onSince.value + d <= off && (off < s.onSince.value + d + g || off <= before + g)
  {
    var first := events[..|events| - 1];
    assert forall i :: 0 <= i < |first| ==> first[i] == events[i];
    Stands(s, first, d);
    if before < s.onSince.value + d {
      LastTickBefore(first, before, s.onSince.value + d);
    } else {
      LastTickBefore(first, before, before + 1);
    }
  }

  /** A zero limit, which only a schedule override can set, ends at the very next tick,
      whatever its clock reading, commands and configuration changes in between. */
  lemma {:induction false} ZeroOverrideEndsAtOnce(s: Switch, events: seq<Event>, now: nat)
    requires s.on && s.onSince.Some? && s.overrideOff == Some(0) && Undisturbed(s, events)
    requires forall i :: 0 <= i < |events| ==> !events[i].Tick?
    ensures Run(s, events) == s.(autoOff := Run(s, events).autoOff)
    ensures !Next(Run(s, events), Tick(now)).on
  {
    if events != [] {
      ZeroOverrideEndsAtOnce(s, events[..|events| - 1], now);
    }
  }
}
