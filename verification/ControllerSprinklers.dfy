/** How long a sprinkler runs, under every interleaving of the tick thread with the other tasks. */
module ControllerSprinklers {
  import opened Wrappers
  import opened TimedSwitches
  import opened Controllers
  import M = Machines

  function Sprinkler(m: M.Machine, second: bool): Switch {
    if second then m.dev.sprinkler2 else m.dev.sprinkler1
  }

  /** One activation: when it started, by its own clock reading, its limit, whether that is an
      override, and the clock when it took effect. */
  datatype Activation = Activation(second: bool, since: nat, limit: nat, overrides: bool, begun: nat) {
    /** The earliest clock reading by which a tick has to switch it off. */
    function Due(): nat {
      if since + limit > begun then since + limit else begun + 1
    }

    /** A tick with this clock reading finds the limit reached; a zero limit is reached at once, by a
        reading older than the start too. */
    predicate Over(now: nat) {
      limit == 0 || now >= since + limit
    }
  }

  /** No power cut, no manual off, and the configured limit changes only under an override. */
  predicate Calm(step: M.Step, a: Activation) {
    match step
    case Order(command, _) =>
      (match command
       case Sprinkler1(on) => a.second || on
       case Sprinkler2(on) => !a.second || on
       case Water(_) => true)
    case SetAutoOff1(_) => a.second || a.overrides
    case SetAutoOff2(_) => !a.second || a.overrides
    case PowerCut(_) => false
    case _ => true
  }

  /** Ticks start at most `g` after the last one's clock reading and take at most `d`. */
  predicate OnTime(m: M.Machine, g: nat, d: nat) {
    m.lastRead <= m.clock <= m.lastRead + if m.pc.Resting? then g else d
  }

  /** This tick has not yet come to the sprinkler. */
  predicate BeforeSwitch(pc: M.Pc, second: bool) {
    pc.Started? || (second && pc.TickedSprinkler1?)
  }

  /** The activation stands. */
  predicate Stands(m: M.Machine, a: Activation) {
    var s := Sprinkler(m, a.second);
    s.on && s.onSince == Some(a.since) && s.Limit() == Some(a.limit) && s.overrideOff.Some? == a.overrides
  }

  ghost predicate Running(m: M.Machine, a: Activation, g: nat) {
    && Stands(m, a) && (!m.pc.Resting? ==> m.pc.now == m.lastRead)
    && m.lastRead < a.Due() + if BeforeSwitch(m.pc, a.second) then g else 0
  }

  lemma {:induction false} CommandStands(d: Device, command: Command, now: nat, a: Activation)
    requires Calm(M.Order(command, 0), a)
    ensures var (s, r) := (if a.second then d.sprinkler2 else d.sprinkler1,
                           if a.second then Commanded(d, command, now).0.sprinkler2
                           else Commanded(d, command, now).0.sprinkler1);
      s.on ==> r == s
  {
  }

  /** The other tasks leave a standing activation standing. */
  lemma {:induction false} OthersLeaveIt(m: M.Machine, step: M.Step, a: Activation, g: nat)
    requires Running(m, a, g) && Calm(step, a) && !step.Tick?
    ensures Running(M.Next(m, step), a, g)
  {
    if step.Order? {
      CommandStands(m.dev, step.command, M.ReadAgo(m.clock, step.age), a);
    }
  }

  /** The step of a tick that looks at the sprinkler. */
  predicate Looks(pc: M.Pc, second: bool) {
    if second then pc.TickedSprinkler1? else pc.Started?
  }

  lemma {:induction false} OtherTickSteps(m: M.Machine, o: M.Oracle, second: bool)
    requires !Looks(m.pc, second)
    ensures var r := M.TickStep(m, o);
      && Sprinkler(r, second) == Sprinkler(m, second)
      && (if m.pc.Resting? then r.lastRead == m.clock else r.lastRead == m.lastRead)
      && (!r.pc.Resting? ==> r.pc.now == if m.pc.Resting? then m.clock else m.pc.now)
      && (BeforeSwitch(r.pc, second) ==> m.pc.Resting? || BeforeSwitch(m.pc, second))
  {
  }

  /** A tick leaves it standing or, if its clock reading has reached the limit, switches it off. */
  lemma {:induction false} TickDecides(m: M.Machine, o: M.Oracle, a: Activation, g: nat, d: nat)
    requires Running(m, a, g) && OnTime(m, g, d)
    ensures var r := M.TickStep(m, o);
      if Looks(m.pc, a.second) && a.Over(m.pc.now) then !Sprinkler(r, a.second).on
      else Running(r, a, g)
  {
    if !Looks(m.pc, a.second) {
      OtherTickSteps(m, o, a.second);
    }
  }

  /** The sprinkler has been on all the time. */
  predicate OnThroughout(m: M.Machine, steps: seq<M.Step>, second: bool) {
    Sprinkler(M.Run(m, steps), second).on &&
    (steps == [] || OnThroughout(m, steps[..|steps| - 1], second))
  }

  predicate CalmRun(m: M.Machine, steps: seq<M.Step>, a: Activation, g: nat, d: nat) {
    OnTime(M.Run(m, steps), g, d) &&
    (steps == [] ||
     (Calm(steps[|steps| - 1], a) && CalmRun(m, steps[..|steps| - 1], a, g, d)))
  }

  lemma {:induction false} RunsOn(m: M.Machine, steps: seq<M.Step>, a: Activation, g: nat, d: nat)
    requires Running(m, a, g) && CalmRun(m, steps, a, g, d) && OnThroughout(m, steps, a.second)
    ensures Running(M.Run(m, steps), a, g)
  {
    if steps != [] {
      var (before, step) := (steps[..|steps| - 1], steps[|steps| - 1]);
      RunsOn(m, before, a, g, d);
      var r := M.Run(m, before);
      if step.Tick? { TickDecides(r, step.o, a, g, d); } else { OthersLeaveIt(r, step, a, g); }
    }
  }

  /** The state right after an activation took effect. */
  predicate Activated(m: M.Machine, a: Activation) {
    Stands(m, a) && a.since <= a.begun == m.clock && m.lastRead <= m.clock &&
    (!m.pc.Resting? ==> m.pc.now == m.lastRead)
  }

  /** Repeated turn-ons, other commands and, under an override, any change of the configured limit
      notwithstanding: while the activation stands, no tick that looked at it had reached its limit, so
      it is over once the clock has passed its limit, or its beginning, by a tick gap and a tick; and
      a step that ends it is a tick whose clock reading has reached the limit, less than a gap late. */
  lemma {:induction false} OffInTime(m: M.Machine, steps: seq<M.Step>, next: M.Step, a: Activation, g: nat, d: nat)
    requires Activated(m, a) && CalmRun(m, steps, a, g, d) && OnThroughout(m, steps, a.second) && Calm(next, a)
    ensures var r := M.Run(m, steps);
      && r.clock < a.Due() + g + d
      && (r.pc.Resting? ==> r.clock < a.Due() + g)
      && (!Sprinkler(M.Next(r, next), a.second).on ==>
           next.Tick? && !r.pc.Resting? && a.Over(r.pc.now) && r.pc.now < a.Due() + g)
  {
    RunsOn(m, steps, a, g, d);
    var r := M.Run(m, steps);
    if next.Tick? { TickDecides(r, next.o, a, g, d); } else { OthersLeaveIt(r, next, a, g); }
  }

  /** A turn-on order of an idle sprinkler is such an activation, `age` ms old when it takes effect. */
  lemma {:induction false} OrderActivates(m: M.Machine, second: bool, age: nat)
    requires !Sprinkler(m, second).on && Sprinkler(m, second).autoOff.Some? && m.lastRead <= m.clock
    requires !m.pc.Resting? ==> m.pc.now == m.lastRead
    ensures var r := M.Next(m, M.Order(if second then Sprinkler2(true) else Sprinkler1(true), age));
      Activated(r, Activation(second, M.ReadAgo(m.clock, age), Sprinkler(m, second).autoOff.value, false, m.clock))
  {
  }

  /** So is a scheduled one, with its own limit. */
  lemma {:induction false} ScheduleActivates(m: M.Machine, second: bool, secs: nat, age: nat)
    requires !Sprinkler(m, second).on && m.lastRead <= m.clock && (!m.pc.Resting? ==> m.pc.now == m.lastRead)
    ensures var r := M.Next(m, M.FireSchedule(second, Some(secs), age));
      Activated(r, Activation(second, M.ReadAgo(m.clock, age), secs * 1000, true, m.clock))
  {
  }
}
