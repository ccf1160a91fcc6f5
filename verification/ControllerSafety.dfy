/** Under every interleaving, a tick never returns with the alarm latched and the valve
    resting open. */
module ControllerSafety {
  import opened Wrappers
  import opened WaterValves
  import opened Controllers
  import opened Machines

  /** What the tick thread knows about the valve at each of its points. */
  ghost predicate Safe(m: Machine) {
    var (open, active) := (m.dev.valve.RestingOpen(), m.dev.snap.alarmActive);
    match m.pc
    case TickedValve(_, _) => true
    case SawSprinkler1(_, _, _) => true
    case SawSprinkler2(_, _, _, _) => true
    case SawValve(_, _, _, state, _) => open ==> state == On
    case SnapshotSet(_, _) => open ==> m.dev.snap.water == ControlOn
    case HasConfig(_, _, _) => open ==> m.dev.snap.water == ControlOn
    case Checked(_, _, _, _) => open ==> m.dev.snap.water == ControlOn
    case Seen(_, _, _, _, seen) => (open ==> seen.water == ControlOn) && (active ==> seen.alarmActive)
    case Latched(_, _, _) => true
    case Pushed(_, _, _) => true
    case CloseDue(_, _) => true
    case CloseOrdered(_, _, _) => true
    case _ => active ==> !open
  }

  /** No command leaves the valve resting open that was not so before. */
  lemma {:induction false} CommandsNeverOpen(d: Device, command: Command, now: nat)
    ensures Commanded(d, command, now).0.valve.RestingOpen() ==> d.valve.RestingOpen()
    ensures command == Water(false) ==> !Commanded(d, command, now).0.valve.RestingOpen()
    ensures Commanded(d, command, now).0.snap == d.snap
  {
  }

  lemma {:induction false} SafeStep(m: Machine, step: Step)
    requires Safe(m)
    ensures Safe(Next(m, step))
  {
    if step.Tick? { SafeTick(m, step.o); } else { SafeOther(m, step); }
  }

  lemma {:induction false} SafeOther(m: Machine, step: Step)
    requires Safe(m) && !step.Tick?
    ensures Safe(Next(m, step))
  {
    if step.Order? {
      CommandsNeverOpen(m.dev, step.command, ReadAgo(m.clock, step.age));
    }
  }

  lemma {:induction false} SafeTick(m: Machine, o: Oracle)
    requires Safe(m)
    ensures Safe(TickStep(m, o))
  {
    if m.pc.CloseOrdered? {
      CommandsNeverOpen(m.dev, Water(false), m.pc.at);
    }
  }

  lemma {:induction false} SafeAlways(m: Machine, steps: seq<Step>)
    requires Safe(m)
    ensures Safe(Run(m, steps))
  {
    if steps != [] {
      SafeAlways(m, steps[..|steps| - 1]);
      SafeStep(Run(m, steps[..|steps| - 1]), steps[|steps| - 1]);
    }
  }

  /** From boot, whatever the other tasks do and wherever power is cut: between ticks, and
      so whenever a tick returns, a latched alarm means the valve is not resting open. */
  lemma {:induction false} LatchedIsNotOpen(config: Config, store: Option<Store>, steps: seq<Step>)
    ensures var m := Run(Initial(config, store), steps);
      m.pc.Resting? && m.dev.snap.alarmActive ==> !m.dev.valve.RestingOpen()
  {
    SafeAlways(Initial(config, store), steps);
  }
}
