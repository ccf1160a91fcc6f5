/** The motor-valve sequencer: `crates/core/src/water_valve.rs`. Times are milliseconds. */
module WaterValves {

  /** Idle time before and after the motor pulse. */
  const SETTLE_MS: nat := 1000

  datatype Timing = Timing(motorRunSecs: nat, drainSecs: nat) {
    function MotorRunMs(): nat { motorRunSecs * 1000 }
    function DrainHoldMs(): nat { drainSecs * 1000 }
    function SequenceMs(): nat { SETTLE_MS + MotorRunMs() + SETTLE_MS }
  }

  datatype Outputs = Outputs(openMotor: bool, closeMotor: bool, drain: bool)

  const ALL_LOW := Outputs(false, false, false)
  const OPEN_HIGH := Outputs(true, false, false)
  const CLOSE_HIGH := Outputs(false, true, false)
  const DRAIN_HIGH := Outputs(false, false, true)

  datatype Phase =
    | Idle
    | TurningOn(startMs: nat)
    | TurningOff(startMs: nat)
    | Draining(startMs: nat)

  datatype WaterState = Off | Opening | On | Closing

  function Elapsed(nowMs: nat, startMs: nat): nat {
    if nowMs < startMs then 0 else nowMs - startMs
  }

  /** The value of a valve object. */
  datatype Valve = Valve(phase: Phase, userState: bool, timing: Timing) {

    predicate IsBusy() { phase.TurningOn? || phase.TurningOff? }

    predicate RestingOpen() { phase.Idle? && userState }

    predicate Closed() { (phase.Idle? || phase.Draining?) && !userState }

    function State(): WaterState {
      match phase
      case TurningOn(_) => Opening
      case TurningOff(_) => Closing
      case Draining(_) => Off
      case Idle => if userState then On else Off
    }

    function TurnedOn(nowMs: nat): Valve {
      match phase
      case Idle => if userState then this else this.(phase := TurningOn(nowMs))
      case Draining(_) => this.(phase := TurningOn(nowMs))
      case _ => this
    }

    function TurnedOff(nowMs: nat): Valve {
      if RestingOpen() then this.(phase := TurningOff(nowMs)) else this
    }

    /** The coil outputs of a sequence `elapsed` ms after its start. */
    function Pulse(elapsed: nat, high: Outputs): Outputs {
      if SETTLE_MS <= elapsed < SETTLE_MS + timing.MotorRunMs() then high else ALL_LOW
    }

    function Ticked(nowMs: nat): (Valve, Outputs) {
      match phase
      case Idle => (this, ALL_LOW)
      case TurningOn(start) =>
        var elapsed := Elapsed(nowMs, start);
        if elapsed >= timing.SequenceMs() then (this.(phase := Idle, userState := true), ALL_LOW)
        else (this, Pulse(elapsed, OPEN_HIGH))
      case TurningOff(start) =>
        var elapsed := Elapsed(nowMs, start);
        if elapsed < timing.SequenceMs() then (this, Pulse(elapsed, CLOSE_HIGH))
        else if timing.DrainHoldMs() == 0 then (this.(phase := Idle, userState := false), ALL_LOW)
        else (this.(phase := Draining(nowMs), userState := false), DRAIN_HIGH)
      case Draining(start) =>
        if Elapsed(nowMs, start) >= timing.DrainHoldMs() then (this.(phase := Idle), ALL_LOW)
        else (this, DRAIN_HIGH)
    }
  }

  class WaterValve {
    var phase: Phase
    var userState: bool
    var timing: Timing

    function View(): Valve
      reads this
    {
      Valve(phase, userState, timing)
    }

    constructor WithTiming(timing: Timing)
      ensures View() == Valve(Idle, false, timing)
    {
      this.phase, this.userState, this.timing := Idle, false, timing;
    }

    method SetTiming(timing: Timing)
      modifies this
      ensures View() == old(View()).(timing := timing)
    {
      this.timing := timing;
    }

    method Restore(on: bool)
      modifies this
      ensures View() == old(View()).(userState := on)
    {
      userState := on;
    }

    method TurnOn(nowMs: nat)
      modifies this
      ensures View() == old(View()).TurnedOn(nowMs)
    {
      match phase
      case Idle =>
        if !userState {
          phase := TurningOn(nowMs);
        }
      case Draining(_) =>
        phase := TurningOn(nowMs);
      case _ =>
    }

    method TurnOff(nowMs: nat)
      modifies this
      ensures View() == old(View()).TurnedOff(nowMs)
    {
      if phase.Idle? {
        if userState {
          phase := TurningOff(nowMs);
        }
      }
    }

    method Tick(nowMs: nat) returns (outputs: Outputs)
      modifies this
      ensures (View(), outputs) == old(View()).Ticked(nowMs)
    {
      var motorRun, sequence, drainHold := timing.MotorRunMs(), timing.SequenceMs(), timing.DrainHoldMs();
      outputs := ALL_LOW;
      match phase
      case Idle =>
      case TurningOn(start) =>
        var elapsed := Elapsed(nowMs, start);
        if elapsed >= sequence {
          userState := true;
          phase := Idle;
        } else if elapsed < SETTLE_MS {
        } else if elapsed < SETTLE_MS + motorRun {
          outputs := OPEN_HIGH;
        }
      case TurningOff(start) =>
        var elapsed := Elapsed(nowMs, start);
        if elapsed >= sequence {
          userState := false;
          if drainHold == 0 {
            phase := Idle;
          } else {
            phase := Draining(nowMs);
            outputs := DRAIN_HIGH;
          }
        } else if elapsed < SETTLE_MS {
        } else if elapsed < SETTLE_MS + motorRun {
          outputs := CLOSE_HIGH;
        }
      case Draining(start) =>
        if Elapsed(nowMs, start) >= drainHold {
          phase := Idle;
        } else {
          outputs := DRAIN_HIGH;
        }
    }
  }
}
