/** A fleet device and the sidecar it shares (internal/inverter/device/fleet.go). The sidecar may
    restart, and so forget every setpoint, between any two transport calls. */
module FleetDevices {
  import opened Common

  datatype Setpoint = Setpoint(activeW: real, reactiveVAr: real)

  /** A property value: a real number, or a phasor. */
  datatype FleetValue = FleetValue(re: real, im: real)

  datatype Reading = Reading(voltsPU: real, freqHz: real, maxPowerW: real)

  /** What the model holds after it is loaded. */
  const TEMPLATE := Setpoint(0.0, 0.0)

  datatype Op = SetOp(s: Setpoint) | StepOp | GetOp

  /** One transport call: how often the sidecar restarts before it, whether it succeeds, and for a Set
      that fails whether the model applied it anyway. */
  datatype Call = Call(restarts: nat, ok: bool, applied: bool)

  /** The write is in the model, whatever the caller was told. */
  predicate Reached(set_: Call) {
    set_.ok || set_.applied
  }

  /** The transport and the model behind it, as far as one device can see. */
  class Fleet {
    var gen: nat
    var held: Setpoint
    ghost var trace: seq<Op>

    constructor (gen: nat)
      ensures this.gen == gen && held == TEMPLATE && trace == []
    {
      this.gen, held, trace := gen, TEMPLATE, [];
    }

    method Restart(times: nat)
      modifies this`gen, this`held
      ensures gen == old(gen) + times
      ensures held == if times > 0 then TEMPLATE else old(held)
    {
      if times > 0 {
        gen, held := gen + times, TEMPLATE;
      }
    }

    method Set(s: Setpoint, c: Call) returns (ok: bool)
      modifies this
      ensures ok == c.ok && gen == old(gen) + c.restarts && trace == old(trace) + [SetOp(s)]
      ensures held == if c.ok || c.applied then s else if c.restarts > 0 then TEMPLATE else old(held)
    {
      Restart(c.restarts);
      trace := trace + [SetOp(s)];
      if c.ok || c.applied { held := s; }
      ok := c.ok;
    }

    method StepTo(c: Call) returns (ok: bool)
      modifies this
      ensures ok == c.ok && gen == old(gen) + c.restarts && trace == old(trace) + [StepOp]
      ensures held == if c.restarts > 0 then TEMPLATE else old(held)
    {
      Restart(c.restarts);
      trace := trace + [StepOp];
      ok := c.ok;
    }

    method Get(c: Call) returns (ok: bool, value: Setpoint)
      modifies this
      ensures ok == c.ok && gen == old(gen) + c.restarts && trace == old(trace) + [GetOp] && value == held
      ensures held == if c.restarts > 0 then TEMPLATE else old(held)
    {
      Restart(c.restarts);
      trace := trace + [GetOp];
      ok, value := c.ok, held;
    }
  }

  class FleetDevice {
    const fleet: Fleet
    var lastControls: Option<Setpoint>
    var lastGeneration: nat
    /** The last write to reach the model came from a failed apply of another setpoint. */
    ghost var unsettled: bool

    constructor (fleet: Fleet)
      ensures Survives() && this.fleet == fleet && lastControls == None && !unsettled
    {
      this.fleet, lastControls, lastGeneration, unsettled := fleet, None, 0, false;
    }

    /** The invariant: generations only grow, and a device whose generation is current has its setpoint
        in force exactly when no failed apply has put another one there. */
    ghost predicate Survives()
      reads this, fleet
    {
      && lastGeneration <= fleet.gen
      && (lastControls.Some? && lastGeneration == fleet.gen ==> (fleet.held == lastControls.value <==> !unsettled))
    }

    /** Main result: a restart at any moment keeps the invariant. */
    method SidecarRestarts(times: nat)
      requires Survives()
      modifies fleet`gen, fleet`held
      ensures Survives()
    {
      fleet.Restart(times);
    }

    /** The remembered setpoint is the one the model holds, and the device knows this model. */
    ghost predicate InForce()
      reads this, fleet
    {
      lastControls.Some? && lastGeneration == fleet.gen && fleet.held == lastControls.value
    }

    /** What went over the wire since `before`: after a restart was noticed, the remembered setpoint is
        set and stepped before anything else. */
    ghost predicate ReappliedFirst(before: seq<Op>, sampled: nat, remembered: Option<Setpoint>, seen: nat)
      reads fleet
    {
      && before <= fleet.trace
      && (sampled != seen && remembered.Some? ==>
            var ops := fleet.trace[|before|..];
            && (|ops| > 0 ==> ops[0] == SetOp(remembered.value))
            && (|ops| > 1 ==> ops[1] == StepOp))
    }

    /** What a successful resync sends. */
    ghost function Reapplied(sampled: nat, remembered: Option<Setpoint>, seen: nat): seq<Op> {
      if sampled == seen || remembered.None? then [] else [SetOp(remembered.value), StepOp]
    }

    /** resyncAfterRestartLocked. `sample` is the moment Generation() is read. */
    method Resync(sample: Call, set_: Call, step: Call) returns (ok: bool, ghost sampled: nat)
      requires Survives()
      modifies this`lastGeneration, this`unsettled, fleet
      ensures Survives()
      ensures sampled == old(fleet.gen) + sample.restarts
      ensures ok == Resyncs(sampled, lastControls, old(lastGeneration), set_, step)
      ensures fleet.gen == sampled + (if fleet.trace == old(fleet.trace) then 0
                                      else set_.restarts + (if set_.ok then step.restarts else 0))
      ensures ok ==> lastGeneration == sampled
      ensures !ok ==> lastGeneration == old(lastGeneration) && lastControls.Some?
      ensures fleet.gen >= sampled
      ensures unsettled == (old(unsettled) && (sampled == old(lastGeneration) || lastControls.None? || !ok))
      ensures fleet.trace == old(fleet.trace) +
                (if sampled == old(lastGeneration) || lastControls.None? then []
                 else [SetOp(lastControls.value)] + (if set_.ok then [StepOp] else []))
      ensures fleet.gen == old(fleet.gen) && old(lastGeneration) == old(fleet.gen) ==> fleet.held == old(fleet.held)
    {
      fleet.Restart(sample.restarts);
      var gen := fleet.gen;
      sampled := gen;
      if gen == lastGeneration || lastControls.None? {
        lastGeneration := gen;
        return true, sampled;
      }
      ok := fleet.Set(lastControls.value, set_);
      if !ok { return; }
      ok := fleet.StepTo(step);
      if !ok { return; }
      lastGeneration := gen;
      unsettled := false;
    }

    /** Whether the resync lets a call go on. */
    ghost predicate Resyncs(sampled: nat, remembered: Option<Setpoint>, seen: nat, set_: Call, step: Call) {
      sampled == seen || remembered.None? || (set_.ok && step.ok)
    }

    /** ReadState. A down sidecar is not talked to; `reply` is what the model reports, and `root` the
        square root of the magnitude. */
    method ReadState(healthy: bool, sample: Call, set_: Call, step: Call, get: Call, reply: seq<FleetValue>,
                     root: real -> real)
      returns (reading: Option<Reading>)
      requires Survives()
      modifies this`lastGeneration, this`unsettled, fleet
      ensures Survives()
      ensures reading.Some? <==>
                && healthy && Resyncs(old(fleet.gen) + sample.restarts, lastControls, old(lastGeneration), set_, step)
                && get.ok && |reply| == 4 && reply[0].im == 0.0 && reply[3].im == 0.0
                && reply[2].im == 0.0 && reply[2].re != 0.0
      ensures reading.Some? ==>
                reading.value == Reading(root(reply[1].re * reply[1].re + reply[1].im * reply[1].im) / reply[2].re,
                                         reply[3].re, reply[0].re)
      ensures !healthy ==>
                && fleet.trace == old(fleet.trace) && fleet.held == old(fleet.held)
                && lastGeneration == old(lastGeneration)
      ensures ReappliedFirst(old(fleet.trace), old(fleet.gen) + sample.restarts, lastControls, old(lastGeneration))
      ensures reading.Some? ==>
                fleet.trace == old(fleet.trace)
                  + Reapplied(old(fleet.gen) + sample.restarts, lastControls, old(lastGeneration)) + [GetOp]
    {
      if !healthy { return None; }
      var ok, sampled := Resync(sample, set_, step);
      if !ok { return None; }
      var value;
      ok, value := fleet.Get(get);
      if !ok || |reply| != 4 { return None; }
      if reply[0].im != 0.0 { return None; }
      if reply[2].im != 0.0 || reply[2].re == 0.0 { return None; }
      if reply[3].im != 0.0 { return None; }
      var volts := root(reply[1].re * reply[1].re + reply[1].im * reply[1].im);
      reading := Some(Reading(volts / reply[2].re, reply[3].re, reply[0].re));
    }

    /** ApplySetpoint. */
    method ApplySetpoint(healthy: bool, c: Setpoint, sample: Call, set_: Call, step: Call, ownSet: Call, ownStep: Call,
                         get: Call)
      returns (ok: bool, achieved: Setpoint)
      requires Survives()
      modifies this, fleet
      ensures Survives()
      ensures ReappliedFirst(old(fleet.trace), old(fleet.gen) + sample.restarts, old(lastControls), old(lastGeneration))
      ensures !healthy ==>
                && !ok && fleet.trace == old(fleet.trace) && fleet.held == old(fleet.held)
                && lastGeneration == old(lastGeneration)
      ensures ok ==> lastControls == Some(c) && !unsettled && achieved == fleet.held
      ensures ok ==>
                fleet.trace == old(fleet.trace)
                               + Reapplied(old(fleet.gen) + sample.restarts, old(lastControls), old(lastGeneration))
                               + [SetOp(c), StepOp, GetOp]
      ensures ok && lastGeneration == fleet.gen ==> achieved == c
      ensures !ok ==> lastControls == old(lastControls)
      ensures ok <==>
                && healthy
                && Resyncs(old(fleet.gen) + sample.restarts, old(lastControls), old(lastGeneration), set_, step)
                && ownSet.ok && ownStep.ok && get.ok
      ensures healthy
              && Resyncs(old(fleet.gen) + sample.restarts, old(lastControls), old(lastGeneration), set_, step) ==>
                lastGeneration == old(fleet.gen) + sample.restarts
      ensures !healthy || Quiet([sample, set_, step, ownSet, ownStep, get]) ==> fleet.gen == old(fleet.gen)
      ensures healthy && old(lastGeneration) == old(fleet.gen) == fleet.gen ==>
                fleet.held == if Reached(ownSet) then c else old(fleet.held)
      // Without a restart, a failed apply costs the setpoint in force exactly when it put another there.
      ensures !ok && healthy && old(InForce()) && fleet.gen == old(fleet.gen) ==>
                (InForce() <==> !Reached(ownSet) || c == lastControls.value)
    {
      achieved := TEMPLATE;
      if !healthy { return false, achieved; }
      ghost var sampled;
      ok, sampled := Resync(sample, set_, step);
      if !ok { return; }
      ok, achieved := Command(c, ownSet, ownStep, get);
    }

    /** The part of ApplySetpoint after the resync: write, step, read back, and only then remember. */
    method Command(c: Setpoint, ownSet: Call, ownStep: Call, get: Call) returns (ok: bool, achieved: Setpoint)
      requires Survives()
      modifies this`lastControls, this`unsettled, fleet
      ensures Survives() && old(fleet.trace) <= fleet.trace
      ensures ok == (ownSet.ok && ownStep.ok && get.ok)
      ensures ok ==> fleet.trace == old(fleet.trace) + [SetOp(c), StepOp, GetOp]
      ensures ok ==> lastControls == Some(c) && !unsettled && achieved == fleet.held
      ensures ok && lastGeneration == fleet.gen ==> achieved == c
      ensures !ok ==> lastControls == old(lastControls)
      ensures fleet.gen == old(fleet.gen) + ownSet.restarts +
                (if !ownSet.ok then 0 else ownStep.restarts + (if ownStep.ok then get.restarts else 0))
      ensures fleet.gen == old(fleet.gen) ==> fleet.held == if Reached(ownSet) then c else old(fleet.held)
      ensures !ok ==> unsettled == if Reached(ownSet) then lastControls != Some(c) else old(unsettled)
    {
      achieved := TEMPLATE;
      ok := fleet.Set(c, ownSet);
      if Reached(ownSet) { unsettled := lastControls != Some(c); }
      if !ok { return; }
      ok := fleet.StepTo(ownStep);
      if !ok { return; }
      ok, achieved := fleet.Get(get);
      if !ok { return; }
      lastControls := Some(c);
      unsettled := false;
    }
  }

  predicate Quiet(calls: seq<Call>) {
    forall c :: c in calls ==> c.restarts == 0
  }

  /** The exception is real: an apply whose Set is applied but reported as failed leaves a current
      device whose model holds something other than the remembered setpoint. */
  method FailedApplyDiverges(first: Setpoint, second: Setpoint) returns (d: FleetDevice)
    requires first != second
    ensures d.Survives() && d.unsettled
    ensures d.lastControls == Some(first) && d.lastGeneration == d.fleet.gen && d.fleet.held == second
  {
    var fine, lost := Call(0, true, true), Call(0, false, true);
    var fleet := new Fleet(1);
    d := new FleetDevice(fleet);
    var ok, achieved := d.ApplySetpoint(true, first, fine, fine, fine, fine, fine, fine);
    ok, achieved := d.ApplySetpoint(true, second, fine, fine, fine, lost, fine, fine);
  }
}
