/** The replay backend and the output limits it applies
    (internal/inverter/device/replay.go, internal/inverter/simulator.go). */
module Replay {
  import opened Common

  const RATED_VA: real := 11100.0

  /** The square root is a parameter: the results below hold for any function that squares back. */
  ghost predicate IsRoot(root: real -> real) {
    forall x :: x >= 0.0 ==> root(x) >= 0.0 && root(x) * root(x) == x
  }

  /** EnforceVALimit. The comparison of s with the rating is made on squares; where the source takes
      the root of a negative number and gets a NaN, the last branch is taken. */
  function EnforceVALimit(p: real, q: real, root: real -> real): (real, real) {
    if p * p + q * q <= RATED_VA * RATED_VA then (p, q)
    else if p * p <= RATED_VA * RATED_VA then
      var maxQ := root(RATED_VA * RATED_VA - p * p);
      (p, if q > 0.0 then MinR(q, maxQ) else MaxR(q, -maxQ))
    else (RATED_VA, 0.0)
  }

  lemma DifferenceOfSquares(a: real, b: real)
    ensures (a - b) * (a + b) == a * a - b * b
  {
  }

  lemma SmallerSquare(a: real, b: real)
    requires 0.0 <= a <= b
    ensures a * a <= b * b
    ensures a < b ==> a * a < b * b
  {
    DifferenceOfSquares(b, a);
    if a < b { ProductPositive(b - a, b + a); }
  }

  lemma ProductPositive(a: real, b: real)
    requires a > 0.0 && b > 0.0
    ensures a * b > 0.0
  {
  }

  lemma SquareOrder(p: real, limit: real)
    requires limit >= 0.0
    ensures p * p <= limit * limit <==> AbsR(p) <= limit
  {
    if AbsR(p) <= limit {
      SmallerSquare(AbsR(p), limit);
    } else {
      SmallerSquare(limit, AbsR(p));
    }
  }

  /** Main result: the limiter keeps the active power exactly when it is within the rating; beyond it,
      even a charging power comes out as full discharge. */
  lemma ActivePowerSurvivesExactly(p: real, q: real, root: real -> real)
    ensures EnforceVALimit(p, q, root).0 == (if AbsR(p) <= RATED_VA then p else RATED_VA)
    ensures EnforceVALimit(p, q, root).0 == p <==> AbsR(p) <= RATED_VA
  {
    SquareOrder(p, RATED_VA);
    assert q * q >= 0.0;
  }

  /** Main result: the output never exceeds the apparent power rating, and the reactive power is only
      ever reduced, never reversed. */
  lemma ApparentPowerIsLimited(p: real, q: real, root: real -> real)
    requires IsRoot(root)
    ensures var r := EnforceVALimit(p, q, root);
            && r.0 * r.0 + r.1 * r.1 <= RATED_VA * RATED_VA
            && AbsR(r.1) <= AbsR(q) && r.1 * q >= 0.0
            && (r == (p, q) || r.0 * r.0 + r.1 * r.1 == RATED_VA * RATED_VA)
            && (r == (p, q) <==> p * p + q * q <= RATED_VA * RATED_VA || (p, q) == (RATED_VA, 0.0))
  {
    if p * p + q * q > RATED_VA * RATED_VA && p * p <= RATED_VA * RATED_VA {
      var maxQ := root(RATED_VA * RATED_VA - p * p);
      var q' := EnforceVALimit(p, q, root).1;
      assert AbsR(q') <= maxQ;
      SquareOrder(q', maxQ);
    }
  }

  datatype Controls = Controls(activePowerW: real, reactivePowerVAr: real, connected: bool, energized: bool)

  /** The power part of ComputeOutput. */
  function ComputeOutput(c: Controls, root: real -> real): (real, real) {
    var on := c.connected && c.energized;
    EnforceVALimit(if on then c.activePowerW else 0.0, if on then c.reactivePowerVAr else 0.0, root)
  }

  /** A battery within its rating, unless it is empty or full. */
  function BatteryPower(command: real, ratedW: real, soc: real): real {
    var p := MaxR(-ratedW, MinR(command, ratedW));
    if (p > 0.0 && soc <= 0.0) || (p < 0.0 && soc >= 1.0) then 0.0 else p
  }

  function Charge(soc: real, lastP: real, hours: real, capacityWh: real): real
    requires capacityWh > 0.0
  {
    soc - lastP * hours / capacityWh
  }

  function IntegratedSOC(soc: real, lastT: Option<real>, lastP: real, capacityWh: real, now: real): real
    requires capacityWh > 0.0
  {
    if lastT.None? then soc
    else
      var hours := (now - lastT.value) / 3600.0;
      if hours <= 0.0 then soc else MaxR(0.0, MinR(1.0, Charge(soc, lastP, hours, capacityWh)))
  }

  /** Main result: the charge books what was moved. Unless it is clamped the change of stored energy is what was
      charged, discharging counts against it, and it never goes the other way. */
  lemma ChargeBooksEnergy(soc: real, lastT: real, lastP: real, capacityWh: real, now: real)
    requires capacityWh > 0.0 && 0.0 <= soc <= 1.0 && lastT < now
    ensures var after := IntegratedSOC(soc, Some(lastT), lastP, capacityWh, now);
            && 0.0 <= after <= 1.0
            && (0.0 < after < 1.0 ==> capacityWh * (soc - after) == lastP * ((now - lastT) / 3600.0))
            && (lastP >= 0.0 ==> after <= soc) && (lastP <= 0.0 ==> after >= soc)
            && (after == 0.0 ==> capacityWh * soc <= lastP * ((now - lastT) / 3600.0))
            && (after == 1.0 ==> capacityWh * (soc - 1.0) >= lastP * ((now - lastT) / 3600.0))
  {
    var hours := (now - lastT) / 3600.0;
    var spent := lastP * hours / capacityWh;
    assert hours > 0.0;
    assert spent * capacityWh == lastP * hours;
    assert lastP >= 0.0 ==> lastP * hours >= 0.0;
    assert lastP <= 0.0 ==> lastP * hours <= 0.0;
    ScaledOrder(spent, 0.0, capacityWh);
    ScaledOrder(spent, soc, capacityWh);
    ScaledOrder(spent, soc - 1.0, capacityWh);
    assert capacityWh * (soc - (soc - spent)) == spent * capacityWh;
  }

  lemma ScaledOrder(a: real, b: real, c: real)
    requires c > 0.0
    ensures a <= b <==> a * c <= b * c
    ensures a * c == c * a && b * c == c * b
  {
    if a < b { ProductPositive(b - a, c); assert (b - a) * c == b * c - a * c; }
    if a > b { ProductPositive(a - b, c); assert (a - b) * c == a * c - b * c; }
  }

  datatype DeviceKind = PV | Battery

  class Device {
    const kind: DeviceKind
    const ratedW: real
    const capacityWh: real
    var soc: real
    var lastT: Option<real>
    var lastP: real

    /** What NewReplay checks. */
    constructor (kind: DeviceKind, ratedW: real, capacityWh: real, initialSOC: real)
      requires ratedW > 0.0 && (kind.Battery? ==> capacityWh > 0.0 && 0.0 <= initialSOC <= 1.0)
      ensures Valid() && this.kind == kind && this.ratedW == ratedW && this.capacityWh == capacityWh
      ensures soc == initialSOC && lastT == None
    {
      this.kind, this.ratedW, this.capacityWh := kind, ratedW, capacityWh;
      soc, lastT, lastP := initialSOC, None, 0.0;
    }

    ghost predicate Valid()
      reads this
    {
      ratedW > 0.0 && (kind.Battery? ==> capacityWh > 0.0 && 0.0 <= soc <= 1.0)
    }

    /** `baseline` is the recorded power at now. */
    method ApplySetpoint(now: real, baseline: real, controls: Controls, root: real -> real) returns (p: real, q: real)
      requires Valid()
      modifies this
      ensures Valid()
      ensures kind.PV? ==>
                var power := MaxR(0.0, MinR(controls.activePowerW, baseline));
                (p, q) == ComputeOutput(controls.(activePowerW := power), root)
      ensures kind.PV? ==> soc == old(soc) && lastT == old(lastT) && lastP == old(lastP)
      ensures kind.Battery? ==> soc == IntegratedSOC(old(soc), old(lastT), old(lastP), capacityWh, now)
      ensures kind.Battery? ==>
          (p, q) == ComputeOutput(controls.(activePowerW := BatteryPower(controls.activePowerW, ratedW, soc)), root)
      ensures kind.Battery? ==> lastT == Some(now) && lastP == p
    {
      var power := controls.activePowerW;
      match kind {
        case PV => power := MaxR(0.0, MinR(power, baseline));
        case Battery =>
          Integrate(now);
          power := MaxR(-ratedW, MinR(power, ratedW));
          if (power > 0.0 && soc <= 0.0) || (power < 0.0 && soc >= 1.0) { power := 0.0; }
      }
      var out := ComputeOutput(controls.(activePowerW := power), root);
      p, q := out.0, out.1;
      if kind == Battery { lastT, lastP := Some(now), p; }
    }

    method Integrate(now: real)
      requires kind.Battery? && Valid()
      modifies this`soc
      ensures soc == IntegratedSOC(old(soc), lastT, lastP, capacityWh, now)
      ensures 0.0 <= soc <= 1.0
    {
      if lastT.None? { return; }
      var hours := (now - lastT.value) / 3600.0;
      if hours <= 0.0 { return; }
      soc := Charge(soc, lastP, hours, capacityWh);
      soc := MaxR(0.0, MinR(1.0, soc));
    }
  }

  /** Main result: a battery never moves more than commanded in the commanded direction; rated within
      the inverter's apparent power it never moves against the command either. */
  lemma BatteryObeys(c: Controls, ratedW: real, soc: real, root: real -> real)
    requires ratedW > 0.0
    ensures var p := ComputeOutput(c.(activePowerW := BatteryPower(c.activePowerW, ratedW, soc)), root).0;
            && (c.activePowerW >= 0.0 ==> 0.0 <= p <= c.activePowerW)
            && (c.activePowerW <= 0.0 ==> c.activePowerW <= p)
            && (c.activePowerW <= 0.0 && ratedW <= RATED_VA ==> p <= 0.0)
  {
    var b := BatteryPower(c.activePowerW, ratedW, soc);
    ActivePowerSurvivesExactly(if c.connected && c.energized then b else 0.0,
                               if c.connected && c.energized then c.reactivePowerVAr else 0.0, root);
  }

  /** Main result: a battery that runs and is not empty or full for it gives its command, cut to its rating, or
      full discharge where that is beyond the inverter; any other gives nothing. */
  lemma AchievedExactly(c: Controls, ratedW: real, soc: real, root: real -> real)
    requires ratedW > 0.0
    ensures var b := if c.activePowerW > ratedW then ratedW else if c.activePowerW < -ratedW then -ratedW
                     else c.activePowerW;
            ComputeOutput(c.(activePowerW := BatteryPower(c.activePowerW, ratedW, soc)), root).0
            == if !c.connected || !c.energized || (b > 0.0 && soc <= 0.0) || (b < 0.0 && soc >= 1.0) then 0.0
               else if -RATED_VA <= b <= RATED_VA then b else RATED_VA
  {
    var b := BatteryPower(c.activePowerW, ratedW, soc);
    ActivePowerSurvivesExactly(if c.connected && c.energized then b else 0.0,
                               if c.connected && c.energized then c.reactivePowerVAr else 0.0, root);
  }

  /** Main result: a battery delivers its command exactly when that is zero, or the battery is running, within
      its own and the inverter's rating, and not empty or full for it. */
  lemma DeliversExactly(c: Controls, ratedW: real, soc: real, root: real -> real)
    requires ratedW > 0.0
    ensures ComputeOutput(c.(activePowerW := BatteryPower(c.activePowerW, ratedW, soc)), root).0 == c.activePowerW <==>
              Willing(c, ratedW, soc, c.activePowerW)
  {
    var b := BatteryPower(c.activePowerW, ratedW, soc);
    ActivePowerSurvivesExactly(if c.connected && c.energized then b else 0.0,
                               if c.connected && c.energized then c.reactivePowerVAr else 0.0, root);
  }

  predicate Willing(c: Controls, ratedW: real, soc: real, powerW: real) {
    || powerW == 0.0
    || (&& c.connected && c.energized && AbsR(powerW) <= ratedW && AbsR(powerW) <= RATED_VA
        && (powerW > 0.0 ==> soc > 0.0) && (powerW < 0.0 ==> soc < 1.0))
  }

  /** A battery rated above the inverter discharges when told to charge, exactly when the clipped
      command is beyond the apparent power rating and the battery is running and not full. */
  lemma ChargingFlipsExactly(c: Controls, ratedW: real, soc: real, root: real -> real)
    requires ratedW > 0.0 && c.activePowerW < 0.0
    ensures ComputeOutput(c.(activePowerW := BatteryPower(c.activePowerW, ratedW, soc)), root).0 > 0.0 <==>
            c.connected && c.energized && soc < 1.0 && c.activePowerW < -RATED_VA && ratedW > RATED_VA
  {
    var b := BatteryPower(c.activePowerW, ratedW, soc);
    ActivePowerSurvivesExactly(if c.connected && c.energized then b else 0.0,
                               if c.connected && c.energized then c.reactivePowerVAr else 0.0, root);
  }
}
