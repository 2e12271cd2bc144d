/** The decimal encoders of ActivePower and the request they build
    (cmd/inverterclient/reservation_logic.go and managed_status.go). */
module Encoding {
  import opened Common
  import opened Answers

  const MAX_INT16 := 32767
  const MIN_INT16 := -32768
  const MAX_INT48 := 140737488355327
  const MAX_INT8 := 127
  const MAX_UINT32 := 4294967295
  const MAX_START_IN_S := 2147483647

  /** math.Round: to the nearest integer, halves away from zero. */
  function Round(w: real): (n: int)
    ensures AbsR(n as real - w) <= 0.5
    ensures AbsR(n as real - w) == 0.5 ==> AbsR(w) < AbsR(n as real)
    ensures w >= 0.0 ==> n >= 0
    ensures w <= 0.0 ==> n <= 0
  {
    if w >= 0.0 then (w + 0.5).Floor else -((0.5 - w).Floor)
  }

  /** math.Round(v / 10) of a whole v. */
  function RoundTenth(v: int): int {
    if v >= 0 then (v + 5) / 10 else -((5 - v) / 10)
  }

  /** Which is the source's rounding of a tenth. */
  lemma RoundTenthIsRound(v: int)
    ensures RoundTenth(v) == Round(v as real / 10.0)
  {
  }

  function Abs(n: int): nat { if n < 0 then -n else n }

  // ---------------------------------------------------------------- activePowerOf

  /** The value after k roundings by ten. */
  function Rounded(v: int, k: nat): int
    decreases k
  {
    if k == 0 then v else RoundTenth(Rounded(v, k - 1))
  }

  predicate FitsInt16(v: int) {
    MIN_INT16 <= v <= MAX_INT16
  }

  /** The most a whole number may be so that k roundings bring it to at most `top`:
      top followed by k fours. */
  function Ceiling(top: int, k: nat): int
    decreases k
  {
    if k == 0 then top else Ceiling(10 * top + 4, k - 1)
  }

  /** Rounding k times lands at or below `top` exactly for inputs up to the ceiling. */
  lemma {:induction false} RoundedBelow(v: int, top: int, k: nat)
    requires top >= 0
    ensures Rounded(v, k) <= top <==> v <= Ceiling(top, k)
    ensures Rounded(v, k) >= -top <==> v >= -Ceiling(top, k)
    decreases k
  {
    if k > 0 {
      RoundedBelow(v, 10 * top + 4, k - 1);
    }
  }

  /** activePowerOf: rounds by ten until the value fits 16 bits or the multiplier cannot grow. */
  method ActivePowerOf(w: real) returns (value: int, mult: nat)
    ensures mult <= 127
    ensures value == Rounded(Round(w), mult)
    ensures forall k :: 0 <= k < mult ==> !(-32768 <= Rounded(Round(w), k) <= 32767)
    ensures -32768 <= value <= 32767 || mult == 127
  {
    value, mult := Round(w), 0;
    while (value > MAX_INT16 || value < MIN_INT16) && mult < MAX_INT8
      invariant mult <= MAX_INT8
      invariant value == Rounded(Round(w), mult)
      invariant forall k :: 0 <= k < mult ==> !FitsInt16(Rounded(Round(w), k))
      decreases MAX_INT8 - mult
    {
      value := RoundTenth(value);
      mult := mult + 1;
    }
  }

  /** Main result: with multipliers up to n the loop ends on a 16-bit value exactly when the rounded
      watts are at most 32767 (below zero, 32768) followed by n fours; the code's n is 127. */
  lemma FitsExactlyBelowCeiling(v: int, n: nat)
    ensures (exists k: nat :: k <= n && FitsInt16(Rounded(v, k))) <==> -Ceiling(32768, n) <= v <= Ceiling(32767, n)
  {
    RoundedBelow(v, MAX_INT16, n);
    RoundedBelow(v, -MIN_INT16, n);
    if exists k: nat :: k <= n && FitsInt16(Rounded(v, k)) {
      var k: nat :| k <= n && FitsInt16(Rounded(v, k));
      StaysFitting(v, k, n);
    }
    assert FitsInt16(Rounded(v, n)) <==> -Ceiling(-MIN_INT16, n) <= v <= Ceiling(MAX_INT16, n);
  }

  lemma {:induction false} StaysFitting(v: int, k: nat, n: nat)
    requires k <= n && FitsInt16(Rounded(v, k))
    ensures FitsInt16(Rounded(v, n))
    decreases n - k
  {
    if k < n { StaysFitting(v, k + 1, n); }
  }

  /** v rounded k times, read back at its scale. */
  ghost function ReadBack(v: int, k: nat): real {
    Times(Rounded(v, k), k)
  }

  /** Main result: however often it rounds, the encoding stays within 5/9 of its last digit. */
  lemma RoundingError(w: real, k: nat)
    ensures 9.0 * AbsR(Scaled(Quantity(Rounded(Round(w), k), k)) - w) < 5.0 * Pow10(k) as real
  {
    assert ReadBack(Round(w), k) == Scaled(Quantity(Rounded(Round(w), k), k));
    ErrorBound(w, Round(w), k);
  }

  lemma {:induction false} ErrorBound(w: real, v: int, k: nat)
    requires AbsR(v as real - w) <= 0.5
    ensures 9.0 * AbsR(ReadBack(v, k) - w) <= 5.0 * Pow10(k) as real - 0.5
    decreases k
  {
    if k > 0 {
      ErrorBound(w, v, k - 1);
      StepDistance(Rounded(v, k - 1), k - 1);
    }
  }

  /** One rounding moves the value read back by at most half of its last digit. */
  lemma StepDistance(v: int, k: nat)
    ensures AbsR(Times(RoundTenth(v), k + 1) - Times(v, k)) <= 5.0 * Pow10(k) as real
  {
    TimesShift(RoundTenth(v), k);
    TimesDistance(10 * RoundTenth(v), v, k);
  }

  lemma {:induction false} TimesShift(v: int, k: nat)
    ensures Times(v, k + 1) == Times(10 * v, k)
    decreases k
  {
    if k > 0 { TimesShift(v, k - 1); }
  }

  lemma {:induction false} TimesDistance(a: int, b: int, k: nat)
    requires -5 <= a - b <= 5
    ensures AbsR(Times(a, k) - Times(b, k)) <= 5.0 * Pow10(k) as real
    decreases k
  {
    if k > 0 { TimesDistance(a, b, k - 1); }
  }

  // ---------------------------------------------------------------- activePower

  /** activePower: exact or refused. Go's % and / agree with division by ten here, because the
      quotient is only taken when the remainder is zero. */
  method ActivePower(w: real) returns (r: Option<Quantity>)
    ensures r == ExactPower(Round(w))
  {
    var n, mult := Round(w), 0;
    if n > 1000000000000 || n < -1000000000000 { return None; }
    while n > MAX_INT16 || n < -MAX_INT16
      invariant mult >= 0
      invariant ExactPower(Round(w)) == Shrink(n, mult)
      decreases Abs(n)
    {
      if n % 10 != 0 { return None; }
      n, mult := n / 10, mult + 1;
    }
    return Some(Quantity(n, mult));
  }

  function Shrink(n: int, mult: nat): Option<Quantity>
    decreases Abs(n)
  {
    if -MAX_INT16 <= n <= MAX_INT16 then Some(Quantity(n, mult))
    else if n % 10 != 0 then None
    else Shrink(n / 10, mult + 1)
  }

  function ExactPower(v: int): Option<Quantity> {
    if v > 1000000000000 || v < -1000000000000 then None else Shrink(v, 0)
  }

  ghost predicate Representable(v: int, value: int, k: nat) {
    -MAX_INT16 <= value <= MAX_INT16 && v == value * Pow10(k)
  }

  ghost predicate Carried(v: int) {
    exists value, k: nat :: Representable(v, value, k)
  }

  lemma {:induction false} TimesIsProduct(value: int, k: nat)
    ensures Times(value, k) == (value * Pow10(k)) as real
    decreases k
  {
    if k > 0 {
      TimesIsProduct(value, k - 1);
      assert value * Pow10(k) == 10 * (value * Pow10(k - 1));
    }
  }

  /** Main result: the exact encoder succeeds exactly for a magnitude up to 1e12 that some multiplier
      carries without rounding, and then it is exact. */
  lemma ExactPowerIsExact(v: int)
    ensures ExactPower(v).Some? <==> Abs(v) <= 1000000000000 && Carried(v)
    ensures ExactPower(v).Some? ==>
              var q := ExactPower(v).value; q.multiplier >= 0 && Representable(v, q.value, q.multiplier)
  {
    ShrinkExact(v, 0);
    if Abs(v) <= 1000000000000 && Carried(v) {
      var value, k: nat :| Representable(v, value, k);
      ShrinkSucceeds(v, value, k, 0);
    }
  }

  lemma {:induction false} ShrinkExact(n: int, mult: nat)
    ensures Shrink(n, mult).Some? ==>
              var q := Shrink(n, mult).value;
              q.multiplier >= mult && Representable(n, q.value, q.multiplier - mult)
    decreases Abs(n)
  {
    if !(-MAX_INT16 <= n <= MAX_INT16) && n % 10 == 0 {
      ShrinkExact(n / 10, mult + 1);
      if Shrink(n, mult).Some? {
        var q := Shrink(n, mult).value;
        assert n == 10 * (n / 10);
        assert Pow10(q.multiplier - mult) == 10 * Pow10(q.multiplier - mult - 1);
        assert q.value * Pow10(q.multiplier - mult) == 10 * (q.value * Pow10(q.multiplier - mult - 1));
      }
    }
  }

  lemma {:induction false} ShrinkSucceeds(n: int, value: int, k: nat, mult: nat)
    requires Representable(n, value, k)
    ensures Shrink(n, mult).Some?
    decreases k
  {
    if !(-MAX_INT16 <= n <= MAX_INT16) {
      assert k > 0;
      assert n == 10 * (value * Pow10(k - 1));
      ShrinkSucceeds(value * Pow10(k - 1), value, k - 1, mult + 1);
    }
  }

  /** Main result: whenever the exact encoder succeeds the rounding one gives the same quantity. */
  lemma EncodersAgree(v: int)
    requires ExactPower(v).Some?
    ensures var q := ExactPower(v).value;
            && q.multiplier >= 0
            && q.value == Rounded(v, q.multiplier) && FitsInt16(q.value)
            && forall k :: 0 <= k < q.multiplier ==> !FitsInt16(Rounded(v, k))
  {
    ShrinkAgrees(v, v, 0);
  }

  lemma {:induction false} ShrinkAgrees(v: int, n: int, mult: nat)
    requires n == Rounded(v, mult) && Shrink(n, mult).Some?
    requires forall k :: 0 <= k < mult ==> !FitsInt16(Rounded(v, k))
    ensures var q := Shrink(n, mult).value;
            && q.multiplier >= mult
            && q.value == Rounded(v, q.multiplier) && FitsInt16(q.value)
            && forall k :: 0 <= k < q.multiplier ==> !FitsInt16(Rounded(v, k))
    decreases Abs(n)
  {
    if !(-MAX_INT16 <= n <= MAX_INT16) {
      assert n != MIN_INT16;
      assert Rounded(v, mult + 1) == n / 10;
      ShrinkAgrees(v, n / 10, mult + 1);
    }
  }

  // ---------------------------------------------------------------- the request

  datatype Settings = Settings(energyWh: real, powerW: real, startInS: int, durationS: int, minLeadS: int, graceS: int)

  datatype RequestStatus = Requested | RequestCancelled

  /** A FlowReservationRequest. */
  datatype Request = Request(
    mrid: string,
    creationTime: int,
    energy: Quantity,
    power: Quantity,
    window: Window,
    status: RequestStatus,
    statusTime: int)

  function ExactEnergy(wh: real): Option<Quantity> {
    var v := Round(wh);
    if v > MAX_INT48 || v < -MAX_INT48 then None else Some(Quantity(v, 0))
  }

  /** The checks that come before any encoding. */
  predicate Sensible(s: Settings) {
    && s.energyWh != 0.0
    && s.powerW > 0.0
    && 0 < s.durationS <= MAX_UINT32
    && 0 < s.graceS < s.durationS
    && s.minLeadS < s.startInS <= MAX_START_IN_S
  }

  function BuildFlowRequest(s: Settings, now: int, mrid: string): Option<Request> {
    if !Sensible(s) then None
    else
      var energy := ExactEnergy(s.energyWh);
      if energy.None? then None
      else
        var power := ExactPower(Round(Direction(s.energyWh) * s.powerW));
        if power.None? then None
        else Some(Request(mrid, now, energy.value, power.value, Window(now + s.startInS, s.durationS), Requested, now))
  }

  function FactsOf(req: Request): Facts {
    Facts(req.window.start as real, req.window.start as real + req.window.duration as real,
          Scaled(req.energy), AbsR(Scaled(req.power)))
  }

  lemma RoundIsOdd(w: real)
    ensures Round(-w) == -Round(w)
  {
  }

  /** Main result: what the client judges answers against is what the operator asked for, rounded to
      whole watts and watt-hours, over the requested window. */
  lemma RequestRoundTrip(s: Settings, now: int, mrid: string)
    requires BuildFlowRequest(s, now, mrid).Some?
    ensures var f := FactsOf(BuildFlowRequest(s, now, mrid).value);
            && f.energyWh == Round(s.energyWh) as real
            && f.powerW == Round(s.powerW) as real
            && f.start == (now + s.startInS) as real
            && f.end == (now + s.startInS + s.durationS) as real
            && f.start < f.end
    // The power is signed like the energy, and the request is a new one, made now.
    ensures var r := BuildFlowRequest(s, now, mrid).value;
            && Scaled(r.power) == (if s.energyWh < 0.0 then -Round(s.powerW) as real else Round(s.powerW) as real)
            && r.mrid == mrid && r.creationTime == now && r.status == Requested && r.statusTime == now
  {
    PowerReadBack(s);
  }

  lemma PowerReadBack(s: Settings)
    requires s.powerW > 0.0 && ExactPower(Round(Direction(s.energyWh) * s.powerW)).Some?
    ensures var p := Scaled(ExactPower(Round(Direction(s.energyWh) * s.powerW)).value);
            && AbsR(p) == Round(s.powerW) as real
            && p == if s.energyWh < 0.0 then -Round(s.powerW) as real else Round(s.powerW) as real
  {
    var signed := Round(Direction(s.energyWh) * s.powerW);
    SignedPower(s);
    ExactPowerIsExact(signed);
    TimesIsProduct(ExactPower(signed).value.value, ExactPower(signed).value.multiplier);
  }

  lemma SignedPower(s: Settings)
    requires s.powerW > 0.0
    ensures var signed := Round(Direction(s.energyWh) * s.powerW);
            signed == (if s.energyWh < 0.0 then -Round(s.powerW) else Round(s.powerW)) && Round(s.powerW) >= 0
  {
    RoundIsOdd(s.powerW);
    assert -1.0 * s.powerW == -s.powerW && 1.0 * s.powerW == s.powerW;
  }

  /** The request keeps the operator's direction exactly when it does not ask to discharge less than
      half a watt-hour: such an energy rounds to zero, which reads as charging. */
  lemma DirectionSurvivesExactly(s: Settings, now: int, mrid: string)
    requires BuildFlowRequest(s, now, mrid).Some?
    ensures Direction(FactsOf(BuildFlowRequest(s, now, mrid).value).energyWh) == Direction(s.energyWh) <==>
            !(-0.5 < s.energyWh < 0.0)
  {
    RequestRoundTrip(s, now, mrid);
  }

  /** Main result: exactly which settings are refused. */
  lemma RefusedExactly(s: Settings, now: int, mrid: string)
    ensures BuildFlowRequest(s, now, mrid).Some? <==>
            && s.energyWh != 0.0 && s.powerW > 0.0
            && 0 < s.durationS <= 4294967295 && 0 < s.graceS < s.durationS
            && s.minLeadS < s.startInS <= 2147483647
            && Abs(Round(s.energyWh)) <= 140737488355327
            && Round(s.powerW) <= 1000000000000
            && Carried(Round(s.powerW))
  {
    RefusedBySense(s, now, mrid);
  }

  lemma RefusedBySense(s: Settings, now: int, mrid: string)
    ensures BuildFlowRequest(s, now, mrid).Some? <==>
            && Sensible(s)
            && Abs(Round(s.energyWh)) <= MAX_INT48
            && Round(s.powerW) <= 1000000000000
            && Carried(Round(s.powerW))
  {
    if Sensible(s) {
      var signed := Round(Direction(s.energyWh) * s.powerW);
      SignedPower(s);
      ExactPowerIsExact(signed);
      CarriedIsSymmetric(Round(s.powerW));
      CarriedIsSymmetric(signed);
    }
  }

  lemma CarriedIsSymmetric(v: int)
    ensures Carried(v) ==> Carried(-v)
  {
    if Carried(v) {
      var value, k: nat :| Representable(v, value, k);
      assert Representable(-v, -value, k);
    }
  }
}
