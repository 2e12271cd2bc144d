/** One tick of the managed fleet: plan, apply to every device, record what was achieved
    (cmd/inverterclient/managed.go). */
module FleetTick {
  import opened Common
  import opened Answers
  import opened PowerSplit
  import opened Dispatch
  import opened Replay

  class ManagedDevice {
    const lfdi: string
    const dev: Device
    var down: bool

    constructor (lfdi: string, dev: Device)
      ensures this.lfdi == lfdi && this.dev == dev && !down
    {
      this.lfdi, this.dev, down := lfdi, dev, false;
    }
  }

  /** What one device meets in one tick: whether its reads and writes succeed, the controls its
      session asks for, the recorded baseline, and whether a control event is driving it. */
  datatype Weather = Weather(readOK: bool, applyOK: bool, at: real, baseline: real, controls: Controls, driven: bool)

  /** The controls one device is given. */
  function Applied(d: ManagedDevice, plan: map<string, real>, w: Weather): Controls {
    if d.lfdi in plan then w.controls.(activePowerW := plan[d.lfdi]) else w.controls
  }

  /** What a battery with this charge makes of them. */
  function Achieved(c: Controls, ratedW: real, soc: real, root: real -> real): (real, real) {
    ComputeOutput(c.(activePowerW := BatteryPower(c.activePowerW, ratedW, soc)), root)
  }

  /** A battery that is read, set and able to follow its order reports the order. */
  ghost predicate Delivers(d: ManagedDevice, plan: map<string, real>, w: Weather, chargingW: real)
    reads d.dev
  {
    Able(d, plan, w) ==> chargingW == -plan[d.lfdi]
  }

  ghost predicate Able(d: ManagedDevice, plan: map<string, real>, w: Weather)
    reads d.dev
  {
    && d.dev.kind.Battery? && d.lfdi in plan && w.readOK && w.applyOK
    && Willing(w.controls, d.dev.ratedW, d.dev.soc, plan[d.lfdi])
  }

  /** A battery the plan covers. */
  predicate Planning(d: ManagedDevice, w: Weather) {
    d.dev.kind.Battery? && !w.driven
  }

  /** What applying the plan to one device may report, charging positive. */
  predicate Heeds(d: ManagedDevice, plan: map<string, real>, chargingW: real) {
    && (d.dev.kind.PV? ==> chargingW == 0.0)
    && (d.lfdi in plan ==>
          var ordered := ChargingToDER(plan[d.lfdi]);
          && (ordered <= 0.0 ==> ordered <= chargingW <= 0.0)
          && (ordered >= 0.0 ==> chargingW <= ordered)
          && (ordered >= 0.0 && d.dev.ratedW <= RATED_VA ==> 0.0 <= chargingW))
  }

  /** What batteries() takes down of one device. */
  ghost function MemberOf(d: ManagedDevice): Member
    reads d, d.dev
  {
    Member(d.lfdi, d.dev.ratedW, !d.down, d.dev.soc, true)
  }

  function Sum(xs: seq<real>): real {
    if xs == [] then 0.0 else Sum(xs[..|xs| - 1]) + xs[|xs| - 1]
  }

  /** The part of a tick's output that comes from the covered among the first n devices. */
  function PlannedPart(devices: seq<ManagedDevice>, weather: seq<Weather>, reported: seq<real>, n: nat): real
    requires n <= |devices| == |weather| == |reported|
  {
    if n == 0 then 0.0
    else
      PlannedPart(devices, weather, reported, n - 1)
      + (if Planning(devices[n - 1], weather[n - 1]) then reported[n - 1] else 0.0)
  }

  class ManagedFleet {
    const devices: seq<ManagedDevice>
    const dispatch: Dispatcher

    constructor (devices: seq<ManagedDevice>, dispatch: Dispatcher)
      ensures this.devices == devices && this.dispatch == dispatch
    {
      this.devices, this.dispatch := devices, dispatch;
    }

    /** The configuration lists every LFDI once, and every device has a backend of its own. */
    ghost predicate Configured() {
      forall i, j :: 0 <= i < j < |devices| ==>
                       devices[i].lfdi != devices[j].lfdi && devices[i].dev != devices[j].dev
    }

    ghost predicate Valid()
      reads set d: ManagedDevice | d in devices :: d.dev
    {
      Configured() && forall d :: d in devices ==> d.dev.Valid()
    }

    ghost predicate NoneDriven(weather: seq<Weather>)
      requires |devices| == |weather|
    {
      forall i :: 0 <= i < |devices| && devices[i].dev.kind.Battery? ==> !weather[i].driven
    }

    ghost predicate AllRated() {
      forall d :: d in devices ==> d.dev.ratedW <= RATED_VA
    }

    /** The batteries the plan covers, in order, with their own rating, availability and charge. */
    method Batteries(weather: seq<Weather>) returns (members: seq<Member>, ghost seen: seq<Member>)
      requires Valid() && |weather| == |devices|
      ensures |seen| == |devices| && forall k :: 0 <= k < |devices| ==> seen[k] == MemberOf(devices[k])
      ensures members == Covered(devices, weather, seen, |devices|) && DistinctKeys(members) && Rated(members)
    {
      seen := seq(|devices|, i requires 0 <= i < |devices|
                               reads if 0 <= i < |devices| then {devices[i]} else {}
                               reads if 0 <= i < |devices| then {devices[i].dev} else {}
                               => MemberOf(devices[i]));
      members := [];
      for i := 0 to |devices|
        invariant members == Covered(devices, weather, seen, i) && Rated(members)
      {
        var d := devices[i];
        if Planning(d, weather[i]) {
          members := members + [Member(d.lfdi, d.dev.ratedW, !d.down, d.dev.soc, true)];
        }
      }
      CoveredKeys(devices, weather, seen, |devices|);
    }

    /** Applies one device's part of the tick; reports what a battery achieved, charging positive. `output` is
        what the device answered. */
    method TickDevice(d: ManagedDevice, plan: map<string, real>, w: Weather, root: real -> real)
      returns (chargingW: real, ghost output: Option<(real, real)>)
      requires d.dev.Valid()
      modifies d, d.dev
      ensures d.dev.Valid()
      ensures d.down == !(w.readOK && w.applyOK)
      ensures d.down ==> chargingW == 0.0
      ensures Heeds(d, plan, chargingW)
      ensures output.None? <==> d.down
      // A device applies its own controls, with a planned battery's power in place of theirs.
      ensures !d.down && d.dev.kind.Battery? ==>
                && d.dev.soc == IntegratedSOC(old(d.dev.soc), old(d.dev.lastT), old(d.dev.lastP), d.dev.capacityWh,
                  w.at)
                && output == Some(Achieved(Applied(d, plan, w), d.dev.ratedW, d.dev.soc, root))
                && chargingW == -output.value.0
                && (chargingW == -Applied(d, plan, w).activePowerW <==>
                      Willing(w.controls, d.dev.ratedW, d.dev.soc, Applied(d, plan, w).activePowerW))
      ensures !d.down && d.dev.kind.PV? ==>
                var power := MaxR(0.0, MinR(Applied(d, plan, w).activePowerW, w.baseline));
                output == Some(ComputeOutput(w.controls.(activePowerW := power), root))
    {
      chargingW, output := 0.0, None;
      if !w.readOK {
        d.down := true;
        return;
      }
      var controls := w.controls;
      if d.lfdi in plan {
        controls := controls.(activePowerW := plan[d.lfdi]);
      }
      if !w.applyOK {
        d.down := true;
        return;
      }
      var p, q := d.dev.ApplySetpoint(w.at, w.baseline, controls, root);
      d.down := false;
      output := Some((p, q));
      if d.dev.kind == Battery {
        BatteryObeys(controls, d.dev.ratedW, d.dev.soc, root);
        DeliversExactly(controls, d.dev.ratedW, d.dev.soc, root);
        chargingW := ChargingToDER(p);
      }
    }

    /** The loop of Tick: every device's part, and the sum of what the batteries achieved. */
    method ApplyToAll(plan: map<string, real>, weather: seq<Weather>, root: real -> real)
      returns (achieved: real, ghost reported: seq<real>)
      requires Valid() && |weather| == |devices|
      modifies set d: ManagedDevice | d in devices :: d
      modifies set d: ManagedDevice | d in devices :: d.dev
      ensures Valid() && |reported| == |devices| && achieved == Sum(reported)
      ensures forall k :: 0 <= k < |devices| ==> Heeds(devices[k], plan, reported[k])
      ensures forall k :: 0 <= k < |devices| ==> Delivers(devices[k], plan, weather[k], reported[k])
    {
      achieved, reported := 0.0, [];
      for i := 0 to |devices|
        invariant Valid() && |reported| == i && achieved == Sum(reported)
        invariant forall k :: 0 <= k < i ==> Heeds(devices[k], plan, reported[k])
        invariant forall k :: 0 <= k < i ==> Delivers(devices[k], plan, weather[k], reported[k])
      {
        assert devices[i] in devices;
        var chargingW, output := TickDevice(devices[i], plan, weather[i], root);
        achieved := achieved + chargingW;
        SumOneMore(reported, chargingW);
        reported := reported + [chargingW];
      }
    }

    /** Every planned battery is able to follow its order. */
    ghost predicate AllAble(weather: seq<Weather>, plan: map<string, real>)
      requires |weather| == |devices|
      reads set d: ManagedDevice | d in devices :: d.dev
    {
      forall k :: 0 <= k < |devices| && Planning(devices[k], weather[k]) ==> Able(devices[k], plan, weather[k])
    }

    lemma OrdersAreMet(weather: seq<Weather>, plan: map<string, real>, reported: seq<real>)
      requires |weather| == |devices| == |reported| && AllAble(weather, plan)
      requires forall k :: 0 <= k < |devices| ==> Delivers(devices[k], plan, weather[k], reported[k])
      ensures forall k :: 0 <= k < |devices| && Planning(devices[k], weather[k]) ==>
                devices[k].lfdi in plan && reported[k] == -plan[devices[k].lfdi]
    {
    }

    /** managedFleet.Tick: plan, apply to each device, record the sum. */
    method Tick(now: real, weather: seq<Weather>, root: real -> real)
      returns (achieved: real, ghost reported: seq<real>, ghost plan: map<string, real>, ghost seen: seq<Member>)
      requires Valid() && |weather| == |devices|
      modifies dispatch
      modifies set d: ManagedDevice | d in devices :: d
      modifies set d: ManagedDevice | d in devices :: d.dev
      ensures Valid() && |reported| == |devices|
      ensures dispatch.Abs() == AfterTick(old(dispatch.Abs()), now, achieved)
      ensures achieved == Sum(reported)
      ensures forall k :: 0 <= k < |devices| ==> (devices[k].dev.kind.PV? ==> reported[k] == 0.0)
      ensures Inside(old(dispatch.Abs()), now) ==>
                var target := Target(old(dispatch.Abs()), now);
                var byPlan := PlannedPart(devices, weather, reported, |devices|);
                Follows(byPlan, target) && (AllRated() ==> Forward(byPlan, target))
      ensures |seen| == |devices| && forall k :: 0 <= k < |devices| ==> seen[k] == old(MemberOf(devices[k]))
      ensures forall k :: 0 <= k < |devices| ==> InPlan(devices[k], weather[k], dispatch.terms, now, plan)
      ensures Inside(old(dispatch.Abs()), now) ==>
                ZeroOrdered(devices, weather, reported, seen, Target(old(dispatch.Abs()), now), plan)
      // When every planned battery is able to follow its order, together they give what the fleet can.
      ensures Inside(old(dispatch.Abs()), now) && AllAble(weather, plan) ==>
                PlannedPart(devices, weather, reported, |devices|)
                == Clipped(Target(old(dispatch.Abs()), now), Covered(devices, weather, seen, |devices|))
    {
      ghost var before := dispatch.Abs();
      var members;
      members, seen := Batteries(weather);
      var ordered := dispatch.Plan(now, members);
      PlanCovers(devices, weather, seen, before, now, ordered);
      plan := ordered;
      achieved, reported := ApplyToAll(ordered, weather, root);
      dispatch.Record(achieved);
      if Inside(before, now) {
        PlannedPartFollows(devices, weather, reported, seen, Target(before, now), AllRated());
        ZeroIsOrdered(devices, weather, reported, seen, Target(before, now));
        if AllAble(weather, plan) {
          OrdersAreMet(weather, plan, reported);
          PlanIsDelivered(devices, weather, reported, seen, Target(before, now));
        }
      }
    }
  }

  /** Of the first n devices as seen, the covered ones, in order. */
  function Covered(devices: seq<ManagedDevice>, weather: seq<Weather>, seen: seq<Member>, n: nat): seq<Member>
    requires n <= |devices| == |weather| == |seen|
  {
    if n == 0 then []
    else
      Covered(devices, weather, seen, n - 1)
      + (if Planning(devices[n - 1], weather[n - 1]) then [seen[n - 1]] else [])
  }

  ghost predicate KeyedByDevice(devices: seq<ManagedDevice>, seen: seq<Member>) {
    |devices| == |seen| && forall k :: 0 <= k < |devices| ==> seen[k].key == devices[k].lfdi
  }

  lemma {:induction false} CoveredMembers(devices: seq<ManagedDevice>, weather: seq<Weather>, seen: seq<Member>,
                                          n: nat)
    requires n <= |devices| == |weather| == |seen|
    ensures forall m :: m in Covered(devices, weather, seen, n) ==> m in seen[..n]
    ensures forall k :: 0 <= k < n && Planning(devices[k], weather[k]) ==> seen[k] in Covered(devices, weather, seen, n)
  {
    if n > 0 {
      CoveredMembers(devices, weather, seen, n - 1);
      assert seen[..n] == seen[..n - 1] + [seen[n - 1]];
    }
  }

  lemma CoversExactly(devices: seq<ManagedDevice>, weather: seq<Weather>, seen: seq<Member>)
    requires |devices| == |weather| && KeyedByDevice(devices, seen)
    requires forall i, j :: 0 <= i < j < |devices| ==> devices[i].lfdi != devices[j].lfdi
    ensures forall k :: 0 <= k < |devices| ==>
              ((exists m :: m in Covered(devices, weather, seen, |devices|) && m.key == devices[k].lfdi) <==>
               devices[k].dev.kind.Battery? && !weather[k].driven)
  {
    CoveredMembers(devices, weather, seen, |devices|);
    var covered := Covered(devices, weather, seen, |devices|);
    forall k | 0 <= k < |devices| && exists m :: m in covered && m.key == devices[k].lfdi
      ensures devices[k].dev.kind.Battery? && !weather[k].driven
    {
      var m :| m in covered && m.key == devices[k].lfdi;
      var j := CoveredFrom(devices, weather, seen, |devices|, m);
      assert j == k;
    }
  }

  lemma PlanCovers(devices: seq<ManagedDevice>, weather: seq<Weather>, seen: seq<Member>, d: State, now: real,
                   plan: map<string, real>)
    requires |devices| == |weather| && KeyedByDevice(devices, seen)
    requires forall i, j :: 0 <= i < j < |devices| ==> devices[i].lfdi != devices[j].lfdi
    requires var members := Covered(devices, weather, seen, |devices|);
             plan == if Inside(d, now) then Setpoints(Shares(Target(d, now), members), members) else map[]
    ensures forall k :: 0 <= k < |devices| ==> InPlan(devices[k], weather[k], d.terms, now, plan)
  {
    CoversExactly(devices, weather, seen);
  }

  /** The plan covers exactly the batteries no control drives, and only within the grant. */
  ghost predicate InPlan(d: ManagedDevice, w: Weather, terms: Option<Terms>, now: real, plan: map<string, real>) {
    d.lfdi in plan <==>
      && terms.Some? && terms.value.start <= now < terms.value.end
      && d.dev.kind.Battery? && !w.driven
  }

  lemma {:induction false} CoveredFrom(devices: seq<ManagedDevice>, weather: seq<Weather>, seen: seq<Member>, n: nat,
                                       m: Member) returns (k: nat)
    requires n <= |devices| == |weather| && KeyedByDevice(devices, seen) && m in Covered(devices, weather, seen, n)
    ensures k < n && seen[k] == m && devices[k].dev.kind.Battery? && !weather[k].driven
  {
    if m in Covered(devices, weather, seen, n - 1) {
      k := CoveredFrom(devices, weather, seen, n - 1, m);
    } else {
      k := n - 1;
    }
  }

  lemma {:induction false} CoveredKeys(devices: seq<ManagedDevice>, weather: seq<Weather>, seen: seq<Member>, n: nat)
    requires n <= |devices| == |weather| && KeyedByDevice(devices, seen)
    requires forall i, j :: 0 <= i < j < |devices| ==> devices[i].lfdi != devices[j].lfdi
    ensures DistinctKeys(Covered(devices, weather, seen, n))
  {
    if n > 0 {
      var before := Covered(devices, weather, seen, n - 1);
      CoveredKeys(devices, weather, seen, n - 1);
      CoveredMembers(devices, weather, seen, n - 1);
      forall i | 0 <= i < |before| ensures before[i].key != seen[n - 1].key {
        assert before[i] in before;
        var k :| 0 <= k < n - 1 && seen[..n - 1][k] == before[i];
        assert seen[k].key == devices[k].lfdi;
      }
    }
  }

  /** Main result: what the covered batteries report adds up to no more than the target, in its
      direction, and never against it when every rating is within the inverter's apparent power. */
  lemma PlannedPartFollows(devices: seq<ManagedDevice>, weather: seq<Weather>, reported: seq<real>,
                           seen: seq<Member>, target: real, allRated: bool)
    requires |devices| == |weather| == |reported| && KeyedByDevice(devices, seen)
    requires var members := Covered(devices, weather, seen, |devices|);
             && DistinctKeys(members) && Rated(members)
             && forall k :: 0 <= k < |devices| ==>
                  Heeds(devices[k], Setpoints(Shares(target, members), members), reported[k])
    requires allRated ==> forall d :: d in devices ==> d.dev.ratedW <= RATED_VA
    ensures var byPlan := PlannedPart(devices, weather, reported, |devices|);
            Follows(byPlan, target) && (allRated ==> Forward(byPlan, target))
  {
    var members := Covered(devices, weather, seen, |devices|);
    var shares := Shares(target, members);
    var plan := Setpoints(shares, members);
    PlanOrders(target, members);
    PartSoFar(devices, weather, reported, seen, |devices|, members, plan, shares, target, allRated);
    SplitConserves(target, members);
    ClippedBound(PlannedPart(devices, weather, reported, |devices|), target, members, allRated);
  }

  /** A covered battery is in the plan; one that is down, or full or empty for the target, is ordered zero
      and reports nothing. */
  ghost predicate ZeroOrdered(devices: seq<ManagedDevice>, weather: seq<Weather>, reported: seq<real>,
                              seen: seq<Member>, target: real, plan: map<string, real>)
    requires |devices| == |weather| == |reported| == |seen|
  {
    forall k :: 0 <= k < |devices| && Planning(devices[k], weather[k]) ==>
      && devices[k].lfdi in plan
      && (!Available(seen[k], target > 0.0) ==> plan[devices[k].lfdi] == 0.0 && reported[k] == 0.0)
  }

  /** Main result: the plan orders nothing of a battery without headroom, and gets nothing. */
  lemma ZeroIsOrdered(devices: seq<ManagedDevice>, weather: seq<Weather>, reported: seq<real>, seen: seq<Member>,
                      target: real)
    requires |devices| == |weather| == |reported| && KeyedByDevice(devices, seen)
    requires var members := Covered(devices, weather, seen, |devices|);
             && DistinctKeys(members) && Rated(members)
             && forall k :: 0 <= k < |devices| ==>
                  Heeds(devices[k], Setpoints(Shares(target, members), members), reported[k])
    ensures var members := Covered(devices, weather, seen, |devices|);
            ZeroOrdered(devices, weather, reported, seen, target, Setpoints(Shares(target, members), members))
  {
    var members := Covered(devices, weather, seen, |devices|);
    var plan := Setpoints(Shares(target, members), members);
    CoveredMembers(devices, weather, seen, |devices|);
    forall k | 0 <= k < |devices| && Planning(devices[k], weather[k])
      ensures devices[k].lfdi in plan
      ensures !Available(seen[k], target > 0.0) ==> plan[devices[k].lfdi] == 0.0 && reported[k] == 0.0
    {
      var i :| 0 <= i < |members| && members[i] == seen[k];
      SharesFit(target, members, i);
    }
  }

  lemma {:induction false} DeliveredSoFar(devices: seq<ManagedDevice>, weather: seq<Weather>, reported: seq<real>,
                                          seen: seq<Member>, n: nat, shares: map<string, real>)
    requires n <= |devices| == |weather| == |reported| && KeyedByDevice(devices, seen)
    requires forall k :: 0 <= k < n && Planning(devices[k], weather[k]) ==> reported[k] == Planned(shares, seen[k].key)
    ensures PlannedPart(devices, weather, reported, n) == PlannedTotal(shares, Covered(devices, weather, seen, n))
  {
    if n > 0 {
      var before := Covered(devices, weather, seen, n - 1);
      DeliveredSoFar(devices, weather, reported, seen, n - 1, shares);
      if Planning(devices[n - 1], weather[n - 1]) {
        OneMore(shares, before, seen[n - 1]);
      } else {
        assert Covered(devices, weather, seen, n) == before;
      }
    }
  }

  /** Main result: when every planned battery delivers its order, the planned part is the target, clipped to
      what the available batteries are rated for. */
  lemma PlanIsDelivered(devices: seq<ManagedDevice>, weather: seq<Weather>, reported: seq<real>, seen: seq<Member>,
                        target: real)
    requires |devices| == |weather| == |reported| && KeyedByDevice(devices, seen)
    requires var members := Covered(devices, weather, seen, |devices|);
             var plan := Setpoints(Shares(target, members), members);
             && DistinctKeys(members) && Rated(members)
             && forall k :: 0 <= k < |devices| && Planning(devices[k], weather[k]) ==>
                  devices[k].lfdi in plan && reported[k] == -plan[devices[k].lfdi]
    ensures PlannedPart(devices, weather, reported, |devices|)
            == Clipped(target, Covered(devices, weather, seen, |devices|))
  {
    var members := Covered(devices, weather, seen, |devices|);
    var shares := Shares(target, members);
    var plan := Setpoints(shares, members);
    forall k | 0 <= k < |devices| && Planning(devices[k], weather[k])
      ensures reported[k] == Planned(shares, seen[k].key)
    {
      assert devices[k].lfdi in plan && plan[devices[k].lfdi] == ChargingToDER(Planned(shares, devices[k].lfdi));
    }
    DeliveredSoFar(devices, weather, reported, seen, |devices|, shares);
    SplitConserves(target, members);
  }

  lemma ClippedBound(achieved: real, target: real, members: seq<Member>, allRated: bool)
    requires Rated(members) && SoFar(achieved, Clipped(target, members), target, allRated)
    ensures Follows(achieved, target) && (allRated ==> Forward(achieved, target))
  {
    CapacityIsHeadroom(members, target > 0.0);
    TotalIsNonNegative(members, target > 0.0);
  }

  /** The plan orders every member its share, and every share points the target's way. */
  ghost predicate Orders(plan: map<string, real>, shares: map<string, real>, members: seq<Member>, target: real) {
    forall m :: m in members ==>
      m.key in plan && ChargingToDER(plan[m.key]) == Planned(shares, m.key) && SameSide(Planned(shares, m.key), target)
  }

  lemma PlanOrders(target: real, members: seq<Member>)
    requires DistinctKeys(members) && Rated(members)
    ensures var shares := Shares(target, members); Orders(Setpoints(shares, members), shares, members, target)
  {
    forall m | m in members ensures SameSide(Planned(Shares(target, members), m.key), target) {
      var k :| 0 <= k < |members| && members[k] == m;
      SharesFit(target, members, k);
    }
  }

  lemma SumOneMore(xs: seq<real>, x: real)
    ensures Sum(xs + [x]) == Sum(xs) + x
  {
    assert (xs + [x])[..|xs + [x]| - 1] == xs;
  }

  lemma OneMore(shares: map<string, real>, members: seq<Member>, m: Member)
    ensures PlannedTotal(shares, members + [m]) == PlannedTotal(shares, members) + Planned(shares, m.key)
  {
    assert (members + [m])[..|members + [m]| - 1] == members;
  }

  lemma {:induction false} PartSoFar(devices: seq<ManagedDevice>, weather: seq<Weather>, reported: seq<real>,
                                     seen: seq<Member>, n: nat, all: seq<Member>, plan: map<string, real>,
                                     shares: map<string, real>, target: real, allRated: bool)
    requires n <= |devices| == |weather| == |reported| && KeyedByDevice(devices, seen)
    requires Orders(plan, shares, all, target)
    requires forall m :: m in Covered(devices, weather, seen, n) ==> m in all
    requires forall k :: 0 <= k < |devices| ==> Heeds(devices[k], plan, reported[k])
    requires allRated ==> forall d :: d in devices ==> d.dev.ratedW <= RATED_VA
    ensures SoFar(PlannedPart(devices, weather, reported, n), PlannedTotal(shares, Covered(devices, weather, seen, n)),
                  target, allRated)
  {
    if n > 0 {
      var before, members := Covered(devices, weather, seen, n - 1), Covered(devices, weather, seen, n);
      assert devices[n - 1] in devices;
      assert forall m :: m in before ==> m in members;
      PartSoFar(devices, weather, reported, seen, n - 1, all, plan, shares, target, allRated);
      if Planning(devices[n - 1], weather[n - 1]) {
        OneMore(shares, before, seen[n - 1]);
        assert seen[n - 1] in members;
        Accumulates(PlannedPart(devices, weather, reported, n - 1), PlannedTotal(shares, before),
                    reported[n - 1], Planned(shares, seen[n - 1].key), target, allRated);
      } else {
        assert members == before;
      }
    }
  }

  lemma {:induction false} AllPlanned(devices: seq<ManagedDevice>, weather: seq<Weather>, reported: seq<real>, n: nat)
    requires n <= |devices| == |weather| == |reported|
    requires forall k :: 0 <= k < |devices| ==> (devices[k].dev.kind.PV? ==> reported[k] == 0.0)
    requires forall k :: 0 <= k < |devices| && devices[k].dev.kind.Battery? ==> !weather[k].driven
    ensures PlannedPart(devices, weather, reported, n) == Sum(reported[..n])
  {
    if n > 0 {
      AllPlanned(devices, weather, reported, n - 1);
      assert reported[..n][..n - 1] == reported[..n - 1];
    }
  }

  /** At most `ordered`, in its direction; an order of zero leaves nothing. */
  predicate Follows(achieved: real, ordered: real) {
    (ordered >= 0.0 ==> achieved <= ordered) && (ordered <= 0.0 ==> ordered <= achieved)
  }

  /** Not against `ordered`. */
  predicate Forward(achieved: real, ordered: real) {
    (ordered >= 0.0 ==> achieved >= 0.0) && (ordered <= 0.0 ==> achieved <= 0.0)
  }

  predicate SameSide(part: real, whole: real) {
    if whole > 0.0 then part >= 0.0 else part <= 0.0
  }

  predicate SoFar(achieved: real, part: real, target: real, allRated: bool) {
    SameSide(part, target) && Follows(achieved, part) && (allRated ==> Forward(achieved, part))
  }

  lemma Accumulates(achieved: real, part: real, chargingW: real, share: real, target: real, allRated: bool)
    requires SoFar(achieved, part, target, allRated) && SameSide(share, target)
    requires share <= 0.0 ==> share <= chargingW <= 0.0
    requires share >= 0.0 ==> chargingW <= share
    requires share >= 0.0 && allRated ==> 0.0 <= chargingW
    ensures SoFar(achieved + chargingW, part + share, target, allRated)
  {
  }

  /** In the grant's direction, following the target is obeying it. */
  lemma FollowingObeys(d: State, t: Terms, now: real, achieved: real)
    requires d.terms == Some(t) && t.powerW >= 0.0
    requires RemainingWh(t, Delivered(d, now)) >= 0.0
    requires Inside(d, now) ==> Follows(achieved, Target(d, now))
    ensures Obeys(d, now, achieved)
  {
    if Inside(d, now) {
      TargetIsAffordable(t, Delivered(d, now), now, StepLength(d));
    }
  }

  lemma FollowingKeepsCap(d: State, t: Terms, now: real, achieved: real)
    requires Capped(d, t) && t.powerW >= 0.0
    requires Inside(d, now) ==> Follows(achieved, Target(d, now))
    ensures Capped(AfterTick(d, now, achieved), t)
  {
    DeliveredStaysCapped(d, t, now);
    FollowingObeys(d, t, now, achieved);
    TickKeepsCap(d, t, now, achieved);
  }

  /** Main result: the energy cap, discharged for the real fleet: every tick of a fleet with no driven
      battery keeps the grant's cap, at whatever time it comes. */
  method CappedTick(f: ManagedFleet, t: Terms, now: real, weather: seq<Weather>, root: real -> real)
    returns (achieved: real)
    requires f.Valid() && |weather| == |f.devices| && f.NoneDriven(weather)
    requires Capped(f.dispatch.Abs(), t) && t.powerW >= 0.0
    modifies f.dispatch
    modifies set d: ManagedDevice | d in f.devices :: d
    modifies set d: ManagedDevice | d in f.devices :: d.dev
    ensures f.Valid() && Capped(f.dispatch.Abs(), t)
    ensures Direction(t.energyWh) * f.dispatch.deliveredWh <= AbsR(t.energyWh)
  {
    ghost var d := f.dispatch.Abs();
    ghost var reported;
    ghost var plan, seen;
    achieved, reported, plan, seen := f.Tick(now, weather, root);
    AllPlanned(f.devices, weather, reported, |reported|);
    assert reported[..|reported|] == reported;
    FollowingKeepsCap(d, t, now, achieved);
  }
}
