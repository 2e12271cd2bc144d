/** Sharing a fleet target among batteries (cmd/inverterclient/reservation_logic.go). Powers are
    charging positive; a setpoint is discharge positive. */
module PowerSplit {
  import opened Common

  function ChargingToDER(chargingW: real): real {
    0.0 - chargingW
  }

  datatype Member = Member(key: string, ratedW: real, up: bool, soc: real, knownSOC: bool)

  function Headroom(m: Member, charging: bool): real {
    if !m.up then 0.0
    else if m.knownSOC && ((charging && m.soc >= 1.0) || (!charging && m.soc <= 0.0)) then 0.0
    else m.ratedW
  }

  function TotalHeadroom(members: seq<Member>, charging: bool): real {
    if members == [] then 0.0
    else TotalHeadroom(members[..|members| - 1], charging) + Headroom(members[|members| - 1], charging)
  }

  /** The part of a magnitude that falls to one headroom out of a total. */
  function Part(mag: real, total: real, headroom: real): real
    requires total > 0.0
  {
    mag * headroom / total
  }

  /** One member's share: its part of the clipped target, in the target's direction. */
  function Share(targetW: real, total: real, headroom: real): real
    requires total > 0.0
  {
    var part := Part(MinR(AbsR(targetW), total), total, headroom);
    if targetW > 0.0 then part else -part
  }

  /** What splitTarget files by key; a later member replaces an earlier one with its key. */
  function Filed(targetW: real, total: real, members: seq<Member>): map<string, real>
    requires total > 0.0
  {
    if members == [] then map[]
    else
      var m := members[|members| - 1];
      var before := Filed(targetW, total, members[..|members| - 1]);
      var h := Headroom(m, targetW > 0.0);
      if h > 0.0 then before[m.key := Share(targetW, total, h)] else before
  }

  function Shares(targetW: real, members: seq<Member>): map<string, real> {
    var total := TotalHeadroom(members, targetW > 0.0);
    if targetW == 0.0 || total <= 0.0 then map[] else Filed(targetW, total, members)
  }

  method SplitTarget(targetW: real, members: seq<Member>) returns (out: map<string, real>)
    ensures out == Shares(targetW, members)
  {
    out := map[];
    if targetW == 0.0 { return; }
    var charging := targetW > 0.0;
    var total := 0.0;
    for i := 0 to |members|
      invariant total == TotalHeadroom(members[..i], charging)
    {
      assert members[..i + 1][..i] == members[..i];
      total := total + Headroom(members[i], charging);
    }
    assert members[..|members|] == members;
    if total <= 0.0 { return; }
    var mag := MinR(AbsR(targetW), total);
    for i := 0 to |members|
      invariant out == Filed(targetW, total, members[..i])
    {
      assert members[..i + 1][..i] == members[..i];
      var h := Headroom(members[i], charging);
      if h > 0.0 {
        var share := Part(mag, total, h);
        if !charging { share := -share; }
        out := out[members[i].key := share];
      }
    }
  }

  // ---------------------------------------------------------------- what the split promises

  ghost predicate DistinctKeys(members: seq<Member>) {
    forall i, j :: 0 <= i < j < |members| ==> members[i].key != members[j].key
  }

  ghost predicate Rated(members: seq<Member>) {
    forall m :: m in members ==> m.ratedW >= 0.0
  }

  /** A map read the Go way: an absent key reads as zero. */
  function Planned(shares: map<string, real>, key: string): real {
    if key in shares then shares[key] else 0.0
  }

  function PlannedTotal(shares: map<string, real>, members: seq<Member>): real {
    if members == [] then 0.0
    else PlannedTotal(shares, members[..|members| - 1]) + Planned(shares, members[|members| - 1].key)
  }

  /** A member that can take part: up, and not known to be full when charging or empty when discharging. */
  predicate Available(m: Member, charging: bool) {
    m.up && (m.knownSOC ==> if charging then m.soc < 1.0 else m.soc > 0.0)
  }

  /** What the available members are rated for together. */
  function Capacity(members: seq<Member>, charging: bool): real {
    if members == [] then 0.0
    else
      var last := members[|members| - 1];
      Capacity(members[..|members| - 1], charging) + (if Available(last, charging) then last.ratedW else 0.0)
  }

  /** The target with its magnitude clipped to that. */
  function Clipped(targetW: real, members: seq<Member>): real {
    var most := MinR(AbsR(targetW), Capacity(members, targetW > 0.0));
    if targetW > 0.0 then most else -most
  }

  lemma {:induction false} CapacityIsHeadroom(members: seq<Member>, charging: bool)
    ensures Capacity(members, charging) == TotalHeadroom(members, charging)
  {
    if members != [] { CapacityIsHeadroom(members[..|members| - 1], charging); }
  }

  lemma {:induction false} TotalIsNonNegative(members: seq<Member>, charging: bool)
    requires Rated(members)
    ensures TotalHeadroom(members, charging) >= 0.0
    ensures forall m :: m in members ==> 0.0 <= Headroom(m, charging) <= TotalHeadroom(members, charging)
  {
    if members != [] {
      var n := |members| - 1;
      TotalIsNonNegative(members[..n], charging);
      assert forall m :: m in members <==> m in members[..n] || m == members[n];
    }
  }

  lemma {:induction false} FiledShare(targetW: real, total: real, members: seq<Member>, i: nat)
    requires total > 0.0 && DistinctKeys(members) && i < |members|
    ensures var h := Headroom(members[i], targetW > 0.0);
            var f := Filed(targetW, total, members);
            && (members[i].key in f <==> h > 0.0)
            && (h > 0.0 ==> f[members[i].key] == Share(targetW, total, h))
  {
    var n := |members| - 1;
    if i < n {
      FiledShare(targetW, total, members[..n], i);
    } else {
      FiledOnlyKeys(targetW, total, members[..n], members[n].key);
    }
  }

  lemma {:induction false} FiledOnlyKeys(targetW: real, total: real, members: seq<Member>, key: string)
    requires total > 0.0 && forall m :: m in members ==> m.key != key
    ensures key !in Filed(targetW, total, members)
  {
    if members != [] {
      assert members[|members| - 1] in members;
      FiledOnlyKeys(targetW, total, members[..|members| - 1], key);
    }
  }

  lemma ShareBounds(targetW: real, total: real, h: real)
    requires total > 0.0 && 0.0 <= h <= total
    ensures targetW > 0.0 ==> 0.0 <= Share(targetW, total, h) <= h
    ensures targetW <= 0.0 ==> -h <= Share(targetW, total, h) <= 0.0
  {
    PartBounds(MinR(AbsR(targetW), total), total, h);
  }

  lemma PartBounds(mag: real, total: real, h: real)
    requires 0.0 < total && 0.0 <= h && 0.0 <= mag <= total
    ensures 0.0 <= Part(mag, total, h) <= h
  {
    var y := Part(mag, total, h);
    assert y * total == mag * h;
    assert 0.0 <= mag * h && (total - mag) * h >= 0.0;
    assert mag * h <= total * h;
  }

  /** Main result: every share has the target's direction and fits its member's rating; a member that is
      down, full or empty gets nothing. */
  lemma SharesFit(targetW: real, members: seq<Member>, i: nat)
    requires DistinctKeys(members) && Rated(members) && i < |members|
    ensures var h := if Available(members[i], targetW > 0.0) then members[i].ratedW else 0.0;
            var share := Planned(Shares(targetW, members), members[i].key);
            && (if targetW > 0.0 then 0.0 <= share <= h else -h <= share <= 0.0)
            && (h == 0.0 ==> members[i].key !in Shares(targetW, members))
  {
    CapacityIsHeadroom(members, targetW > 0.0);
    var total := TotalHeadroom(members, targetW > 0.0);
    TotalIsNonNegative(members, targetW > 0.0);
    assert members[i] in members;
    if targetW != 0.0 && total > 0.0 {
      FiledShare(targetW, total, members, i);
      ShareBounds(targetW, total, Headroom(members[i], targetW > 0.0));
    }
  }

  /** Main result: a member gets its share of the clipped target exactly when it is available and rated. */
  lemma SharesByRating(targetW: real, members: seq<Member>, i: nat)
    requires DistinctKeys(members) && Rated(members) && i < |members|
    ensures var total := Capacity(members, targetW > 0.0);
            var h := if Available(members[i], targetW > 0.0) then members[i].ratedW else 0.0;
            Planned(Shares(targetW, members), members[i].key)
            == if targetW == 0.0 || total <= 0.0 || h <= 0.0 then 0.0 else Share(targetW, total, h)
  {
    CapacityIsHeadroom(members, targetW > 0.0);
    var total := TotalHeadroom(members, targetW > 0.0);
    if targetW != 0.0 && total > 0.0 { FiledShare(targetW, total, members, i); }
  }

  /** Main result: that share is to the clipped target as the rating is to the ratings of all available members. */
  lemma ShareIsProportional(targetW: real, total: real, h: real)
    requires total > 0.0
    ensures var most := if AbsR(targetW) <= total then AbsR(targetW) else total;
            Share(targetW, total, h) * total == (if targetW > 0.0 then most else -most) * h
  {
    var most := MinR(AbsR(targetW), total);
    var part := Part(most, total, h);
    assert part * total == most * h;
    assert (-part) * total == -(part * total) && (-most) * h == -(most * h);
  }

  /** Main result: the shares add up to exactly the clipped target: nothing is lost or invented. */
  lemma SplitConserves(targetW: real, members: seq<Member>)
    requires DistinctKeys(members) && Rated(members)
    ensures PlannedTotal(Shares(targetW, members), members) == Clipped(targetW, members)
    ensures AbsR(Clipped(targetW, members)) <= AbsR(targetW)
  {
    var charging := targetW > 0.0;
    var total := TotalHeadroom(members, charging);
    CapacityIsHeadroom(members, charging);
    TotalIsNonNegative(members, charging);
    if targetW == 0.0 || total <= 0.0 {
      NothingPlanned(members);
    } else {
      PartialTotal(targetW, total, members, |members|);
      assert members[..|members|] == members;
      WholePart(MinR(AbsR(targetW), total), total);
    }
  }

  lemma {:induction false} NothingPlanned(members: seq<Member>)
    ensures PlannedTotal(map[], members) == 0.0
  {
    if members != [] { NothingPlanned(members[..|members| - 1]); }
  }

  lemma {:induction false} PartialTotal(targetW: real, total: real, members: seq<Member>, k: nat)
    requires total > 0.0 && DistinctKeys(members) && Rated(members) && k <= |members|
    ensures PlannedTotal(Filed(targetW, total, members), members[..k]) ==
            Share(targetW, total, TotalHeadroom(members[..k], targetW > 0.0))
  {
    if k > 0 {
      var charging := targetW > 0.0;
      PartialTotal(targetW, total, members, k - 1);
      assert members[..k][..k - 1] == members[..k - 1];
      FiledShare(targetW, total, members, k - 1);
      assert members[k - 1] in members;
      var h := Headroom(members[k - 1], charging);
      if h == 0.0 { PartAdds(MinR(AbsR(targetW), total), total, 0.0, 0.0); }
      ShareAdds(targetW, total, TotalHeadroom(members[..k - 1], charging), h);
    }
  }

  lemma ShareAdds(targetW: real, total: real, a: real, b: real)
    requires total > 0.0
    ensures Share(targetW, total, a + b) == Share(targetW, total, a) + Share(targetW, total, b)
  {
    PartAdds(MinR(AbsR(targetW), total), total, a, b);
  }

  lemma PartAdds(mag: real, total: real, a: real, b: real)
    requires total > 0.0
    ensures Part(mag, total, a + b) == Part(mag, total, a) + Part(mag, total, b)
  {
    assert mag * (a + b) == mag * a + mag * b;
    assert (mag * a + mag * b) / total == mag * a / total + mag * b / total;
  }

  lemma WholePart(mag: real, total: real)
    requires total > 0.0
    ensures Part(mag, total, total) == mag
  {
  }
}
