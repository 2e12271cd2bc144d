/** Dispatching a grant and counting the energy it moved (cmd/inverterclient/reservation.go).
    Times and durations are seconds, energies watt-hours, powers watts. */
module Dispatch {
  import opened Common
  import opened Answers
  import opened PowerSplit

  const SECONDS_PER_HOUR: real := 3600.0

  /** The energy a power held for some seconds moves. */
  function Energy(powerW: real, seconds: real): real {
    powerW * seconds / SECONDS_PER_HOUR
  }

  function RemainingWh(t: Terms, deliveredWh: real): real {
    AbsR(t.energyWh) - Direction(t.energyWh) * deliveredWh
  }

  /** The least of the granted power, the rate that spends what remains evenly over the time left,
      and the rate that would spend it in one step. */
  function FleetTarget(t: Terms, deliveredWh: real, now: real, step: real): real {
    if now < t.start || t.end <= now || step <= 0.0 then 0.0
    else
      var remaining := RemainingWh(t, deliveredWh);
      if remaining <= 0.0 then 0.0
      else
        Direction(t.energyWh) *
        MinR(t.powerW, MinR(remaining * SECONDS_PER_HOUR / (t.end - now), remaining * SECONDS_PER_HOUR / step))
  }

  /** The dispatcher's fields; lastAt is None where the source has the zero time. `used`, which the source
      only has in a local, is the step the last plan was sized for. */
  datatype State = State(
    minStep: real,
    terms: Option<Terms>,
    deliveredWh: real,
    lastAt: Option<real>,
    lastStep: real,
    prevInside: bool,
    lastAchieved: real,
    used: real)

  function Fresh(minStep: real): State {
    State(minStep, None, 0.0, None, 0.0, false, 0.0, 0.0)
  }

  function Elapsed(d: State, now: real): real {
    if d.lastAt.None? then 0.0 else now - d.lastAt.value
  }

  /** The energy count at now: the last achieved output, held until now or the end of the grant. */
  function Delivered(d: State, now: real): real {
    if d.terms.None? || !d.prevInside || d.lastAt.None? || now <= d.lastAt.value then d.deliveredWh
    else
      var span := MinR(now, d.terms.value.end) - d.lastAt.value;
      if span > 0.0 then d.deliveredWh + Energy(d.lastAchieved, span) else d.deliveredWh
  }

  predicate Inside(d: State, now: real) {
    d.terms.Some? && d.terms.value.start <= now < d.terms.value.end
  }

  function StepLength(d: State): real {
    MaxR(d.minStep, d.lastStep)
  }

  /** The target of the plan made at now; zero outside the grant, where nothing is planned. */
  function Target(d: State, now: real): real {
    if Inside(d, now) then FleetTarget(d.terms.value, Delivered(d, now), now, StepLength(d)) else 0.0
  }

  function AfterPlan(d: State, now: real): State {
    d.(deliveredWh := Delivered(d, now), lastAt := Some(now), lastStep := Elapsed(d, now), prevInside := Inside(d, now),
       used := StepLength(d))
  }

  /** One fleet tick: plan at now, then record what the fleet achieved. */
  function AfterTick(d: State, now: real, achieved: real): State {
    AfterPlan(d, now).(lastAchieved := achieved)
  }

  /** One event in the life of a dispatcher: a poll or a withdrawal sets the grant, or the fleet ticks. */
  datatype Move = Revise(terms: Option<Terms>) | Run(now: real, achieved: real)

  function AfterMove(d: State, m: Move): State {
    match m
    case Revise(t) => d.(terms := t)
    case Run(now, achieved) => AfterTick(d, now, achieved)
  }

  function AfterMoves(d: State, moves: seq<Move>): State {
    if moves == [] then d else AfterMove(AfterMoves(d, moves[..|moves| - 1]), moves[|moves| - 1])
  }

  /** The setpoints of a plan: every member has one inside the grant, none outside. */
  function Setpoints(shares: map<string, real>, members: seq<Member>): map<string, real> {
    map m | m in members :: m.key := ChargingToDER(Planned(shares, m.key))
  }

  class Dispatcher {
    const minStep: real
    var terms: Option<Terms>
    var deliveredWh: real
    var lastAt: Option<real>
    var lastStep: real
    var prevInside: bool
    var lastAchieved: real
    ghost var used: real

    constructor (minStep: real)
      ensures Abs() == Fresh(minStep)
    {
      this.minStep := minStep;
      terms, deliveredWh, lastAt, lastStep, prevInside, lastAchieved := None, 0.0, None, 0.0, false, 0.0;
      used := 0.0;
    }

    ghost function Abs(): State
      reads this
    {
      State(minStep, terms, deliveredWh, lastAt, lastStep, prevInside, lastAchieved, used)
    }

    method Reset()
      modifies this
      ensures Abs() == Fresh(minStep)
    {
      terms, deliveredWh, lastAt, lastStep, prevInside, lastAchieved := None, 0.0, None, 0.0, false, 0.0;
      used := 0.0;
    }

    method SetGrant(t: Option<Terms>)
      modifies this`terms
      ensures terms == t
    {
      terms := t;
    }

    method Plan(now: real, members: seq<Member>) returns (out: map<string, real>)
      modifies this
      ensures Abs() == AfterPlan(old(Abs()), now)
      ensures forall m :: m in members ==> (m.key in out <==> terms.Some? && terms.value.start <= now < terms.value.end)
      ensures out == if Inside(old(Abs()), now) then Setpoints(Shares(Target(old(Abs()), now), members), members)
          else map[]
    {
      var elapsed := 0.0;
      if lastAt.Some? {
        elapsed := now - lastAt.value;
      }
      if terms.Some? && prevInside && elapsed > 0.0 {
        var until := now;
        if terms.value.end < until {
          until := terms.value.end;
        }
        var span := until - lastAt.value;
        if span > 0.0 {
          deliveredWh := deliveredWh + Energy(lastAchieved, span);
        }
      }
      var step := MaxR(minStep, lastStep);
      lastAt, lastStep, used := Some(now), elapsed, step;
      if terms.None? || now < terms.value.start || terms.value.end <= now {
        prevInside := false;
        return map[];
      }
      prevInside := true;
      var target := FleetTarget(terms.value, deliveredWh, now, step);
      var shares := SplitTarget(target, members);
      out := map[];
      for i := 0 to |members|
        invariant out == Setpoints(shares, members[..i])
      {
        assert members[..i + 1] == members[..i] + [members[i]];
        out := out[members[i].key := ChargingToDER(Planned(shares, members[i].key))];
      }
      assert members[..|members|] == members;
    }

    method Record(achievedChargingW: real)
      modifies this
      ensures Abs() == old(Abs()).(lastAchieved := achievedChargingW)
    {
      lastAchieved := achievedChargingW;
    }
  }

  // ---------------------------------------------------------------- the target

  /** The target never points against the grant and never exceeds the granted power, and holding it
      for one step or until the end of the grant cannot spend more than remains. */
  lemma TargetIsAffordable(t: Terms, deliveredWh: real, now: real, step: real)
    requires t.powerW >= 0.0 && RemainingWh(t, deliveredWh) >= 0.0
    ensures var p := Direction(t.energyWh) * FleetTarget(t, deliveredWh, now, step);
            && 0.0 <= p <= t.powerW
            && (now < t.end ==> Energy(p, t.end - now) <= RemainingWh(t, deliveredWh))
            && (step >= 0.0 ==> Energy(p, step) <= RemainingWh(t, deliveredWh))
  {
    var r := RemainingWh(t, deliveredWh);
    var dir := Direction(t.energyWh);
    var target := FleetTarget(t, deliveredWh, now, step);
    if target == 0.0 {
      assert dir * target == 0.0;
    } else {
      var even, once := r * SECONDS_PER_HOUR / (t.end - now), r * SECONDS_PER_HOUR / step;
      var p := MinR(t.powerW, MinR(even, once));
      assert target == dir * p;
      assert dir * target == p by { assert dir == 1.0 || dir == -1.0; }
      RateSpends(r, t.end - now);
      RateSpends(r, step);
      EnergyMonotone(p, even, t.end - now);
      EnergyMonotone(p, once, step);
    }
  }

  /** Main result: the target is the greatest power, in the grant's direction, that is granted and would not
      overspend, held for one step or until the end of the grant. */
  lemma TargetIsGreatest(t: Terms, deliveredWh: real, now: real, step: real, p: real)
    requires t.start <= now < t.end && step > 0.0 && 0.0 <= p <= t.powerW
    requires Energy(p, t.end - now) <= RemainingWh(t, deliveredWh) && Energy(p, step) <= RemainingWh(t, deliveredWh)
    ensures p <= Direction(t.energyWh) * FleetTarget(t, deliveredWh, now, step)
  {
    var r := RemainingWh(t, deliveredWh);
    EnergyBounds(p, t.end - now, t.end - now);
    if r <= 0.0 {
      NoEnergyNoPower(p, step);
      assert Direction(t.energyWh) * 0.0 == 0.0;
    } else {
      RateIsGreatest(p, r, t.end - now);
      RateIsGreatest(p, r, step);
      var least := MinR(t.powerW, MinR(r * SECONDS_PER_HOUR / (t.end - now), r * SECONDS_PER_HOUR / step));
      assert Direction(t.energyWh) * (Direction(t.energyWh) * least) == least;
    }
  }

  lemma NoEnergyNoPower(p: real, seconds: real)
    requires p >= 0.0 && seconds > 0.0 && Energy(p, seconds) <= 0.0
    ensures p == 0.0
  {
    if p > 0.0 { EnergyGrows(p, 0.0, seconds); }
  }

  lemma RateIsGreatest(p: real, r: real, seconds: real)
    requires seconds > 0.0 && r > 0.0 && Energy(p, seconds) <= r
    ensures p <= r * SECONDS_PER_HOUR / seconds
  {
    RateSpends(r, seconds);
    var rate := r * SECONDS_PER_HOUR / seconds;
    if p > rate {
      assert (p - rate) * seconds > 0.0;
      assert (p - rate) * seconds == p * seconds - rate * seconds;
    }
  }

  lemma RateSpends(r: real, seconds: real)
    requires seconds > 0.0 && r >= 0.0
    ensures Energy(r * SECONDS_PER_HOUR / seconds, seconds) == r
    ensures r * SECONDS_PER_HOUR / seconds >= 0.0
  {
    var rate := r * SECONDS_PER_HOUR / seconds;
    assert rate * seconds == r * SECONDS_PER_HOUR;
  }

  lemma EnergyMonotone(p: real, q: real, seconds: real)
    requires p <= q && seconds >= 0.0
    ensures Energy(p, seconds) <= Energy(q, seconds)
  {
    assert (q - p) * seconds >= 0.0;
    assert (q - p) * seconds == q * seconds - p * seconds;
  }

  lemma EnergyGrows(p: real, short: real, long: real)
    requires p > 0.0 && short < long
    ensures Energy(p, short) < Energy(p, long)
  {
    var more := p * (long - short);
    assert more > 0.0 && p * long == p * short + more;
  }

  lemma EnergyBounds(p: real, short: real, long: real)
    requires 0.0 <= short <= long
    ensures p >= 0.0 ==> 0.0 <= Energy(p, short) <= Energy(p, long)
    ensures p <= 0.0 ==> Energy(p, short) <= 0.0
    ensures -Energy(p, short) == Energy(-p, short)
  {
    if p >= 0.0 {
      assert p * (long - short) >= 0.0 && p * short >= 0.0;
      assert p * (long - short) == p * long - p * short;
    } else {
      assert (-p) * short >= 0.0;
    }
    assert (-p) * short == -(p * short);
  }

  // ---------------------------------------------------------------- the energy cap under one grant

  /** What a tick achieved, in the grant's direction, is at most what it was asked for. */
  predicate Obeys(d: State, now: real, achieved: real)
    requires d.terms.Some?
  {
    Inside(d, now) ==>
      Direction(d.terms.value.energyWh) * achieved <= Direction(d.terms.value.energyWh) * Target(d, now)
  }

  /** The energy spent, plus all the last output could still spend, is within the grant. */
  ghost predicate Capped(d: State, t: Terms) {
    && d.terms == Some(t)
    && Direction(t.energyWh) * d.deliveredWh <= AbsR(t.energyWh)
    && (d.prevInside ==>
          && d.lastAt.Some? && t.start <= d.lastAt.value < t.end
          && Energy(Direction(t.energyWh) * d.lastAchieved, t.end - d.lastAt.value) <= RemainingWh(t, d.deliveredWh))
  }

  lemma DeliveredStaysCapped(d: State, t: Terms, now: real)
    requires Capped(d, t)
    ensures Direction(t.energyWh) * Delivered(d, now) <= AbsR(t.energyWh)
  {
    if Delivered(d, now) != d.deliveredWh {
      var dir := Direction(t.energyWh);
      var span := MinR(now, t.end) - d.lastAt.value;
      EnergyBounds(dir * d.lastAchieved, span, t.end - d.lastAt.value);
      EnergyBounds(d.lastAchieved, span, span);
      assert dir * (d.deliveredWh + Energy(d.lastAchieved, span)) == dir * d.deliveredWh
        + Energy(dir * d.lastAchieved, span);
    }
  }

  lemma TickKeepsCap(d: State, t: Terms, now: real, achieved: real)
    requires Capped(d, t) && t.powerW >= 0.0 && Obeys(d, now, achieved)
    ensures Capped(AfterTick(d, now, achieved), t)
  {
    DeliveredStaysCapped(d, t, now);
    if Inside(d, now) { InsideSpends(d, t, now, achieved); }
  }

  lemma InsideSpends(d: State, t: Terms, now: real, achieved: real)
    requires d.terms == Some(t) && t.powerW >= 0.0 && Inside(d, now) && Obeys(d, now, achieved)
    requires RemainingWh(t, Delivered(d, now)) >= 0.0
    ensures Energy(Direction(t.energyWh) * achieved, t.end - now) <= RemainingWh(t, Delivered(d, now))
  {
    TargetIsAffordable(t, Delivered(d, now), now, StepLength(d));
    EnergyMonotone(Direction(t.energyWh) * achieved, Direction(t.energyWh) * Target(d, now), t.end - now);
  }

  /** The grant stays as it is, installed again by a poll or not, and every tick obeys. */
  ghost predicate Under(d: State, m: Move, t: Terms) {
    match m
    case Revise(terms) => terms == Some(t)
    case Run(now, achieved) => d.terms == Some(t) && Obeys(d, now, achieved)
  }

  ghost predicate AllUnder(d: State, moves: seq<Move>, t: Terms) {
    moves == [] ||
    (AllUnder(d, moves[..|moves| - 1], t) && Under(AfterMoves(d, moves[..|moves| - 1]), moves[|moves| - 1], t))
  }

  /** Main result: under one grant, whatever was planned before it came and whatever the tick times,
      early, late, irregular or even running backwards, the energy counted never passes the granted
      energy. */
  lemma {:induction false} EnergyCap(d: State, t: Terms, moves: seq<Move>)
    requires t.powerW >= 0.0 && d.terms == Some(t)
    requires !d.prevInside && Direction(t.energyWh) * d.deliveredWh <= AbsR(t.energyWh)
    requires AllUnder(d, moves, t)
    ensures Capped(AfterMoves(d, moves), t)
    ensures Direction(t.energyWh) * AfterMoves(d, moves).deliveredWh <= AbsR(t.energyWh)
  {
    if moves != [] {
      var before := moves[..|moves| - 1];
      var last := moves[|moves| - 1];
      EnergyCap(d, t, before);
      if last.Run? { TickKeepsCap(AfterMoves(d, before), t, last.now, last.achieved); }
    }
  }

  // ---------------------------------------------------------------- the energy cap under revision

  /** The energy spent, plus what the last output could spend in the step it was planned for, is within
      what the request asked for, whatever the grant in force has become. */
  ghost predicate WithinRequest(d: State, rq: Facts) {
    && (d.terms.Some? ==> Within(d.terms.value, rq))
    && Direction(rq.energyWh) * d.deliveredWh <= AbsR(rq.energyWh)
    && (d.prevInside ==>
          && d.lastAt.Some? && d.used >= 0.0
          && Energy(Direction(rq.energyWh) * d.lastAchieved, d.used)
             <= AbsR(rq.energyWh) - Direction(rq.energyWh) * d.deliveredWh)
  }

  /** A tick after one inside a grant comes within the step that one was planned for. */
  predicate InTime(d: State, now: real) {
    d.prevInside ==> Elapsed(d, now) <= d.used
  }

  /** Revisions stay within the request; ticks obey, and come in time. */
  ghost predicate Fair(d: State, m: Move, rq: Facts) {
    match m
    case Revise(t) => t.Some? ==> Within(t.value, rq)
    case Run(now, achieved) => (d.terms.Some? ==> Obeys(d, now, achieved)) && InTime(d, now)
  }

  lemma MoveStaysWithin(d: State, m: Move, rq: Facts)
    requires WithinRequest(d, rq) && d.minStep >= 0.0 && Fair(d, m, rq)
    ensures WithinRequest(AfterMove(d, m), rq)
  {
    match m
    case Revise(t) =>
    case Run(now, achieved) =>
      DeliveredWithin(d, now, rq);
      if Inside(d, now) { RunWithin(d, now, achieved, rq); }
  }

  lemma DeliveredWithin(d: State, now: real, rq: Facts)
    requires WithinRequest(d, rq) && InTime(d, now)
    ensures Direction(rq.energyWh) * Delivered(d, now) <= AbsR(rq.energyWh)
  {
    if Delivered(d, now) != d.deliveredWh {
      var dir := Direction(rq.energyWh);
      var span := MinR(now, d.terms.value.end) - d.lastAt.value;
      EnergyBounds(dir * d.lastAchieved, span, d.used);
      EnergyBounds(d.lastAchieved, span, span);
      assert dir * (d.deliveredWh + Energy(d.lastAchieved, span)) ==
             dir * d.deliveredWh + Energy(dir * d.lastAchieved, span);
    }
  }

  lemma RunWithin(d: State, now: real, achieved: real, rq: Facts)
    requires WithinRequest(d, rq) && d.minStep >= 0.0 && Inside(d, now) && Obeys(d, now, achieved)
    requires Direction(rq.energyWh) * Delivered(d, now) <= AbsR(rq.energyWh)
    ensures Energy(Direction(rq.energyWh) * achieved, StepLength(d))
            <= AbsR(rq.energyWh) - Direction(rq.energyWh) * Delivered(d, now)
  {
    SameDirection(d.terms.value, rq);
    TargetWithin(d, now, rq);
    EnergyMonotone(Direction(rq.energyWh) * achieved, Direction(rq.energyWh) * Target(d, now), StepLength(d));
  }

  lemma TargetWithin(d: State, now: real, rq: Facts)
    requires d.minStep >= 0.0 && Inside(d, now) && Within(d.terms.value, rq)
    requires Direction(rq.energyWh) * Delivered(d, now) <= AbsR(rq.energyWh)
    ensures Energy(Direction(rq.energyWh) * Target(d, now), StepLength(d))
            <= AbsR(rq.energyWh) - Direction(rq.energyWh) * Delivered(d, now)
  {
    var t, delivered := d.terms.value, Delivered(d, now);
    SameDirection(t, rq);
    if RemainingWh(t, delivered) >= 0.0 {
      TargetIsAffordable(t, delivered, now, StepLength(d));
    } else {
      assert Direction(rq.energyWh) * Target(d, now) == 0.0;
    }
  }

  lemma SameDirection(t: Terms, rq: Facts)
    requires Within(t, rq)
    ensures Direction(t.energyWh) == Direction(rq.energyWh)
    ensures AbsR(t.energyWh) <= AbsR(rq.energyWh)
  {
    assert 0.0 < Direction(rq.energyWh) * t.energyWh;
  }

  ghost predicate AllFair(d: State, moves: seq<Move>, rq: Facts) {
    moves == [] ||
    (AllFair(d, moves[..|moves| - 1], rq) && Fair(AfterMoves(d, moves[..|moves| - 1]), moves[|moves| - 1], rq))
  }

  /** Main result: however often the grant is revised, withdrawn or restored, with every tick inside a
      grant followed in time the energy counted never passes the energy requested. What was really moved
      is another matter: see Metering. */
  lemma {:induction false} EnergyCapUnderRevision(minStep: real, rq: Facts, moves: seq<Move>)
    requires minStep >= 0.0 && AllFair(Fresh(minStep), moves, rq)
    ensures var d := AfterMoves(Fresh(minStep), moves);
            && WithinRequest(d, rq) && d.minStep == minStep
            && Direction(rq.energyWh) * d.deliveredWh <= AbsR(rq.energyWh)
  {
    if moves == [] {
      assert Direction(rq.energyWh) * 0.0 == 0.0;
    } else {
      EnergyCapUnderRevision(minStep, rq, moves[..|moves| - 1]);
      MoveStaysWithin(AfterMoves(Fresh(minStep), moves[..|moves| - 1]), moves[|moves| - 1], rq);
    }
  }

  /** Granted and run at the target at `now`, with nothing overspent yet; revised at once, and next looked
      at `gap` later. */
  ghost predicate OverspendsAcross(d: State, now: real, gap: real, rq: Facts, granted: Terms, revised: Terms) {
    var d0 := d.(terms := Some(granted));
    var d1 := AfterTick(d0, now, Target(d0, now)).(terms := Some(revised));
    && Within(granted, rq) && Within(revised, rq)
    && Direction(rq.energyWh) * Delivered(d0, now) <= AbsR(rq.energyWh)
    && Direction(rq.energyWh) * Delivered(d1, now + gap) > AbsR(rq.energyWh)
  }

  ghost predicate CanOverspend(d: State, now: real, gap: real) {
    exists rq, granted, revised :: OverspendsAcross(d, now, gap, rq, granted, revised)
  }

  /** Main result: whatever happened before, a revision can make the count pass the request at the next
      tick exactly when that tick comes later than the longer of the minimum step and the last one. */
  lemma RevisionNeedsTheStep(d: State, now: real, gap: real)
    requires d.minStep > 0.0 && gap > 0.0
    ensures CanOverspend(d, now, gap) <==> gap > MaxR(d.minStep, d.lastStep)
  {
    if gap > StepLength(d) {
      OverspendWitness(d, now, gap);
    }
    if CanOverspend(d, now, gap) && gap <= StepLength(d) {
      var rq, granted, revised :| OverspendsAcross(d, now, gap, rq, granted, revised);
      NoOverspend(d, now, gap, rq, granted, revised);
    }
  }

  /** So after any tick what counts is the gap before it. */
  lemma RevisionNeedsTheGap(d: State, at: real, achieved: real, now: real, gap: real)
    requires d.minStep > 0.0 && gap > 0.0
    ensures var before := if d.lastAt.None? then 0.0 else at - d.lastAt.value;
            CanOverspend(AfterTick(d, at, achieved), now, gap) <==> gap > d.minStep && gap > before
  {
    RevisionNeedsTheStep(AfterTick(d, at, achieved), now, gap);
  }

  lemma NoOverspend(d: State, now: real, gap: real, rq: Facts, granted: Terms, revised: Terms)
    requires d.minStep > 0.0 && 0.0 < gap <= StepLength(d) && Within(granted, rq) && Within(revised, rq)
    ensures !OverspendsAcross(d, now, gap, rq, granted, revised)
  {
    var d0 := d.(terms := Some(granted));
    if Direction(rq.energyWh) * Delivered(d0, now) <= AbsR(rq.energyWh) {
      var d1 := AfterTick(d0, now, Target(d0, now)).(terms := Some(revised));
      if Inside(d0, now) { TargetWithin(d0, now, rq); }
      assert WithinRequest(d1, rq);
      DeliveredWithin(d1, now + gap, rq);
    }
  }

  lemma OverspendWitness(d: State, now: real, gap: real)
    requires 0.0 < d.minStep && StepLength(d) < gap
    ensures CanOverspend(d, now, gap)
  {
    // What is left may be spent in one step; the revised grant stays open until after the gap.
    var step := StepLength(d);
    var before := Delivered(d.(terms := Some(Terms("", now, now + step, 1.0, 1.0, []))), now);
    var energy := MaxR(before, 0.0) + 1.0;
    var left := energy - before;
    var rate := left * SECONDS_PER_HOUR / step;
    RateSpends(left, step);
    assert rate > 0.0 by { assert rate * step == left * SECONDS_PER_HOUR; }
    var rq := Facts(now, now + gap + gap, energy, rate);
    var granted := Terms("", now, now + step, energy, rate, []);
    var revised := Terms("", now, now + gap + gap, energy, rate, []);
    var d0 := d.(terms := Some(granted));
    assert Delivered(d0, now) == before;
    assert now + step - now == step;
    assert Target(d0, now) == rate;
    var d1 := AfterTick(d0, now, rate).(terms := Some(revised));
    assert Delivered(d1, now + gap) == before + Energy(rate, gap);
    EnergyGrows(rate, step, gap);
    assert OverspendsAcross(d, now, gap, rq, granted, revised);
  }
}
