/** The energy a grant really moved, against the dispatcher's count of it
    (cmd/inverterclient/reservation.go). The count forgets what was moved since the last tick when the
    grant is dropped, or cut short, before the next one. */
module Metering {
  import opened Common
  import opened Answers
  import opened Dispatch

  /** The fleet's output since a tick inside a grant, and the end of that grant. */
  datatype Output = Output(at: real, achieved: real, until: real)

  /** An independent meter: the grant in force, the output of the last tick if a plan ordered it, and
      the energy moved. */
  datatype Meter = Meter(terms: Option<Terms>, output: Option<Output>, wh: real)

  /** An output is held until the next tick. A windowed meter stops at the end of the grant that
      ordered it, the other one does not. */
  function HeldUntil(o: Output, now: real, windowed: bool): real {
    if windowed then MinR(now, o.until) else now
  }

  function Moved(m: Meter, now: real, windowed: bool): real {
    if m.output.None? || now <= m.output.value.at then 0.0
    else Energy(m.output.value.achieved, HeldUntil(m.output.value, now, windowed) - m.output.value.at)
  }

  function AfterMetering(m: Meter, move: Move, windowed: bool): Meter {
    match move
    case Revise(t) => m.(terms := t)
    case Run(now, achieved) =>
      var ordered := m.terms.Some? && m.terms.value.start <= now < m.terms.value.end;
      var output := if ordered then Some(Output(now, achieved, m.terms.value.end)) else None;
      Meter(m.terms, output, m.wh + Moved(m, now, windowed))
  }

  function Metered(m: Meter, moves: seq<Move>, windowed: bool): Meter {
    if moves == [] then m
    else AfterMetering(Metered(m, moves[..|moves| - 1], windowed), moves[|moves| - 1], windowed)
  }

  /** A meter that starts with the dispatcher, before anything is ordered. */
  function MeterOf(d: State): Meter {
    Meter(d.terms, None, d.deliveredWh)
  }

  // ---------------------------------------------------------------- meter and count

  ghost predicate Matches(d: State, m: Meter) {
    && d.terms == m.terms
    && (d.prevInside <==> m.output.Some?)
    && (d.prevInside ==>
          var o := m.output.value;
          d.lastAt == Some(o.at) && d.lastAchieved == o.achieved && o.at < o.until)
  }

  lemma {:induction false} RunMatches(d: State, moves: seq<Move>, windowed: bool)
    requires !d.prevInside
    ensures Matches(AfterMoves(d, moves), Metered(MeterOf(d), moves, windowed))
  {
    if moves != [] { RunMatches(d, moves[..|moves| - 1], windowed); }
  }

  /** The count sees what the meter sees: the grant is still there, and cuts the held output where the
      meter does. An unwindowed meter asks that the grant has not ended by the tick. */
  predicate Counts(m: Meter, move: Move, windowed: bool) {
    match move
    case Revise(_) => true
    case Run(now, _) =>
      m.output.Some? && m.output.value.at < now && m.output.value.achieved != 0.0 ==>
        m.terms.Some? && MinR(now, m.terms.value.end) == HeldUntil(m.output.value, now, windowed)
  }

  lemma SpansDiffer(power: real, a: real, b: real)
    requires power != 0.0
    ensures Energy(power, a) == Energy(power, b) <==> a == b
  {
    if Energy(power, a) == Energy(power, b) {
      assert power * (a - b) == power * a - power * b == 0.0;
    }
  }

  lemma NoPower(seconds: real)
    ensures Energy(0.0, seconds) == 0.0
  {
  }

  lemma CountsExactly(d: State, m: Meter, move: Move, windowed: bool)
    requires Matches(d, m) && d.deliveredWh == m.wh
    ensures AfterMove(d, move).deliveredWh == AfterMetering(m, move, windowed).wh <==> Counts(m, move, windowed)
  {
    if move.Run? && m.output.Some? && m.output.value.at < move.now {
      var o := m.output.value;
      var held := HeldUntil(o, move.now, windowed) - o.at;
      if o.achieved == 0.0 {
        NoPower(held);
        if d.terms.Some? { NoPower(MinR(move.now, d.terms.value.end) - o.at); }
      } else {
        SpansDiffer(o.achieved, held, 0.0);
        if d.terms.Some? { SpansDiffer(o.achieved, held, MinR(move.now, d.terms.value.end) - o.at); }
      }
    }
  }

  /** The count is the meter's reading after each move. */
  ghost predicate AgreesThroughout(d: State, moves: seq<Move>, windowed: bool) {
    moves == [] ||
    (AgreesThroughout(d, moves[..|moves| - 1], windowed)
     && AfterMoves(d, moves).deliveredWh == Metered(MeterOf(d), moves, windowed).wh)
  }

  ghost predicate AllCount(d: State, moves: seq<Move>, windowed: bool) {
    moves == [] ||
    (AllCount(d, moves[..|moves| - 1], windowed)
     && Counts(Metered(MeterOf(d), moves[..|moves| - 1], windowed), moves[|moves| - 1], windowed))
  }

  /** Main result: the count is the energy really moved, all along a run, exactly when no grant is
      dropped or moved to end elsewhere between a tick that ordered power and the next one. */
  lemma {:induction false} CountIsExact(d: State, moves: seq<Move>, windowed: bool)
    requires !d.prevInside
    ensures AgreesThroughout(d, moves, windowed) <==> AllCount(d, moves, windowed)
    ensures AgreesThroughout(d, moves, windowed) ==>
        AfterMoves(d, moves).deliveredWh == Metered(MeterOf(d), moves, windowed).wh
  {
    if moves != [] {
      var before := moves[..|moves| - 1];
      CountIsExact(d, before, windowed);
      RunMatches(d, before, windowed);
      if AgreesThroughout(d, before, windowed) {
        CountsExactly(AfterMoves(d, before), Metered(MeterOf(d), before, windowed), moves[|moves| - 1], windowed);
      }
    }
  }

  lemma {:induction false} OneGrantCounts(d: State, t: Terms, moves: seq<Move>)
    requires !d.prevInside && d.terms == Some(t) && AllUnder(d, moves, t)
    ensures AllCount(d, moves, true)
    ensures var m := Metered(MeterOf(d), moves, true);
            m.terms == Some(t) && (m.output.Some? ==> m.output.value.until == t.end)
  {
    if moves != [] { OneGrantCounts(d, t, moves[..|moves| - 1]); }
  }

  /** Main result: under one grant, at whatever times it ticks, an obedient fleet moves no more within
      the grant than was granted. */
  lemma MovedStaysWithinGrant(d: State, t: Terms, moves: seq<Move>)
    requires t.powerW >= 0.0 && d.terms == Some(t)
    requires !d.prevInside && Direction(t.energyWh) * d.deliveredWh <= AbsR(t.energyWh)
    requires AllUnder(d, moves, t)
    ensures Metered(MeterOf(d), moves, true).wh == AfterMoves(d, moves).deliveredWh
    ensures Direction(t.energyWh) * Metered(MeterOf(d), moves, true).wh <= AbsR(t.energyWh)
  {
    OneGrantCounts(d, t, moves);
    CountIsExact(d, moves, true);
    EnergyCap(d, t, moves);
  }

  /** Main result: under revision the energy moved stays within the request when, besides the ticks
      being close enough, no grant is dropped or cut between ticks. */
  lemma MovedStaysWithinRequest(minStep: real, rq: Facts, moves: seq<Move>, windowed: bool)
    requires minStep >= 0.0 && AllFair(Fresh(minStep), moves, rq) && AllCount(Fresh(minStep), moves, windowed)
    ensures Direction(rq.energyWh) * Metered(MeterOf(Fresh(minStep)), moves, windowed).wh <= AbsR(rq.energyWh)
  {
    CountIsExact(Fresh(minStep), moves, windowed);
    EnergyCapUnderRevision(minStep, rq, moves);
  }

  // ---------------------------------------------------------------- revoking hides energy

  /** The power that moves an energy in one step. */
  function Rate(energyWh: real, step: real): real
    requires step > 0.0
  {
    AbsR(energyWh) * SECONDS_PER_HOUR / step
  }

  function CycleStart(k: nat, step: real): real {
    if k == 0 then 0.0 else CycleStart(k - 1, step) + step + step
  }

  function StepGrant(k: nat, energyWh: real, step: real): Terms
    requires step > 0.0
  {
    Terms("", CycleStart(k, step), CycleStart(k, step) + step, energyWh, Rate(energyWh, step), [])
  }

  /** Granted for one step, run, revoked, and looked at again when the step is over. */
  function Cycle(k: nat, energyWh: real, step: real): seq<Move>
    requires step > 0.0
  {
    [Revise(Some(StepGrant(k, energyWh, step))),
     Run(CycleStart(k, step), Direction(energyWh) * Rate(energyWh, step)),
     Revise(None),
     Run(CycleStart(k, step) + step, 0.0)]
  }

  function Cycles(n: nat, energyWh: real, step: real): seq<Move>
    requires step > 0.0
  {
    if n == 0 then [] else Cycles(n - 1, energyWh, step) + Cycle(n - 1, energyWh, step)
  }

  function Multiple(n: nat, wh: real): real {
    if n == 0 then 0.0 else Multiple(n - 1, wh) + wh
  }

  /** The request every cycle's grant lies within. */
  function WholeRequest(n: nat, energyWh: real, step: real): Facts
    requires step > 0.0
  {
    Facts(0.0, CycleStart(n, step), energyWh, Rate(energyWh, step))
  }

  lemma {:induction false} CyclesAdvance(k: nat, n: nat, step: real)
    requires step > 0.0 && k <= n
    ensures 0.0 <= CycleStart(k, step) <= CycleStart(n, step)
    ensures k < n ==> CycleStart(k, step) + step <= CycleStart(n, step)
    decreases n
  {
    if n > 0 {
      if k < n { CyclesAdvance(k, n - 1, step); } else { CyclesAdvance(n - 1, n - 1, step); }
    }
  }

  lemma RateMoves(energyWh: real, step: real)
    requires step > 0.0 && energyWh != 0.0
    ensures Rate(energyWh, step) > 0.0
    ensures Energy(Direction(energyWh) * Rate(energyWh, step), step) == energyWh
  {
    RateSpends(AbsR(energyWh), step);
    var r := Rate(energyWh, step);
    assert r * step == AbsR(energyWh) * SECONDS_PER_HOUR;
    assert (-r) * step == -(r * step);
  }

  /** Between cycles nothing is granted, nothing is counted, and the last tick is one step away. */
  ghost predicate Idle(d: State, k: nat, step: real) {
    && d.minStep == step && d.terms == None && d.deliveredWh == 0.0 && !d.prevInside
    && d.lastStep <= step
    && Elapsed(d, CycleStart(k, step)) <= step
  }

  lemma CycleRuns(d: State, m: Meter, k: nat, rq: Facts, step: real, windowed: bool)
    requires step > 0.0 && rq.energyWh != 0.0 && Idle(d, k, step) && Matches(d, m)
    requires Within(StepGrant(k, rq.energyWh, step), rq)
    ensures var c := Cycle(k, rq.energyWh, step);
            var d1 := AfterMove(d, c[0]); var d2 := AfterMove(d1, c[1]); var d3 := AfterMove(d2, c[2]);
            && Fair(d, c[0], rq) && Fair(d1, c[1], rq) && Fair(d2, c[2], rq) && Fair(d3, c[3], rq)
            && Idle(AfterMove(d3, c[3]), k + 1, step)
    ensures var c := Cycle(k, rq.energyWh, step);
            var m2 := AfterMetering(AfterMetering(m, c[0], windowed), c[1], windowed);
            var m4 := AfterMetering(AfterMetering(m2, c[2], windowed), c[3], windowed);
            m4.wh == m.wh + rq.energyWh
  {
    var t, now := StepGrant(k, rq.energyWh, step), CycleStart(k, step);
    RateMoves(rq.energyWh, step);
    var d1 := d.(terms := Some(t));
    assert Delivered(d1, now) == 0.0;
    assert Direction(rq.energyWh) * 0.0 == 0.0;
    assert t.end - now == step;
    assert Target(d1, now) == Direction(rq.energyWh) * Rate(rq.energyWh, step);
  }

  /** Four moves at once. */
  lemma FourMoves(d: State, moves: seq<Move>, c: seq<Move>, rq: Facts, m: Meter, windowed: bool)
    requires |c| == 4
    ensures var d0 := AfterMoves(d, moves);
            var d1 := AfterMove(d0, c[0]); var d2 := AfterMove(d1, c[1]); var d3 := AfterMove(d2, c[2]);
            && AfterMoves(d, moves + c) == AfterMove(d3, c[3])
            && (AllFair(d, moves + c, rq) <==>
                  AllFair(d, moves, rq) && Fair(d0, c[0], rq) && Fair(d1, c[1], rq) && Fair(d2, c[2], rq)
                    && Fair(d3, c[3], rq))
    ensures Metered(m, moves + c, windowed) ==
            var m2 := AfterMetering(AfterMetering(Metered(m, moves, windowed), c[0], windowed), c[1], windowed);
            AfterMetering(AfterMetering(m2, c[2], windowed), c[3], windowed)
  {
    OneMove(d, moves, c[0], rq, m, windowed);
    OneMove(d, moves + [c[0]], c[1], rq, m, windowed);
    OneMove(d, moves + [c[0]] + [c[1]], c[2], rq, m, windowed);
    OneMove(d, moves + [c[0]] + [c[1]] + [c[2]], c[3], rq, m, windowed);
    assert moves + c == moves + [c[0]] + [c[1]] + [c[2]] + [c[3]];
  }

  lemma OneMove(d: State, moves: seq<Move>, last: Move, rq: Facts, m: Meter, windowed: bool)
    ensures AfterMoves(d, moves + [last]) == AfterMove(AfterMoves(d, moves), last)
    ensures AllFair(d, moves + [last], rq) <==> AllFair(d, moves, rq) && Fair(AfterMoves(d, moves), last, rq)
    ensures Metered(m, moves + [last], windowed) == AfterMetering(Metered(m, moves, windowed), last, windowed)
  {
    assert (moves + [last])[..|moves + [last]| - 1] == moves;
  }

  /** Main result: without that condition there is no bound at all. For any number of times, any energy
      and any minimum step, a fair run whose grants all lie within the request moves the requested
      energy that many times over, while nothing is counted. */
  lemma {:induction false} RevocationsHideEnergy(n: nat, k: nat, energyWh: real, step: real, windowed: bool)
    requires step > 0.0 && energyWh != 0.0 && k <= n
    ensures var moves := Cycles(k, energyWh, step);
            && AllFair(Fresh(step), moves, WholeRequest(n, energyWh, step))
            && Idle(AfterMoves(Fresh(step), moves), k, step)
            && AfterMoves(Fresh(step), moves).deliveredWh == 0.0
            && Metered(MeterOf(Fresh(step)), moves, windowed).wh == Multiple(k, energyWh)
    decreases k
  {
    if k > 0 {
      var rq := WholeRequest(n, energyWh, step);
      var before := Cycles(k - 1, energyWh, step);
      RevocationsHideEnergy(n, k - 1, energyWh, step, windowed);
      RunMatches(Fresh(step), before, windowed);
      CyclesAdvance(k - 1, n, step);
      RateMoves(energyWh, step);
      assert Direction(energyWh) * energyWh == AbsR(energyWh);
      CycleRuns(AfterMoves(Fresh(step), before), Metered(MeterOf(Fresh(step)), before, windowed), k - 1, rq, step,
        windowed);
      FourMoves(Fresh(step), before, Cycle(k - 1, energyWh, step), rq, MeterOf(Fresh(step)), windowed);
    }
  }
}
