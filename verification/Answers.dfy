/** Choosing and reading the server's answer to a flow reservation
    (cmd/inverterclient/reservation_logic.go). Times are seconds, as reals. */
module Answers {
  import opened Common

  /** A wire quantity: value times ten to the multiplier. */
  datatype Quantity = Quantity(value: int, multiplier: int)

  function Pow10(n: nat): (p: nat)
    ensures p >= 1
  {
    if n == 0 then 1 else 10 * Pow10(n - 1)
  }

  function Times(value: int, k: nat): real
    decreases k
  {
    if k == 0 then value as real else 10.0 * Times(value, k - 1)
  }

  function Tenths(value: int, k: nat): real
    decreases k
  {
    if k == 0 then value as real else Tenths(value, k - 1) / 10.0
  }

  function Scaled(q: Quantity): real {
    if q.multiplier >= 0 then Times(q.value, q.multiplier) else Tenths(q.value, -q.multiplier)
  }

  /** Main result: a quantity is its value times ten to the multiplier, whatever the multiplier's sign. */
  lemma {:induction false} ScaledIsDecimal(value: int, k: nat)
    ensures Scaled(Quantity(value, k)) == (value * Pow10(k)) as real
    ensures Scaled(Quantity(value, 0 - k)) * Pow10(k) as real == value as real
  {
    if k > 0 {
      ScaledIsDecimal(value, k - 1);
      TenTimes(value, Pow10(k - 1));
      if k == 1 {
        assert Tenths(value, 0) == value as real && Pow10(0) == 1;
      } else {
        assert Scaled(Quantity(value, 1 - k)) == Tenths(value, k - 1);
      }
      TenTimesReal(Tenths(value, k - 1), Pow10(k - 1) as real);
    }
  }

  lemma TenTimes(value: int, p: int)
    ensures value * (10 * p) == 10 * (value * p)
  {
  }

  lemma TenTimesReal(x: real, p: real)
    ensures x / 10.0 * (10.0 * p) == x * p
  {
  }

  datatype Window = Window(start: int, duration: nat)

  /** A FlowReservationResponse. */
  datatype Answer = Answer(
    mrid: string,
    subject: string,
    creationTime: int,
    status: Option<nat>,
    interval: Option<Window>,
    energyAvailable: Option<Quantity>,
    powerAvailable: Option<Quantity>,
    replyTo: string,
    responseRequired: Option<nat>)

  datatype Kind = Pending | Granted | Denied | Expired | Invalid | Late | Revoked

  predicate Dispatches(k: Kind) {
    k.Granted? || k.Late?
  }

  /** How a response differed from the request. */
  datatype Note = EnergySign | PowerSign | EnergyClipped | PowerClipped | IntervalClipped

  datatype Terms = Terms(responseMRID: string, start: real, end: real, energyWh: real, powerW: real, clipped: seq<Note>)

  const NO_TERMS := Terms("", 0.0, 0.0, 0.0, 0.0, [])

  /** What an answer is read against; energyWh is charging positive, powerW a magnitude. */
  datatype Facts = Facts(start: real, end: real, energyWh: real, powerW: real)

  // ---------------------------------------------------------------- the two searches

  const EVENT_CANCELLED_RANDOMIZED: nat := 3
  const EVENT_SUPERSEDED: nat := 4

  predicate Dead(r: Answer) {
    r.status.Some? && r.status.value in {EVENT_CANCELLED, EVENT_CANCELLED_RANDOMIZED, EVENT_SUPERSEDED}
  }

  /** Not cancelled (2), cancelled at random (3) or superseded (4). */
  predicate Alive(r: Answer) {
    r.status !in {Some(2), Some(3), Some(4)}
  }

  function FirstAnswer(list: seq<Answer>, subject: string): Option<Answer> {
    if list == [] then None
    else
      var r := list[|list| - 1];
      var before := FirstAnswer(list[..|list| - 1], subject);
      if r.subject == subject && (before.None? || r.creationTime < before.value.creationTime) then Some(r) else before
  }

  function EffectiveAnswer(list: seq<Answer>, subject: string): Option<Answer> {
    if list == [] then None
    else
      var r := list[|list| - 1];
      var before := EffectiveAnswer(list[..|list| - 1], subject);
      if r.subject == subject && !Dead(r) && (before.None? || r.creationTime >= before.value.creationTime) then Some(r)
      else before
  }

  method FindFirstAnswer(list: seq<Answer>, subject: string) returns (resp: Option<Answer>)
    ensures resp == FirstAnswer(list, subject)
    ensures resp.None? <==> forall r :: r in list ==> r.subject != subject
    ensures resp.Some? ==> resp.value in list && resp.value.subject == subject
    ensures resp.Some? ==> forall r :: r in list && r.subject == subject ==> resp.value.creationTime <= r.creationTime
  {
    resp := None;
    for i := 0 to |list|
      invariant resp == FirstAnswer(list[..i], subject)
    {
      assert list[..i + 1][..i] == list[..i];
      if list[i].subject == subject && (resp.None? || list[i].creationTime < resp.value.creationTime) {
        resp := Some(list[i]);
      }
    }
    assert list[..|list|] == list;
    FirstIsOldest(list, subject);
  }

  method FindEffectiveAnswer(list: seq<Answer>, subject: string) returns (resp: Option<Answer>)
    ensures resp == EffectiveAnswer(list, subject)
    ensures resp.None? <==> forall r :: r in list && r.subject == subject ==> !Alive(r)
    ensures resp.Some? ==> Taken(list, subject, resp.value)
  {
    resp := None;
    for i := 0 to |list|
      invariant resp == EffectiveAnswer(list[..i], subject)
    {
      assert list[..i + 1][..i] == list[..i];
      if list[i].subject != subject || Dead(list[i]) {
        continue;
      }
      if resp.None? || list[i].creationTime >= resp.value.creationTime {
        resp := Some(list[i]);
      }
    }
    assert list[..|list|] == list;
    EffectiveIsTaken(list, subject);
  }

  lemma {:induction false} FirstIsOldest(list: seq<Answer>, subject: string)
    ensures var f := FirstAnswer(list, subject);
            && (f.None? <==> forall r :: r in list ==> r.subject != subject)
            && (f.Some? ==> f.value in list && f.value.subject == subject)
            && (f.Some? ==> forall r :: r in list && r.subject == subject ==> f.value.creationTime <= r.creationTime)
  {
    if list != [] {
      var n := |list| - 1;
      FirstIsOldest(list[..n], subject);
      assert forall r :: r in list <==> r in list[..n] || r == list[n];
    }
  }

  /** One of the newest live answers: with equal times there can be several. */
  ghost predicate Newest(list: seq<Answer>, subject: string, a: Answer) {
    && a in list && a.subject == subject && Alive(a)
    && forall r :: r in list && r.subject == subject && Alive(r) ==> r.creationTime <= a.creationTime
  }

  /** Of the newest live answers, the last in the list. */
  ghost predicate Taken(list: seq<Answer>, subject: string, a: Answer) {
    exists i :: 0 <= i < |list| && list[i] == a && TakenAt(list, subject, i)
  }

  ghost predicate TakenAt(list: seq<Answer>, subject: string, i: nat)
    requires i < |list|
  {
    && list[i].subject == subject && Alive(list[i])
    && (forall j :: 0 <= j < i && list[j].subject == subject && Alive(list[j]) ==>
          list[j].creationTime <= list[i].creationTime)
    && (forall j :: i < j < |list| && list[j].subject == subject && Alive(list[j]) ==>
          list[j].creationTime < list[i].creationTime)
  }

  lemma {:induction false} EffectiveIsNewest(list: seq<Answer>, subject: string)
    ensures var e := EffectiveAnswer(list, subject);
            && (e.None? <==> forall r :: r in list && r.subject == subject ==> !Alive(r))
            && (e.Some? ==> Newest(list, subject, e.value))
  {
    if list != [] {
      var n := |list| - 1;
      EffectiveIsNewest(list[..n], subject);
      assert forall r :: r in list <==> r in list[..n] || r == list[n];
    }
  }

  lemma {:induction false} EffectiveIndex(list: seq<Answer>, subject: string) returns (i: nat)
    requires EffectiveAnswer(list, subject).Some?
    ensures i < |list| && list[i] == EffectiveAnswer(list, subject).value && TakenAt(list, subject, i)
  {
    var n := |list| - 1;
    EffectiveIsNewest(list[..n], subject);
    if EffectiveAnswer(list, subject) == EffectiveAnswer(list[..n], subject) && !TakenAt(list, subject, n) {
      i := EffectiveIndex(list[..n], subject);
      assert forall j :: 0 <= j < n ==> list[..n][j] == list[j];
    } else {
      i := n;
      assert forall j :: 0 <= j < n ==> list[..n][j] == list[j] && list[j] in list[..n];
    }
  }

  lemma EffectiveIsTaken(list: seq<Answer>, subject: string)
    ensures var e := EffectiveAnswer(list, subject);
            && (e.None? <==> forall r :: r in list && r.subject == subject ==> !Alive(r))
            && (e.Some? ==> Newest(list, subject, e.value) && Taken(list, subject, e.value))
  {
    EffectiveIsNewest(list, subject);
    if EffectiveAnswer(list, subject).Some? {
      var i := EffectiveIndex(list, subject);
    }
  }

  lemma TakenIsEffective(list: seq<Answer>, subject: string, a: Answer)
    requires Taken(list, subject, a)
    ensures EffectiveAnswer(list, subject) == Some(a)
  {
    EffectiveIsTaken(list, subject);
    var i :| 0 <= i < |list| && list[i] == a && TakenAt(list, subject, i);
    assert a in list;
    var k := EffectiveIndex(list, subject);
  }

  // ---------------------------------------------------------------- reading a grant

  /** readGrant: the sizes and times on offer, cut down to the request and turned its way. */
  function ReadGrant(resp: Answer, rq: Facts): Option<Terms>
    requires resp.interval.Some? && resp.energyAvailable.Some? && resp.powerAvailable.Some?
  {
    var part := GrantedPart(resp, rq);
    if part.None? then None else Some(part.value.(clipped := Notes(resp, rq)))
  }

  function GrantedPart(resp: Answer, rq: Facts): Option<Terms>
    requires resp.interval.Some? && resp.energyAvailable.Some? && resp.powerAvailable.Some?
  {
    var gs := resp.interval.value.start as real;
    var ge := gs + resp.interval.value.duration as real;
    var start := if gs < rq.start then rq.start else gs;
    var end := if ge > rq.end then rq.end else ge;
    var wh, w := AbsR(Scaled(resp.energyAvailable.value)), AbsR(Scaled(resp.powerAvailable.value));
    if wh == 0.0 || w == 0.0 || end <= start then None
    else
      var limit := AbsR(rq.energyWh);
      var wh' := if wh > limit then limit else wh;
      var w' := if w > rq.powerW then rq.powerW else w;
      if wh' == 0.0 || w' == 0.0 then None
      else Some(Terms(resp.mrid, start, end, Direction(rq.energyWh) * wh', w', []))
  }

  /** What was ignored or cut off. */
  function Notes(resp: Answer, rq: Facts): seq<Note>
    requires resp.interval.Some? && resp.energyAvailable.Some? && resp.powerAvailable.Some?
  {
    var dir := Direction(rq.energyWh);
    var gs := resp.interval.value.start as real;
    var ge := gs + resp.interval.value.duration as real;
    var grantedWh := Scaled(resp.energyAvailable.value);
    var grantedW := Scaled(resp.powerAvailable.value);
    Noted(grantedWh * dir < 0.0, grantedW * dir < 0.0, AbsR(grantedWh) > AbsR(rq.energyWh), AbsR(grantedW) > rq.powerW,
          gs < rq.start || ge > rq.end)
  }

  lemma NotedMembers(energySign: bool, powerSign: bool, energy: bool, power: bool, interval: bool)
    ensures var notes := Noted(energySign, powerSign, energy, power, interval);
            && (EnergySign in notes <==> energySign) && (PowerSign in notes <==> powerSign)
            && (EnergyClipped in notes <==> energy) && (PowerClipped in notes <==> power)
            && (IntervalClipped in notes <==> interval)
  {
  }

  function Noted(energySign: bool, powerSign: bool, energy: bool, power: bool, interval: bool): seq<Note> {
    (if energySign then [EnergySign] else [])
    + (if powerSign then [PowerSign] else [])
    + (if energy then [EnergyClipped] else [])
    + (if power then [PowerClipped] else [])
    + (if interval then [IntervalClipped] else [])
  }

  /** Terms no one could call more than was asked for. */
  ghost predicate Within(t: Terms, rq: Facts) {
    && rq.start <= t.start < t.end <= rq.end
    && 0.0 < Direction(rq.energyWh) * t.energyWh <= AbsR(rq.energyWh)
    && 0.0 < t.powerW <= rq.powerW
  }

  /** A grant is usable exactly when it overlaps the requested window and leaves energy
      and power; then its terms are the intersection of window, energy and power with the request. */
  lemma ReadGrantIsIntersection(resp: Answer, rq: Facts)
    requires resp.interval.Some? && resp.energyAvailable.Some? && resp.powerAvailable.Some?
    requires rq.powerW >= 0.0
    ensures var gs := resp.interval.value.start as real;
            var ge := gs + resp.interval.value.duration as real;
            var wh := MinR(AbsR(Scaled(resp.energyAvailable.value)), AbsR(rq.energyWh));
            var w := MinR(AbsR(Scaled(resp.powerAvailable.value)), rq.powerW);
            && (ReadGrant(resp, rq).Some? <==> wh > 0.0 && w > 0.0 && MaxR(gs, rq.start) < MinR(ge, rq.end))
            && (ReadGrant(resp, rq).Some? ==>
                  var t := ReadGrant(resp, rq).value;
                  && Within(t, rq)
                  && t.start == MaxR(gs, rq.start) && t.end == MinR(ge, rq.end)
                  && AbsR(t.energyWh) == wh && t.powerW == w)
  {
    TurnedTwice(rq.energyWh, MinR(AbsR(Scaled(resp.energyAvailable.value)), AbsR(rq.energyWh)));
  }

  lemma TurnedTwice(energyWh: real, wh: real)
    ensures Direction(energyWh) * wh == if energyWh < 0.0 then -wh else wh
    ensures Direction(energyWh) * (Direction(energyWh) * wh) == wh
  {
  }

  // ---------------------------------------------------------------- judge

  function Judge(list: seq<Answer>, subject: string, rq: Facts, grace: real, now: real): (Kind, Terms) {
    var first := FirstAnswer(list, subject);
    if first.None? then (if now < rq.start + grace then Pending else Expired, NO_TERMS)
    else
      var effective := EffectiveAnswer(list, subject);
      if effective.None? then (Revoked, NO_TERMS) else JudgeAnswer(effective.value, rq, IsLate(first.value, rq, grace))
  }

  function JudgeAnswer(resp: Answer, rq: Facts, late: bool): (Kind, Terms) {
    var named := NO_TERMS.(responseMRID := resp.mrid);
    if resp.interval.Some? && resp.interval.value.duration == 0 then (Denied, named)
    else if resp.interval.None? || resp.energyAvailable.None? || resp.powerAvailable.None? then (Invalid, named)
    else
      var t := ReadGrant(resp, rq);
      if t.None? then (Invalid, named)
      else if late then (Late, t.value)
      else (Granted, t.value)
  }

  /** The one time test: on the first answer. */
  predicate IsLate(first: Answer, rq: Facts, grace: real) {
    first.creationTime as real > rq.start + grace
  }

  /** Whether the first answer was late; which of several oldest ones is taken does not matter. */
  predicate FirstWasLate(list: seq<Answer>, subject: string, rq: Facts, grace: real) {
    FirstAnswer(list, subject).Some? && IsLate(FirstAnswer(list, subject).value, rq, grace)
  }

  ghost predicate OrderIsIrrelevant(list: seq<Answer>, subject: string, rq: Facts, grace: real, now: real) {
    forall other: seq<Answer> :: multiset(other) == multiset(list) ==>
      Judge(other, subject, rq, grace, now) == Judge(list, subject, rq, grace, now)
  }

  ghost predicate NewestAlike(list: seq<Answer>, subject: string, rq: Facts, grace: real) {
    var late := FirstWasLate(list, subject, rq, grace);
    forall a, b :: Newest(list, subject, a) && Newest(list, subject, b) ==>
      JudgeAnswer(a, rq, late) == JudgeAnswer(b, rq, late)
  }

  lemma SameMembers(list: seq<Answer>, other: seq<Answer>)
    requires multiset(list) == multiset(other)
    ensures forall r :: r in list <==> r in other
  {
    assert forall r :: r in list <==> r in multiset(list);
    assert forall r :: r in other <==> r in multiset(other);
  }

  /** Every order sees the same first time, and takes one of the newest. */
  lemma AnyOrder(list: seq<Answer>, other: seq<Answer>, subject: string, rq: Facts, grace: real)
    requires multiset(list) == multiset(other)
    ensures FirstAnswer(other, subject).Some? <==> FirstAnswer(list, subject).Some?
    ensures FirstWasLate(other, subject, rq, grace) == FirstWasLate(list, subject, rq, grace)
    ensures EffectiveAnswer(other, subject).Some? <==> EffectiveAnswer(list, subject).Some?
    ensures EffectiveAnswer(other, subject).Some? ==> Newest(list, subject, EffectiveAnswer(other, subject).value)
  {
    SameMembers(list, other);
    FirstIsOldest(list, subject);
    FirstIsOldest(other, subject);
    EffectiveIsNewest(list, subject);
    EffectiveIsNewest(other, subject);
  }

  /** Some order takes any given one of the newest. */
  lemma PutLast(list: seq<Answer>, subject: string, a: Answer) returns (other: seq<Answer>)
    requires Newest(list, subject, a)
    ensures multiset(other) == multiset(list) && EffectiveAnswer(other, subject) == Some(a)
  {
    var i :| 0 <= i < |list| && list[i] == a;
    var rest := list[..i] + list[i + 1..];
    other := rest + [a];
    assert list == list[..i] + [a] + list[i + 1..];
    EffectiveIsNewest(rest, subject);
    assert other[..|other| - 1] == rest;
    assert forall r :: r in rest ==> r in list;
  }

  /** Main result: the order of the list is irrelevant exactly when all its newest live answers are
      judged alike. Equal times among older answers, or on the first one, never matter. */
  lemma OrderMattersExactly(list: seq<Answer>, subject: string, rq: Facts, grace: real, now: real)
    ensures OrderIsIrrelevant(list, subject, rq, grace, now) <==> NewestAlike(list, subject, rq, grace)
  {
    if NewestAlike(list, subject, rq, grace) {
      AnyOrder(list, list, subject, rq, grace);
      forall other: seq<Answer> | multiset(other) == multiset(list)
        ensures Judge(other, subject, rq, grace, now) == Judge(list, subject, rq, grace, now)
      {
        AnyOrder(list, other, subject, rq, grace);
      }
    }
    if OrderIsIrrelevant(list, subject, rq, grace, now) {
      forall a | Newest(list, subject, a)
        ensures JudgeAnswer(a, rq, FirstWasLate(list, subject, rq, grace)) == Judge(list, subject, rq, grace, now)
      {
        var other := PutLast(list, subject, a);
        AnyOrder(list, other, subject, rq, grace);
        FirstIsOldest(list, subject);
        assert Judge(other, subject, rq, grace, now) == Judge(list, subject, rq, grace, now);
      }
    }
  }

  ghost predicate DistinctTimes(list: seq<Answer>, subject: string) {
    forall i, j :: 0 <= i < j < |list| && list[i].subject == subject && list[j].subject == subject
                   ==> list[i].creationTime != list[j].creationTime
  }

  /** Main result: with distinct creation times the order of the list does not matter. */
  lemma JudgeIgnoresOrder(list: seq<Answer>, other: seq<Answer>, subject: string, rq: Facts, grace: real, now: real)
    requires multiset(list) == multiset(other) && DistinctTimes(list, subject)
    ensures Judge(list, subject, rq, grace, now) == Judge(other, subject, rq, grace, now)
  {
    OrderMattersExactly(list, subject, rq, grace, now);
    forall a, b | Newest(list, subject, a) && Newest(list, subject, b) ensures a == b {
      var i :| 0 <= i < |list| && list[i] == a;
      var j :| 0 <= j < |list| && list[j] == b;
    }
  }

  /** What is wrong with the offer, or was changed to fit it in. */
  ghost predicate NotesTell(t: Terms, a: Answer, rq: Facts)
    requires a.interval.Some? && a.energyAvailable.Some? && a.powerAvailable.Some?
  {
    var gs := a.interval.value.start as real;
    var ge := gs + a.interval.value.duration as real;
    && (EnergySign in t.clipped <==> (Scaled(a.energyAvailable.value) < 0.0) != (rq.energyWh < 0.0))
    && (PowerSign in t.clipped <==> (Scaled(a.powerAvailable.value) < 0.0) != (rq.energyWh < 0.0))
    && (EnergyClipped in t.clipped <==> AbsR(Scaled(a.energyAvailable.value)) > AbsR(rq.energyWh))
    && (PowerClipped in t.clipped <==> AbsR(Scaled(a.powerAvailable.value)) > rq.powerW)
    && (IntervalClipped in t.clipped <==> gs < rq.start || ge > rq.end)
  }

  /** An answer that offers some energy and power during part of the requested window. */
  ghost predicate Usable(a: Answer, rq: Facts) {
    && a.interval.Some? && a.energyAvailable.Some? && a.powerAvailable.Some?
    && Scaled(a.energyAvailable.value) != 0.0 && rq.energyWh != 0.0
    && Scaled(a.powerAvailable.value) != 0.0 && rq.powerW > 0.0
    && (var gs := a.interval.value.start as real;
        var ge := gs + a.interval.value.duration as real;
        gs < ge && gs < rq.end && rq.start < ge && rq.start < rq.end)
  }

  /** The part of the offer that was asked for, in the direction it was asked for. */
  ghost predicate IsIntersection(t: Terms, a: Answer, rq: Facts)
    requires Usable(a, rq)
  {
    var gs := a.interval.value.start as real;
    var ge := gs + a.interval.value.duration as real;
    var wh := MinR(AbsR(Scaled(a.energyAvailable.value)), AbsR(rq.energyWh));
    && t.responseMRID == a.mrid
    && t.start == MaxR(gs, rq.start) && t.end == MinR(ge, rq.end)
    && t.energyWh == (if rq.energyWh < 0.0 then -wh else wh)
    && t.powerW == MinR(AbsR(Scaled(a.powerAvailable.value)), rq.powerW)
    && NotesTell(t, a, rq)
  }

  lemma OpposedSigns(x: real, energyWh: real)
    requires x != 0.0
    ensures x * Direction(energyWh) < 0.0 <==> (x < 0.0) != (energyWh < 0.0)
  {
  }

  lemma ReadGrantExactly(a: Answer, rq: Facts)
    requires a.interval.Some? && a.energyAvailable.Some? && a.powerAvailable.Some? && rq.powerW >= 0.0
    ensures ReadGrant(a, rq).Some? <==> Usable(a, rq)
    ensures Usable(a, rq) ==> IsIntersection(ReadGrant(a, rq).value, a, rq)
  {
    ReadGrantIsIntersection(a, rq);
    if Usable(a, rq) { ReadGrantNotes(a, rq, ReadGrant(a, rq).value); }
  }

  lemma ReadGrantNotes(a: Answer, rq: Facts, t: Terms)
    requires a.interval.Some? && a.energyAvailable.Some? && a.powerAvailable.Some?
    requires Usable(a, rq) && ReadGrant(a, rq) == Some(t)
    ensures NotesTell(t, a, rq)
  {
    OpposedSigns(Scaled(a.energyAvailable.value), rq.energyWh);
    OpposedSigns(Scaled(a.powerAvailable.value), rq.energyWh);
    var dir := Direction(rq.energyWh);
    var grantedWh, grantedW := Scaled(a.energyAvailable.value), Scaled(a.powerAvailable.value);
    var gs := a.interval.value.start as real;
    NotedMembers(grantedWh * dir < 0.0, grantedW * dir < 0.0, AbsR(grantedWh) > AbsR(rq.energyWh),
                 AbsR(grantedW) > rq.powerW, gs < rq.start || gs + a.interval.value.duration as real > rq.end);
  }

  /** Terms without a note are the offer itself. */
  lemma UnclippedIsAsOffered(t: Terms, a: Answer, rq: Facts)
    requires Usable(a, rq) && IsIntersection(t, a, rq) && t.clipped == []
    ensures t.energyWh == Scaled(a.energyAvailable.value) && t.powerW == AbsR(Scaled(a.powerAvailable.value))
    ensures t.start == a.interval.value.start as real && t.end - t.start == a.interval.value.duration as real
  {
  }

  ghost predicate AnyAnswer(list: seq<Answer>, subject: string) {
    exists r :: r in list && r.subject == subject
  }

  ghost predicate Declines(a: Answer) {
    a.interval.Some? && a.interval.value.duration == 0
  }

  /** Every answer was created more than the grace after the requested start. */
  ghost predicate AllLate(list: seq<Answer>, subject: string, rq: Facts, grace: real) {
    forall r :: r in list && r.subject == subject ==> r.creationTime as real > rq.start + grace
  }

  lemma JudgeAnswerExactly(a: Answer, rq: Facts, late: bool)
    requires rq.powerW >= 0.0
    ensures var v := JudgeAnswer(a, rq, late);
            && v.0 in {Denied, Invalid, Late, Granted}
            && (v.0 == Denied <==> Declines(a))
            && (v.0 == Invalid <==> !Declines(a) && !Usable(a, rq))
            && (v.0 == Late <==> Usable(a, rq) && late)
            && (Usable(a, rq) ==> IsIntersection(v.1, a, rq))
            && (!Usable(a, rq) ==> v.1 == NO_TERMS.(responseMRID := a.mrid))
  {
    if a.interval.Some? && a.energyAvailable.Some? && a.powerAvailable.Some? { ReadGrantExactly(a, rq); }
  }

  /** Main result: the verdict, by what the list holds. Without an answer the clock decides; without a
      live one the request is revoked; else the newest live answer decides, and the oldest answer of all
      whether it came too late. */
  lemma VerdictExactly(list: seq<Answer>, subject: string, rq: Facts, grace: real, now: real)
    requires rq.powerW >= 0.0
    ensures var v := Judge(list, subject, rq, grace, now);
            && (v.0 == Pending <==> !AnyAnswer(list, subject) && now < rq.start + grace)
            && (v.0 == Expired <==> !AnyAnswer(list, subject) && rq.start + grace <= now)
            && (v.0 == Revoked <==>
                  AnyAnswer(list, subject) && forall r :: r in list && r.subject == subject ==> !Alive(r))
            && (v.0 in {Pending, Expired, Revoked} <==> forall a :: a in list ==> !Taken(list, subject, a))
            && (v.0 in {Pending, Expired, Revoked} ==> v.1 == NO_TERMS)
    ensures forall a :: Taken(list, subject, a) ==>
              var v := Judge(list, subject, rq, grace, now);
              && (v.0 == Denied <==> Declines(a))
              && (v.0 == Invalid <==> !Declines(a) && !Usable(a, rq))
              && (v.0 == Late <==> Usable(a, rq) && AllLate(list, subject, rq, grace))
              && (v.0 == Granted <==> Usable(a, rq) && !AllLate(list, subject, rq, grace))
              && (Usable(a, rq) ==> IsIntersection(v.1, a, rq))
              && (!Usable(a, rq) ==> v.1 == NO_TERMS.(responseMRID := a.mrid))
  {
    FirstIsOldest(list, subject);
    EffectiveIsTaken(list, subject);
    forall a | Taken(list, subject, a) ensures EffectiveAnswer(list, subject) == Some(a) {
      TakenIsEffective(list, subject, a);
    }
    var e := EffectiveAnswer(list, subject);
    if e.Some? {
      var a := e.value;
      JudgeAnswerExactly(a, rq, AllLate(list, subject, rq, grace));
      assert FirstAnswer(list, subject).Some?;
      assert IsLate(FirstAnswer(list, subject).value, rq, grace) <==> AllLate(list, subject, rq, grace);
    }
  }

  /** Main result: once any answer exists, the clock has no say. */
  lemma JudgeIgnoresClockOnceAnswered(list: seq<Answer>, subject: string, rq: Facts, grace: real, now: real,
                                      later: real)
    requires AnyAnswer(list, subject)
    ensures Judge(list, subject, rq, grace, now) == Judge(list, subject, rq, grace, later)
    ensures Judge(list, subject, rq, grace, now).0 !in {Pending, Expired}
  {
    FirstIsOldest(list, subject);
  }

  lemma {:induction false} FirstSurvivesAppend(list: seq<Answer>, more: seq<Answer>, subject: string)
    requires FirstAnswer(list, subject).Some?
    requires forall r :: r in more && r.subject == subject ==>
               r.creationTime >= FirstAnswer(list, subject).value.creationTime
    ensures FirstAnswer(list + more, subject) == FirstAnswer(list, subject)
  {
    if more == [] {
      assert list + more == list;
    } else {
      var n := |more| - 1;
      FirstSurvivesAppend(list, more[..n], subject);
      assert (list + more)[..|list + more| - 1] == list + more[..n];
      assert more[n] in more;
    }
  }

  /** Main result: revisions no older than the first answer never turn an on-time request late or a
      late one on-time. */
  lemma RevisionsKeepPunctuality(list: seq<Answer>, more: seq<Answer>, subject: string, rq: Facts, grace: real,
                                 now: real)
    requires FirstAnswer(list, subject).Some?
    requires forall r :: r in more && r.subject == subject ==>
               r.creationTime >= FirstAnswer(list, subject).value.creationTime
    ensures var late := IsLate(FirstAnswer(list, subject).value, rq, grace);
            && Judge(list + more, subject, rq, grace, now).0 != (if late then Granted else Late)
            && Judge(list, subject, rq, grace, now).0 != (if late then Granted else Late)
  {
    FirstSurvivesAppend(list, more, subject);
  }

  /** Main result: whatever is dispatched lies within the request. */
  lemma JudgedTermsAreWithin(list: seq<Answer>, subject: string, rq: Facts, grace: real, now: real)
    requires rq.powerW >= 0.0
    ensures var j := Judge(list, subject, rq, grace, now); Dispatches(j.0) ==> Within(j.1, rq)
  {
    var e := EffectiveAnswer(list, subject);
    if e.Some? && e.value.interval.Some? && e.value.energyAvailable.Some? && e.value.powerAvailable.Some? {
      ReadGrantIsIntersection(e.value, rq);
    }
  }
}
