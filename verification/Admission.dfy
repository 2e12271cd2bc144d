/** Which controls a session schedules and which it refuses, over inputs and runs. */
module Admission {
  import opened Common
  import opened Scheduling
  import opened Lifecycle
  import opened ControlSession
  import opened EventInvariants
  import opened EventTrails
  import opened EventGuarantees

  // ---------------------------------------------------------------- the polled list

  /** Main result: a poll leaves in the snapshot exactly the mRIDs that some listed control has and no
      undecodable item shares, each with the last control of that mRID. */
  lemma SnapshotExactly(list: ListResult, x: string)
    ensures x in Snapshot(list) <==>
              && x != "" && (forall r :: r in list.rejected ==> r.mrid != x)
              && exists c :: c in list.controls && c.mrid == x
    ensures x in Snapshot(list) ==> LastOf(list.controls, x, Snapshot(list)[x])
  {
    ByIDExactly(Accepted(list), x);
    if list.rejected != [] {
      WithoutFacts(list.controls, RejectedIDs(list.rejected));
      RejectedIDsExactly(list.rejected, x);
      if x !in RejectedIDs(list.rejected) { WithoutKeepsLast(list.controls, RejectedIDs(list.rejected), x); }
    }
  }

  /** The last of the controls with an mRID. */
  ghost predicate LastOf(controls: seq<DERControl>, x: string, c: DERControl) {
    exists i :: 0 <= i < |controls| && controls[i] == c && c.mrid == x
                && forall j :: i < j < |controls| ==> controls[j].mrid != x
  }

  lemma {:induction false} ByIDExactly(controls: seq<DERControl>, x: string)
    ensures x in ByID(controls) <==> x != "" && exists c :: c in controls && c.mrid == x
    ensures x in ByID(controls) ==> LastOf(controls, x, ByID(controls)[x])
  {
    if controls != [] {
      var n := |controls| - 1;
      ByIDExactly(controls[..n], x);
      assert controls == controls[..n] + [controls[n]];
      if controls[n].mrid == x && x != "" {
        assert controls[n] in controls;
      } else if x in ByID(controls) {
        LastGrows(controls, x, ByID(controls)[x]);
      }
    }
  }

  lemma LastGrows(controls: seq<DERControl>, x: string, c: DERControl)
    requires controls != [] && LastOf(controls[..|controls| - 1], x, c) && controls[|controls| - 1].mrid != x
    ensures LastOf(controls, x, c)
  {
    var before := controls[..|controls| - 1];
    var i :| 0 <= i < |before| && before[i] == c && c.mrid == x
             && forall j :: i < j < |before| ==> before[j].mrid != x;
    forall j | i < j < |controls| ensures controls[j].mrid != x {
      if j < |before| { assert before[j] == controls[j]; }
    }
    assert controls[i] == c;
  }

  lemma {:induction false} WithoutKeepsLast(controls: seq<DERControl>, ids: set<string>, x: string)
    requires x !in ids
    ensures forall c :: LastOf(Without(controls, ids), x, c) ==> LastOf(controls, x, c)
  {
    if controls != [] {
      var n := |controls| - 1;
      WithoutKeepsLast(controls[..n], ids, x);
      forall c | LastOf(Without(controls, ids), x, c) ensures LastOf(controls, x, c) {
        var w := Without(controls, ids);
        if controls[n].mrid == x {
          assert w[|w| - 1] == controls[n];
          LastIsLast(w, x, c);
        } else {
          if controls[n].mrid !in ids {
            LastShrinks(w, x, c);
            assert w[..|w| - 1] == Without(controls[..n], ids);
          } else {
            assert w == Without(controls[..n], ids);
          }
          LastGrows(controls, x, c);
        }
      }
    }
  }

  lemma LastIsLast(controls: seq<DERControl>, x: string, c: DERControl)
    requires controls != [] && controls[|controls| - 1].mrid == x && LastOf(controls, x, c)
    ensures c == controls[|controls| - 1]
  {
  }

  lemma LastShrinks(controls: seq<DERControl>, x: string, c: DERControl)
    requires controls != [] && controls[|controls| - 1].mrid != x && LastOf(controls, x, c)
    ensures LastOf(controls[..|controls| - 1], x, c)
  {
    var before := controls[..|controls| - 1];
    var i :| 0 <= i < |controls| && controls[i] == c && c.mrid == x
             && forall j :: i < j < |controls| ==> controls[j].mrid != x;
    assert before[i] == c;
  }

  lemma {:induction false} RejectedIDsExactly(items: seq<DERControl>, x: string)
    ensures x in RejectedIDs(items) <==> x != "" && exists r :: r in items && r.mrid == x
  {
    if items != [] {
      var n := |items| - 1;
      RejectedIDsExactly(items[..n], x);
      assert items == items[..n] + [items[n]];
      if items[n].mrid == x { assert items[n] in items; }
    }
  }

  // ---------------------------------------------------------------- undecodable items

  /** Some undecodable item asks for the rejection of `x`: the server has not cancelled it. */
  ghost predicate Undecodable(items: seq<DERControl>, x: string) {
    exists r :: r in items && r.mrid == x && r.status != Some(2)
  }

  lemma {:induction false} RejectAllExactly(m: Machine, q: seq<ScheduledEvent>, items: seq<DERControl>, x: string)
    requires x != ""
    ensures x in RejectAll(m, q, items).m.rejected <==> x in m.rejected || Undecodable(items, x)
  {
    if items != [] {
      var n := |items| - 1;
      RejectAllExactly(m, q, items[..n], x);
      assert items == items[..n] + [items[n]];
      if items[n].mrid == x && !IsCancelled(items[n]) { assert items[n] in items; }
    }
  }

  /** Every rejection among the records carries an undecodable item that is not cancelled. */
  ghost predicate CarriesItem(t: Transition, items: seq<DERControl>) {
    t.next.Rejected? ==> t.evt.Some? && t.evt.value in items && t.evt.value.mrid == t.mrid && !IsCancelled(t.evt.value)
  }

  lemma {:induction false} RejectAllCarries(m: Machine, q: seq<ScheduledEvent>, items: seq<DERControl>)
    ensures forall t :: t in RejectAll(m, q, items).out ==> CarriesItem(t, items)
    ensures RejectAll(m, q, items).m.active in {m.active, None}
    ensures RejectAll(m, q, items).m.active.Some? ==>
              RejectAll(m, q, items).m == m.(rejected := RejectAll(m, q, items).m.rejected)
  {
    if items != [] {
      var n := |items| - 1;
      RejectAllCarries(m, q, items[..n]);
      assert items == items[..n] + [items[n]];
      var before := RejectAll(m, q, items[..n]);
      assert forall t :: t in RejectOne(before.m, before.q, items[n]).out ==> CarriesItem(t, items);
    }
  }

  // ---------------------------------------------------------------- the validator

  /** A rejection carries a listed control the validator refuses. */
  ghost predicate CarriesRefused(t: Transition, added: seq<DERControl>, validate: DERControl -> bool) {
    && t.next.Rejected? && t.evt.Some? && t.evt.value in added && t.evt.value.mrid == t.mrid
    && !validate(t.evt.value)
  }

  lemma {:induction false} ReceiveRefuses(m: Machine, added: seq<DERControl>, validate: DERControl -> bool)
    ensures var r := Receive(m, added, validate);
            && (forall x :: x in r.m.rejected <==>
                  x in m.rejected || exists c :: c in added && c.mrid == x && x !in m.rejected && !validate(c))
            && (forall t :: t in r.out ==> CarriesRefused(t, added, validate))
  {
    if added != [] {
      var n := |added| - 1;
      ReceiveRefuses(m, added[..n], validate);
      assert added == added[..n] + [added[n]];
      if !validate(added[n]) { assert added[n] in added; }
    }
  }

  lemma {:induction false} ReceiveAccepts(m: Machine, added: seq<DERControl>, validate: DERControl -> bool)
    requires forall i, j :: 0 <= i < j < |added| ==> added[i].mrid != added[j].mrid
    ensures var r := Receive(m, added, validate);
            forall c :: c in r.accepted <==> c in added && c.mrid !in m.rejected && validate(c)
  {
    if added != [] {
      var n := |added| - 1;
      var before := Receive(m, added[..n], validate);
      ReceiveAccepts(m, added[..n], validate);
      ReceiveRefuses(m, added[..n], validate);
      assert added == added[..n] + [added[n]];
      assert forall c :: c in added[..n] ==> c.mrid != added[n].mrid;
      assert added[n].mrid in before.m.rejected <==> added[n].mrid in m.rejected;
    }
  }

  lemma ReceiveExactly(m: Machine, added: seq<DERControl>, validate: DERControl -> bool)
    requires forall i, j :: 0 <= i < j < |added| ==> added[i].mrid != added[j].mrid
    ensures var r := Receive(m, added, validate);
            && (forall c :: c in r.accepted <==> c in added && c.mrid !in m.rejected && validate(c))
            && (forall x :: x in r.m.rejected <==>
                  x in m.rejected || exists c :: c in added && c.mrid == x && !validate(c))
            && (forall t :: t in r.out ==> CarriesRefused(t, added, validate))
  {
    ReceiveRefuses(m, added, validate);
    ReceiveAccepts(m, added, validate);
  }

  // ---------------------------------------------------------------- what is scheduled

  /** The entry's times lie in its own control's windows: the start in that of randomizeStart, the length
      in that of randomizeDuration, cut off at zero. */
  ghost predicate InItsWindows(e: ScheduledEvent) {
    && e.source.interval.Some?
    && InStartWindow(e.source.interval.value.start, e.source.randomizeStart, e.fireAt)
    && exists d :: InDurationWindow(e.source.interval.value.duration, e.source.randomizeDuration, d)
                   && e.expireAt == e.fireAt + (if d < 0 then 0 else d)
  }

  lemma NewEventInWindows(c: DERControl, draw: Draw)
    requires c.interval.Some?
    ensures InItsWindows(NewEvent(c, draw)) && NewEvent(c, draw).mrid == c.mrid && NewEvent(c, draw).source == c
  {
    StartStays(c.interval.value.start, c.randomizeStart, draw.start);
    DurationStays(c.interval.value.duration, c.randomizeDuration, draw.duration);
    var d := ApplyRandomizeDuration(c.interval.value.duration, c.randomizeDuration, draw.duration);
    assert NewEvent(c, draw).expireAt == NewEvent(c, draw).fireAt + (if d < 0 then 0 else d);
  }

  /** Every pair of times in the windows is some draw's, so the windows say all there is to say. */
  lemma AnyWindowReached(e: ScheduledEvent)
    requires InItsWindows(e) && e.mrid == e.source.mrid
    ensures exists draw :: NewEvent(e.source, draw) == e
  {
    var c := e.source;
    var d :| InDurationWindow(c.interval.value.duration, c.randomizeDuration, d)
             && e.expireAt == e.fireAt + (if d < 0 then 0 else d);
    StartWindowIsExact(c.interval.value.start, c.randomizeStart, e.fireAt);
    DurationWindowIsExact(c.interval.value.duration, c.randomizeDuration, d);
    var a: nat :| ApplyRandomizeStart(c.interval.value.start, c.randomizeStart, a) == e.fireAt;
    var b: nat :| ApplyRandomizeDuration(c.interval.value.duration, c.randomizeDuration, b) == d;
    assert NewEvent(c, Draw(a, b)) == e;
  }

  lemma {:induction false} AddAllSources(q: seq<ScheduledEvent>, events: seq<DERControl>, draws: nat -> Draw,
                                         e: ScheduledEvent)
    requires e in AddAll(q, events, draws)
    ensures e in q || (e.source in events && InItsWindows(e) && e.mrid == e.source.mrid)
  {
    if events != [] {
      var n := |events| - 1;
      assert events == events[..n] + [events[n]];
      var before := AddAll(q, events[..n], draws);
      if e in before {
        AddAllSources(q, events[..n], draws, e);
      } else if events[n].interval.Some? {
        RemoveShrinks(before, events[n].mrid);
        NewEventInWindows(events[n], draws(n));
      }
    }
  }

  lemma {:induction false} RemoveShrinks(q: seq<ScheduledEvent>, x: string)
    ensures forall e :: e in Remove(q, x) ==> e in q
  {
    if q != [] { RemoveShrinks(q[1..], x); }
  }

  lemma {:induction false} AddAllQueues(q: seq<ScheduledEvent>, events: seq<DERControl>, draws: nat -> Draw, k: nat)
    requires DistinctIDs(q) && forall e :: e in q ==> WellFormed(e)
    requires forall i, j :: 0 <= i < j < |events| ==> events[i].mrid != events[j].mrid
    requires k < |events| && events[k].interval.Some?
    ensures exists e :: e in AddAll(q, events, draws) && e.source == events[k] && e.mrid == events[k].mrid
  {
    var n := |events| - 1;
    var before := AddAll(q, events[..n], draws);
    AddAllContents(q, events[..n], draws);
    if k == n {
      assert NewEvent(events[n], draws(n)) in AddAll(q, events, draws);
    } else {
      AddAllQueues(q, events[..n], draws, k);
      var e :| e in before && e.source == events[k] && e.mrid == events[k].mrid;
      if events[n].interval.Some? { RemoveMembers(before, events[n].mrid); }
      assert e in AddAll(q, events, draws);
    }
  }

  lemma RequeuedSources(q: seq<ScheduledEvent>, accepted: seq<DERControl>, draws: nat -> Draw,
                        requeued: seq<ScheduledEvent>)
    requires Requeued(q, accepted, draws, requeued)
    ensures forall e :: e in requeued ==> e in q || (e.source in accepted && InItsWindows(e) && e.mrid == e.source.mrid)
  {
    if accepted != [] {
      forall e | e in requeued
        ensures e in q || (e.source in accepted && InItsWindows(e) && e.mrid == e.source.mrid)
      {
        assert e in multiset(requeued);
        AddAllSources(q, accepted, draws, e);
      }
    }
  }

  lemma RequeuedHolds(q: seq<ScheduledEvent>, accepted: seq<DERControl>, draws: nat -> Draw,
                      requeued: seq<ScheduledEvent>, c: DERControl)
    requires Requeued(q, accepted, draws, requeued) && ValidQueue(q)
    requires forall i, j :: 0 <= i < j < |accepted| ==> accepted[i].mrid != accepted[j].mrid
    requires c in accepted && c.interval.Some?
    ensures exists e :: e in requeued && e.source == c && e.mrid == c.mrid
  {
    var k :| 0 <= k < |accepted| && accepted[k] == c;
    AddAllQueues(q, accepted, draws, k);
    var e :| e in AddAll(q, accepted, draws) && e.source == c && e.mrid == c.mrid;
    assert e in multiset(requeued);
  }

  lemma {:induction false} AcceptedDistinct(m: Machine, added: seq<DERControl>, validate: DERControl -> bool)
    requires forall i, j :: 0 <= i < j < |added| ==> added[i].mrid != added[j].mrid
    ensures var a := Receive(m, added, validate).accepted;
            forall i, j :: 0 <= i < j < |a| ==> a[i].mrid != a[j].mrid
  {
    if added != [] {
      var n := |added| - 1;
      AcceptedDistinct(m, added[..n], validate);
      ReceiveExactly(m, added[..n], validate);
      var before := Receive(m, added[..n], validate).accepted;
      forall i | 0 <= i < |before| ensures before[i].mrid != added[n].mrid {
        assert before[i] in before && before[i] in added[..n];
      }
    }
  }

  // ---------------------------------------------------------------- the invariant

  /** Whatever is queued or active was let through by the validator, and keeps to its windows. */
  ghost predicate Sound(e: ScheduledEvent, validate: DERControl -> bool) {
    validate(e.source) && InItsWindows(e)
  }

  ghost predicate SoundMachine(m: Machine, validate: DERControl -> bool) {
    m.active.Some? ==> exists f :: Sound(ScheduledEvent(m.activeMRID, f, m.expireAt, m.active.value), validate)
  }

  ghost predicate Admitted(m: Machine, q: seq<ScheduledEvent>, validate: DERControl -> bool) {
    SoundMachine(m, validate) && forall e :: e in q ==> Sound(e, validate)
  }

  lemma ActivatedIsSound(m: Machine, head: ScheduledEvent, validate: DERControl -> bool)
    requires Sound(head, validate)
    ensures SoundMachine(Activate(m, head), validate)
  {
    assert head == ScheduledEvent(head.mrid, head.fireAt, head.expireAt, head.source);
  }

  lemma BeginningAdmits(m: Machine, q: seq<ScheduledEvent>, now: int, validate: DERControl -> bool)
    requires Admitted(m, q, validate)
    ensures Admitted(Beginning(m, q, now).m, Beginning(m, q, now).q, validate)
  {
    var due := Due(q, now);
    var rest := q[due..];
    assert forall e :: e in rest ==> e in q;
    if due > 0 {
      assert q[..due][0] in q;
      ActivatedIsSound(m, q[..due][0], validate);
      var seen := See(m, q[..due][0]).0;
      assert SoundMachine(seen, validate);
      ActivatedIsSound(seen, q[..due][0], validate);
      assert SoundMachine(Begin(seen, q[..due][0], now).0, validate);
    }
    var fired := Fire(m, q[..due], now).0;
    assert SoundMachine(fired, validate);
    if rest != [] {
      assert rest[0] in rest;
      ActivatedIsSound(fired, rest[0], validate);
    }
  }

  lemma AdvanceAdmits(m: Machine, q: seq<ScheduledEvent>, now: int, cancelled: seq<DERControl>, live: set<string>,
                      validate: DERControl -> bool)
    requires Fit(m, q, live) && Admitted(m, q, validate)
    ensures var a := Advance(m, q, now, cancelled); Admitted(a.m, a.q, validate)
  {
    CancelFit(m, q, cancelled, live);
    var e := Ending(m, q, now, cancelled);
    BeginningAdmits(e.m, e.q, now, validate);
  }

  lemma DiffAdmits(m: Machine, q: seq<ScheduledEvent>, prev: map<string, DERControl>, curr: map<string, DERControl>,
                   now: int, ch: Choices, validate: DERControl -> bool)
    requires Keyed(prev) && Keyed(curr) && Admitted(m, q, validate)
    requires Fit(m, q, Live(prev)) && ChoicesFit(ch, m, q, prev, curr, validate)
    ensures var t := DiffTick(m, q, prev, curr, now, ch, validate); Admitted(t.m, t.q, validate)
  {
    var added, cancelled := Pick(ch.added, prev, curr), Pick(ch.cancelled, prev, curr);
    DiffFresh(prev, curr, ch);
    ReceiveFit(m, q, added, Live(prev), validate, ch.draws, ch.requeued);
    ReceiveFacts(m, added, validate);
    ReceiveExactly(m, added, validate);
    var r := Receive(m, added, validate);
    RequeuedSources(q, r.accepted, ch.draws, ch.requeued);
    AdvanceAdmits(r.m, ch.requeued, now, cancelled, Live(prev) + IDsOf(added), validate);
  }

  lemma StepAdmits(s: Session, i: Input, validate: DERControl -> bool)
    requires Inv(s) && Enabled(s, i, validate) && Admitted(s.m, s.q, validate)
    ensures var t := Step(s, i, validate).0; Admitted(t.m, t.q, validate)
  {
    match i
    case Poll(list, now, ch) =>
      SnapshotFacts(list);
      RejectFit(s.m, s.q, list.rejected, Live(s.prev));
      RejectAllCarries(s.m, s.q, list.rejected);
      RejectAllShrinks(s.m, s.q, list.rejected, Live(s.prev));
      var r := RejectAll(s.m, s.q, list.rejected);
      DiffAdmits(r.m, r.q, s.prev, Snapshot(list), now, ch, validate);
    case Failed(now) =>
      FailedTick(s.m, s.q, now, validate);
      AdvanceAdmits(s.m, s.q, now, [], Live(s.prev), validate);
    case Switch(now, ch) =>
      DiffAdmits(s.m, s.q, s.prev, map[], now, ch, validate);
  }

  /** Main result: over every run, nothing the validator refuses is ever queued or active, and whatever is
      keeps to the windows of its own control. */
  lemma {:induction false} RunAdmits(ins: seq<Input>, validate: DERControl -> bool)
    requires Possible(START, ins, validate)
    ensures var s := Run(START, ins, validate).0; Admitted(s.m, s.q, validate)
  {
    if ins != [] {
      var before := ins[..|ins| - 1];
      RunAdmits(before, validate);
      StartFits();
      RunKeepsInv(START, before, validate);
      StepAdmits(Run(START, before, validate).0, ins[|ins| - 1], validate);
    }
  }

  // ---------------------------------------------------------------- exactly what is refused

  /** The poll lists `x` anew, and live. */
  ghost predicate NewlyListed(s: Session, i: Input, x: string) {
    i.Poll? && x in Snapshot(i.list) && x !in s.prev && Snapshot(i.list)[x].status != Some(2)
  }

  /** The reasons to reject `x`. */
  ghost predicate Refused(s: Session, i: Input, validate: DERControl -> bool, x: string) {
    || (i.Poll? && Undecodable(i.list.rejected, x))
    || (NewlyListed(s, i, x) && !validate(Snapshot(i.list)[x]))
  }

  /** A rejection carries the undecodable item, or the control that was refused. */
  ghost predicate CarriesReason(s: Session, i: Input, validate: DERControl -> bool, t: Transition) {
    && t.evt.Some? && t.evt.value.mrid == t.mrid && i.Poll?
    && (|| (t.evt.value in i.list.rejected && !IsCancelled(t.evt.value))
        || (NewlyListed(s, i, t.mrid) && t.evt.value == Snapshot(i.list)[t.mrid] && !validate(t.evt.value)))
  }

  lemma PickExactly(prev: map<string, DERControl>, curr: map<string, DERControl>, keys: seq<string>)
    requires Keyed(prev) && Keyed(curr) && Lists(keys, AddedKeys(prev, curr))
    ensures forall c :: c in Pick(keys, prev, curr) <==>
                          c.mrid in curr && c.mrid !in prev && curr[c.mrid] == c && !IsCancelled(c)
  {
    var added := Pick(keys, prev, curr);
    forall c | c in added ensures c.mrid in curr && c.mrid !in prev && curr[c.mrid] == c && !IsCancelled(c) {
      var k :| 0 <= k < |added| && added[k] == c;
      assert keys[k] in keys;
    }
    forall c: DERControl | c.mrid in curr && c.mrid !in prev && curr[c.mrid] == c && !IsCancelled(c)
      ensures c in added
    {
      assert c.mrid in keys;
      var k :| 0 <= k < |keys| && keys[k] == c.mrid;
      assert added[k] == c;
    }
  }

  lemma DiffRejects(m: Machine, q: seq<ScheduledEvent>, prev: map<string, DERControl>, curr: map<string, DERControl>,
                    now: int, ch: Choices, validate: DERControl -> bool)
    requires Keyed(prev) && Keyed(curr)
    requires Fit(m, q, Live(prev)) && ChoicesFit(ch, m, q, prev, curr, validate)
    ensures var t := DiffTick(m, q, prev, curr, now, ch, validate);
            && (forall x :: x in t.m.rejected <==>
                  x in m.rejected
                  || (x in curr && x !in prev && !IsCancelled(curr[x]) && !validate(curr[x])))
            && (forall k :: k in t.out && k.next.Rejected? ==>
                  && k.mrid in curr && k.mrid !in prev && k.evt == Some(curr[k.mrid])
                  && !IsCancelled(curr[k.mrid]) && !validate(curr[k.mrid]))
  {
    var added, cancelled := Pick(ch.added, prev, curr), Pick(ch.cancelled, prev, curr);
    DiffFresh(prev, curr, ch);
    PickExactly(prev, curr, ch.added);
    ReceiveFit(m, q, added, Live(prev), validate, ch.draws, ch.requeued);
    ReceiveExactly(m, added, validate);
    var r := Receive(m, added, validate);
    var live := Live(prev) + IDsOf(added);
    AdvanceFit(r.m, ch.requeued, now, cancelled, live);
    AdvanceRecordsLive(r.m, ch.requeued, now, cancelled, live);
    forall x | x in curr && x !in prev && !IsCancelled(curr[x]) && !validate(curr[x]) ensures x in r.m.rejected {
      assert curr[x] in added;
    }
  }

  /** Main result: an input rejects an mRID exactly when it was rejected before, an undecodable item names
      it, or it is newly listed, live, and refused by the validator; then with exactly one record. */
  lemma RejectedExactly(s: Session, i: Input, validate: DERControl -> bool, x: string)
    requires Inv(s) && Enabled(s, i, validate) && x != ""
    ensures var t := Step(s, i, validate);
            && (x in t.0.m.rejected <==> x in s.m.rejected || Refused(s, i, validate, x))
            && Rejections(t.1, x) == if x !in s.m.rejected && Refused(s, i, validate, x) then 1 else 0
  {
    StepCounts(s, i, validate, x);
    match i
    case Poll(list, now, ch) =>
      SnapshotFacts(list);
      RejectFit(s.m, s.q, list.rejected, Live(s.prev));
      RejectAllExactly(s.m, s.q, list.rejected, x);
      var r := RejectAll(s.m, s.q, list.rejected);
      DiffRejects(r.m, r.q, s.prev, Snapshot(list), now, ch, validate);
    case Failed(now) =>
      FailedTick(s.m, s.q, now, validate);
      AdvanceFit(s.m, s.q, now, [], Live(s.prev));
    case Switch(now, ch) =>
      DiffRejects(s.m, s.q, s.prev, map[], now, ch, validate);
  }

  /** Main result: every rejection carries its reason. */
  lemma RejectionsCarryReasons(s: Session, i: Input, validate: DERControl -> bool)
    requires Inv(s) && Enabled(s, i, validate)
    ensures forall t :: t in Step(s, i, validate).1 && t.next.Rejected? ==> CarriesReason(s, i, validate, t)
  {
    match i
    case Poll(list, now, ch) =>
      SnapshotFacts(list);
      RejectFit(s.m, s.q, list.rejected, Live(s.prev));
      RejectAllCarries(s.m, s.q, list.rejected);
      var r := RejectAll(s.m, s.q, list.rejected);
      DiffRejects(r.m, r.q, s.prev, Snapshot(list), now, ch, validate);
    case Failed(now) =>
      FailedTick(s.m, s.q, now, validate);
      AdvanceRecordsLive(s.m, s.q, now, [], Live(s.prev));
    case Switch(now, ch) =>
      DiffRejects(s.m, s.q, s.prev, map[], now, ch, validate);
  }

  // ---------------------------------------------------------------- exactly what is scheduled

  ghost predicate Holds(q: seq<ScheduledEvent>, c: DERControl) {
    exists e :: e in q && e.mrid == c.mrid && e.source == c
  }

  lemma RequeuedExactly(m: Machine, q: seq<ScheduledEvent>, added: seq<DERControl>, draws: nat -> Draw,
                        requeued: seq<ScheduledEvent>, validate: DERControl -> bool, c: DERControl)
    requires ValidQueue(q) && forall e :: e in q ==> e.mrid != c.mrid
    requires forall i, j :: 0 <= i < j < |added| ==> added[i].mrid != added[j].mrid
    requires c in added && c.mrid !in m.rejected
    requires Requeued(q, Receive(m, added, validate).accepted, draws, requeued)
    ensures Holds(requeued, c) <==> validate(c) && c.interval.Some?
    ensures Queued(requeued, c.mrid) ==> Holds(requeued, c)
  {
    ReceiveExactly(m, added, validate);
    AcceptedDistinct(m, added, validate);
    var accepted := Receive(m, added, validate).accepted;
    if validate(c) && c.interval.Some? { RequeuedHolds(q, accepted, draws, requeued, c); }
    RequeuedSources(q, accepted, draws, requeued);
    forall e | e in requeued && e.mrid == c.mrid ensures e.source == c && validate(c) && c.interval.Some? {
      assert e.source in added;
    }
  }

  lemma DiffQueues(m: Machine, q: seq<ScheduledEvent>, prev: map<string, DERControl>, curr: map<string, DERControl>,
                   now: int, ch: Choices, validate: DERControl -> bool, x: string)
    requires Keyed(prev) && Keyed(curr)
    requires Fit(m, q, Live(prev)) && ChoicesFit(ch, m, q, prev, curr, validate)
    requires x in curr && x !in prev && !IsCancelled(curr[x]) && x !in m.rejected
    ensures var e := Ending(Receive(m, Pick(ch.added, prev, curr), validate).m, ch.requeued, now,
                            Pick(ch.cancelled, prev, curr));
            && (Holds(e.q, curr[x]) <==> validate(curr[x]) && curr[x].interval.Some?)
            && (Queued(e.q, x) ==> Holds(e.q, curr[x]))
  {
    var added, cancelled := Pick(ch.added, prev, curr), Pick(ch.cancelled, prev, curr);
    DiffFresh(prev, curr, ch);
    PickExactly(prev, curr, ch.added);
    ReceiveFit(m, q, added, Live(prev), validate, ch.draws, ch.requeued);
    RequeuedExactly(m, q, added, ch.draws, ch.requeued, validate, curr[x]);
    EndingHolds(Receive(m, added, validate).m, ch.requeued, now, cancelled, Live(prev) + IDsOf(added), curr[x]);
  }

  lemma EndingHolds(m: Machine, q: seq<ScheduledEvent>, now: int, cancelled: seq<DERControl>, live: set<string>,
                    c: DERControl)
    requires Fit(m, q, live) && c.mrid !in Index(cancelled)
    ensures var e := Ending(m, q, now, cancelled).q;
            (Holds(e, c) <==> Holds(q, c)) && (Queued(e, c.mrid) ==> Queued(q, c.mrid))
  {
    CancelFit(m, q, cancelled, live);
  }

  /** Main result: a newly listed, live control not rejected before is in the queue that is drained exactly
      when the validator lets it through and it has an interval, and then as it was listed. */
  lemma ScheduledExactly(s: Session, i: Input, validate: DERControl -> bool, x: string)
    requires Inv(s) && Enabled(s, i, validate) && NewlyListed(s, i, x) && x !in s.m.rejected
    ensures var c, p := Snapshot(i.list)[x], BeforePop(s, i, validate);
            && (Holds(p.q, c) <==> validate(c) && c.interval.Some?)
            && (Queued(p.q, x) ==> Holds(p.q, c))
  {
    SnapshotFacts(i.list);
    RejectFit(s.m, s.q, i.list.rejected, Live(s.prev));
    RejectAllExactly(s.m, s.q, i.list.rejected, x);
    var r := RejectAll(s.m, s.q, i.list.rejected);
    DiffQueues(r.m, r.q, s.prev, Snapshot(i.list), i.now, i.ch, validate, x);
  }
}
