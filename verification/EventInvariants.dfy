/** What every step of a control session keeps. */
module EventInvariants {
  import opened Common
  import opened Scheduling
  import opened Lifecycle
  import opened ControlSession

  // ---------------------------------------------------------------- the invariant

  /** Machine and queue agree with each other and with the set of live mRIDs: listed, not cancelled. */
  ghost predicate Fit(m: Machine, q: seq<ScheduledEvent>, live: set<string>) {
    && ValidQueue(q)
    && (forall e :: e in q ==> e.mrid in live && e.mrid != "" && e.mrid !in m.rejected)
    && (m.state.Default? || m.state.Received? || m.state.Started?)
    && (m.state.Default? ==> m.activeMRID == "" && m.active == None && m.expireAt == NO_TIME)
    && (!m.state.Default? ==>
          && m.activeMRID in live && m.activeMRID != "" && m.activeMRID !in m.rejected
          && m.active.Some? && m.active.value.mrid == m.activeMRID)
    && (m.state.Started? ==> forall e :: e in q ==> e.mrid != m.activeMRID)
    && (m.state.Received? ==>
          forall e :: e in q && e.mrid == m.activeMRID ==> m.active == Some(e.source) && m.expireAt == e.expireAt)
  }

  ghost function Live(s: map<string, DERControl>): set<string> {
    set k | k in s && s[k].status != Some(2)
  }

  /** The whole-session invariant: holds before and after every input. */
  ghost predicate Inv(s: Session) {
    && Keyed(s.prev)
    && Fit(s.m, s.q, Live(s.prev))
    && (s.m.state.Default? ==> s.q == [])
  }

  /** What a tick at `now` leaves: nothing due, and no started event past its end. */
  ghost predicate UpToDate(s: Session, now: int) {
    && (forall e :: e in s.q ==> e.fireAt > now)
    && (s.m.state.Started? ==> now < s.m.expireAt || s.m.expireAt == NO_TIME)
  }

  lemma FitWeaken(m: Machine, q: seq<ScheduledEvent>, live: set<string>, live': set<string>)
    requires Fit(m, q, live) && live <= live'
    ensures Fit(m, q, live')
  {
  }

  // ---------------------------------------------------------------- the phases

  lemma RejectOneFit(m: Machine, q: seq<ScheduledEvent>, item: DERControl, live: set<string>)
    requires Fit(m, q, live)
    ensures var r := RejectOne(m, q, item); Fit(r.m, r.q, live) && m.rejected <= r.m.rejected
  {
    RemoveOne(q, item.mrid);
  }

  lemma {:induction false} RejectFit(m: Machine, q: seq<ScheduledEvent>, items: seq<DERControl>, live: set<string>)
    requires Fit(m, q, live)
    ensures var r := RejectAll(m, q, items); Fit(r.m, r.q, live) && m.rejected <= r.m.rejected
  {
    if items != [] {
      var n := |items| - 1;
      RejectFit(m, q, items[..n], live);
      var before := RejectAll(m, q, items[..n]);
      RejectOneFit(before.m, before.q, items[n], live);
    }
  }

  /** Additions come with distinct mRIDs none of which is live yet. */
  ghost predicate Fresh(added: seq<DERControl>, live: set<string>) {
    && (forall i, j :: 0 <= i < j < |added| ==> added[i].mrid != added[j].mrid)
    && (forall i :: 0 <= i < |added| ==> added[i].mrid != "" && added[i].mrid !in live)
  }

  ghost function IDsOf(controls: seq<DERControl>): set<string> {
    set c | c in controls :: c.mrid
  }

  lemma {:induction false} ReceiveFacts(m: Machine, added: seq<DERControl>, validate: DERControl -> bool)
    requires forall i, j :: 0 <= i < j < |added| ==> added[i].mrid != added[j].mrid
    ensures var r := Receive(m, added, validate);
            && r.m == m.(rejected := r.m.rejected)
            && m.rejected <= r.m.rejected
            && r.m.rejected <= m.rejected + IDsOf(added)
            && (forall c :: c in r.accepted ==> c in added && c.mrid !in r.m.rejected)
  {
    if added != [] {
      var n := |added| - 1;
      ReceiveFacts(m, added[..n], validate);
      var before := Receive(m, added[..n], validate);
      var r := Receive(m, added, validate);
      assert added[n] in added && forall c :: c in added[..n] ==> c in added;
      forall c | c in before.accepted ensures c in added && c.mrid != added[n].mrid {
        var i :| 0 <= i < n && added[..n][i] == c;
        assert added[i] == c;
      }
    }
  }

  /** Phase 1: the additions join the live set, and the queue may hold them. */
  lemma ReceiveFit(m: Machine, q: seq<ScheduledEvent>, added: seq<DERControl>, live: set<string>,
                   validate: DERControl -> bool, draws: nat -> Draw, requeued: seq<ScheduledEvent>)
    requires Fit(m, q, live) && Fresh(added, live)
    requires Requeued(q, Receive(m, added, validate).accepted, draws, requeued)
    ensures Fit(Receive(m, added, validate).m, requeued, live + IDsOf(added))
    ensures forall e :: e in requeued ==> e in q || exists c :: c in added && c.mrid == e.mrid
    ensures forall e :: e in q ==> e in requeued
  {
    ReceiveFacts(m, added, validate);
    var r := Receive(m, added, validate);
    var all := live + IDsOf(added);
    assert live !! IDsOf(added);
    if r.accepted == [] {
      return;
    }
    AddedQueue(q, r.accepted, draws, requeued);
    PutKeys(Table(q), r.accepted, draws);
    forall e | e in requeued
      ensures e in q || exists c :: c in added && c.mrid == e.mrid
      ensures e.mrid in all && e.mrid != "" && e.mrid !in r.m.rejected
      ensures m.state.Started? ==> e.mrid != m.activeMRID
    {
      QueuedOrAccepted(q, r.accepted, draws, requeued, e);
    }
    forall e | e in q ensures e in requeued {
      StaysQueued(q, r.accepted, draws, requeued, e);
    }
  }

  lemma QueuedOrAccepted(q: seq<ScheduledEvent>, accepted: seq<DERControl>, draws: nat -> Draw,
                         requeued: seq<ScheduledEvent>,
                         e: ScheduledEvent)
    requires ValidQueue(q) && IsSortOf(requeued, AddAll(q, accepted, draws)) && e in requeued
    ensures e in q || exists c :: c in accepted && c.mrid == e.mrid
  {
    AddedQueue(q, accepted, draws, requeued);
    PutKeys(Table(q), accepted, draws);
    assert e.mrid in Table(requeued) && Table(requeued)[e.mrid] == e;
    if forall i :: 0 <= i < |accepted| ==> accepted[i].mrid != e.mrid {
      assert Table(q)[e.mrid] == e;
    }
  }

  lemma StaysQueued(q: seq<ScheduledEvent>, accepted: seq<DERControl>, draws: nat -> Draw,
                    requeued: seq<ScheduledEvent>,
                    e: ScheduledEvent)
    requires ValidQueue(q) && IsSortOf(requeued, AddAll(q, accepted, draws)) && e in q
    requires forall c :: c in accepted ==> c.mrid != e.mrid
    ensures e in requeued
  {
    AddedQueue(q, accepted, draws, requeued);
    PutKeys(Table(q), accepted, draws);
    assert e.mrid in Table(q) && Table(q)[e.mrid] == e;
    assert e.mrid in Table(requeued) && Table(requeued)[e.mrid] == e;
  }

  lemma {:induction false} IndexFacts(cancelled: seq<DERControl>)
    ensures forall k :: k in Index(cancelled) <==> k in NonEmptyIDs(cancelled)
    ensures forall k :: k in Index(cancelled) ==> Index(cancelled)[k] in cancelled && Index(cancelled)[k].mrid == k
    ensures forall c :: c in cancelled && c.mrid != "" ==> c.mrid in Index(cancelled)
  {
    if cancelled != [] {
      var n := |cancelled| - 1;
      IndexFacts(cancelled[..n]);
      assert cancelled == cancelled[..n] + [cancelled[n]];
    }
  }

  lemma CancelFit(m: Machine, q: seq<ScheduledEvent>, cancelled: seq<DERControl>, live: set<string>)
    requires Fit(m, q, live)
    ensures var c := Cancel(m, q, cancelled);
            && Fit(c.m, c.q, live - Index(cancelled).Keys)
            && c.m.rejected == m.rejected
            && (forall e :: e in c.q <==> e in q && e.mrid !in Index(cancelled))
  {
    IndexFacts(cancelled);
    RemoveAllContents(q, NonEmptyIDs(cancelled));
  }

  /** Phases 3 to 5. */
  lemma AdvanceFit(m: Machine, q: seq<ScheduledEvent>, now: int, cancelled: seq<DERControl>, live: set<string>)
    requires Fit(m, q, live)
    ensures var a := Advance(m, q, now, cancelled);
            && Fit(a.m, a.q, live - Index(cancelled).Keys)
            && a.m.rejected == m.rejected
            && (a.m.state.Default? ==> a.q == [])
            && (forall e :: e in a.q ==> e.fireAt > now && e in q)
            && (a.m.state.Started? ==> !PastExpiry(a.m, now))
  {
    CancelFit(m, q, cancelled, live);
    var e := Ending(m, q, now, cancelled);
    BeginningFit(e.m, e.q, now, live - Index(cancelled).Keys);
  }

  lemma BeginningFit(m: Machine, q: seq<ScheduledEvent>, now: int, live: set<string>)
    requires Fit(m, q, live) && (m.state.Started? ==> !PastExpiry(m, now))
    ensures var b := Beginning(m, q, now);
            && Fit(b.m, b.q, live)
            && b.m.rejected == m.rejected
            && (b.m.state.Default? ==> b.q == [])
            && (forall e :: e in b.q ==> e.fireAt > now && e in q)
            && (b.m.state.Started? ==> !PastExpiry(b.m, now))
  {
    DueSplits(q, now);
    FireFit(m, q, Due(q, now), now, live);
  }

  lemma FireFit(m: Machine, q: seq<ScheduledEvent>, due: nat, now: int, live: set<string>)
    requires Fit(m, q, live) && due <= |q|
    requires ValidQueue(q[due..])
    requires m.state.Started? ==> !PastExpiry(m, now)
    ensures var f := Fire(m, q[..due], now).0;
            && Fit(f, q[due..], live) && f.rejected == m.rejected
            && (f.state.Started? ==> !PastExpiry(f, now))
  {
    if due > 0 {
      var head := q[..due][0];
      assert head == q[0] && head in q;
      forall e | e in q[due..] ensures e.mrid != head.mrid && e in q {
        var i :| 0 <= i < |q| - due && q[due..][i] == e;
        assert q[due + i] == e;
      }
    }
  }

  // ---------------------------------------------------------------- the step

  /** A tick fed a snapshot difference takes a session that fits `prev` to one that fits `curr`. */
  lemma DiffTickFit(m: Machine, q: seq<ScheduledEvent>, prev: map<string, DERControl>, curr: map<string, DERControl>,
                    now: int, ch: Choices, validate: DERControl -> bool)
    requires Keyed(prev) && Keyed(curr)
    requires Fit(m, q, Live(prev)) && ChoicesFit(ch, m, q, prev, curr, validate)
    ensures var t := DiffTick(m, q, prev, curr, now, ch, validate);
            && Inv(Session(t.m, t.q, curr))
            && UpToDate(Session(t.m, t.q, curr), now)
            && m.rejected <= t.m.rejected
  {
    var added := Pick(ch.added, prev, curr);
    var cancelled := Pick(ch.cancelled, prev, curr);
    DiffFresh(prev, curr, ch);
    ReceiveFit(m, q, added, Live(prev), validate, ch.draws, ch.requeued);
    ReceiveFacts(m, added, validate);
    var all := Live(prev) + IDsOf(added);
    AdvanceFit(Receive(m, added, validate).m, ch.requeued, now, cancelled, all);
    FitWeaken(DiffTick(m, q, prev, curr, now, ch, validate).m, DiffTick(m, q, prev, curr, now, ch, validate).q,
              all - Index(cancelled).Keys, Live(curr));
  }

  lemma DiffFresh(prev: map<string, DERControl>, curr: map<string, DERControl>, ch: Choices)
    requires Keyed(prev) && Keyed(curr)
    requires Lists(ch.added, AddedKeys(prev, curr)) && Lists(ch.cancelled, CancelledKeys(prev, curr))
    ensures Fresh(Pick(ch.added, prev, curr), Live(prev))
    ensures IDsOf(Pick(ch.added, prev, curr)) == AddedKeys(prev, curr)
    ensures Index(Pick(ch.cancelled, prev, curr)).Keys == CancelledKeys(prev, curr)
    ensures Live(prev) + AddedKeys(prev, curr) - CancelledKeys(prev, curr) <= Live(curr)
  {
    FreshFacts(prev, curr, ch.added);
    IndexOfPick(ch.cancelled, CancelledKeys(prev, curr), prev, curr);
  }

  lemma FreshFacts(prev: map<string, DERControl>, curr: map<string, DERControl>, keys: seq<string>)
    requires Keyed(prev) && Keyed(curr) && Lists(keys, AddedKeys(prev, curr))
    ensures Fresh(Pick(keys, prev, curr), Live(prev))
    ensures IDsOf(Pick(keys, prev, curr)) == AddedKeys(prev, curr)
  {
    PickFacts(keys, prev, curr);
    forall i | 0 <= i < |keys| ensures keys[i] != "" && keys[i] !in prev {
      assert keys[i] in keys;
    }
  }

  lemma IndexOfPick(keys: seq<string>, listed: set<string>, prev: map<string, DERControl>,
                    curr: map<string, DERControl>)
    requires Keyed(prev) && Keyed(curr) && Lists(keys, listed)
    requires forall k :: k in keys ==> k in prev || k in curr
    ensures Index(Pick(keys, prev, curr)).Keys == listed
  {
    var p := Pick(keys, prev, curr);
    PickFacts(keys, prev, curr);
    IndexFacts(p);
    assert IDsOf(p) == listed;
    forall k | k in listed ensures k in Index(p) {
      assert k in IDsOf(p);
      assert k != "" by {
        var i :| 0 <= i < |keys| && keys[i] == k;
      }
    }
    forall k | k in Index(p) ensures k in listed {
      assert Index(p)[k] in p;
    }
  }

  lemma PickFacts(keys: seq<string>, prev: map<string, DERControl>, curr: map<string, DERControl>)
    requires Keyed(prev) && Keyed(curr)
    requires forall k :: k in keys ==> k in prev || k in curr
    ensures forall i :: 0 <= i < |keys| ==> Pick(keys, prev, curr)[i].mrid == keys[i] != ""
    ensures IDsOf(Pick(keys, prev, curr)) == (set k | k in keys)
  {
    var p := Pick(keys, prev, curr);
    forall i | 0 <= i < |keys| ensures p[i].mrid == keys[i] != "" {
      assert keys[i] in keys;
    }
    forall k | k in keys ensures exists c :: c in p && c.mrid == k {
      var i :| 0 <= i < |keys| && keys[i] == k;
      assert p[i] in p;
    }
  }

  lemma FailedTick(m: Machine, q: seq<ScheduledEvent>, now: int, validate: DERControl -> bool)
    ensures TickOn(m, q, now, [], [], validate) == Advance(m, q, now, [])
    ensures Index([]) == map[]
  {
    assert [] + Advance(m, q, now, []).out == Advance(m, q, now, []).out;
  }

  /** Main result: every input keeps the invariant and leaves nothing overdue. */
  lemma StepKeepsInv(s: Session, i: Input, validate: DERControl -> bool)
    requires Inv(s) && Enabled(s, i, validate)
    ensures Inv(Step(s, i, validate).0)
    ensures UpToDate(Step(s, i, validate).0, i.now)
    ensures s.m.rejected <= Step(s, i, validate).0.m.rejected
  {
    match i
    case Poll(list, now, ch) =>
      SnapshotFacts(list);
      RejectFit(s.m, s.q, list.rejected, Live(s.prev));
      var r := RejectAll(s.m, s.q, list.rejected);
      DiffTickFit(r.m, r.q, s.prev, Snapshot(list), now, ch, validate);
    case Failed(now) =>
      FailedTick(s.m, s.q, now, validate);
      AdvanceFit(s.m, s.q, now, [], Live(s.prev));
    case Switch(now, ch) =>
      DiffTickFit(s.m, s.q, s.prev, map[], now, ch, validate);
  }
}
