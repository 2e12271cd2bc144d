/** Runs that lead where one would not expect: a waiting event is lost, a started one has no end. */
module ReachableRuns {
  import opened Common
  import opened Scheduling
  import opened Lifecycle
  import opened ControlSession
  import opened EventInvariants
  import opened EventTrails
  import opened EventGuarantees
  import opened DroppedEvents

  function NoDraw(i: nat): Draw { Draw(0, 0) }
  function AcceptAny(c: DERControl): bool { true }

  /** A scheduled control without randomization. */
  ghost predicate Plain(c: DERControl) {
    && c.mrid != "" && c.interval.Some? && !IsCancelled(c)
    && c.randomizeStart == None && c.randomizeDuration == None
  }

  ghost function Entry(c: DERControl): ScheduledEvent
    requires Plain(c)
  {
    NewEvent(c, Draw(0, 0))
  }

  ghost function Waiting(c: DERControl): Machine
    requires Plain(c)
  {
    Machine(Received, c.mrid, Some(c), Entry(c).expireAt, {})
  }

  ghost function PollOf(controls: seq<DERControl>, now: int, c: DERControl, requeued: seq<ScheduledEvent>): Input {
    Poll(ListResult(controls, []), now, Choices([c.mrid], [], NoDraw, requeued))
  }

  /** A poll that adds one control and cancels nothing. */
  lemma PollAddsOne(s: Session, controls: seq<DERControl>, now: int, c: DERControl, requeued: seq<ScheduledEvent>)
    requires Plain(c) && s.m.rejected == {} && c.mrid !in s.prev
    requires ByID(controls) == s.prev[c.mrid := c]
    requires forall k :: k in s.prev ==> !IsCancelled(s.prev[k])
    requires IsSortOf(requeued, Remove(s.q, c.mrid) + [Entry(c)])
    ensures var i := PollOf(controls, now, c, requeued);
            && Enabled(s, i, AcceptAny)
            && Step(s, i, AcceptAny).0 ==
               (var a := Advance(s.m, requeued, now, []); Session(a.m, a.q, s.prev[c.mrid := c]))
  {
    var i := PollOf(controls, now, c, requeued);
    var curr := s.prev[c.mrid := c];
    assert Snapshot(i.list) == curr;
    assert RejectAll(s.m, s.q, []) == Outcome(s.m, s.q, []);
    assert AddedKeys(s.prev, curr) == {c.mrid} && CancelledKeys(s.prev, curr) == {};
    assert Pick([c.mrid], s.prev, curr) == [c] && Pick([], s.prev, curr) == [];
    ReceivesOne(s.m, s.q, c);
  }

  lemma ReceivesOne(m: Machine, q: seq<ScheduledEvent>, c: DERControl)
    requires Plain(c) && m.rejected == {}
    ensures Receive(m, [c], AcceptAny) == Receipt(m, [c], [])
    ensures AddAll(q, [c], NoDraw) == Remove(q, c.mrid) + [Entry(c)]
  {
    assert [c][..0] == [];
  }

  /** Nothing ends and nothing is due: the machine only looks at the queue's head. */
  lemma QuietAdvance(m: Machine, q: seq<ScheduledEvent>, now: int)
    requires !m.state.Started? && q != [] && q[0].fireAt > now
    ensures Advance(m, q, now, []).m == Observe(m, q).0 && Advance(m, q, now, []).q == q
  {
    assert Cancel(m, q, []) == Outcome(m, q, []);
    assert q[..0] == [] && q[0..] == q;
  }

  /** A run that loses the waiting `a`: `b` is listed later but fires earlier, and by the next tick both
      are due. Both are popped, and the one in front is not the awaited one. */
  lemma BothDropped(a: DERControl, b: DERControl, now: int)
    requires Plain(a) && Plain(b) && a.mrid != b.mrid
    requires Entry(b).fireAt <= now && Entry(a).fireAt <= now
    ensures Advance(Waiting(a), [Entry(b), Entry(a)], now, []).m == Waiting(a)
    ensures Advance(Waiting(a), [Entry(b), Entry(a)], now, []).q == []
  {
    var q := [Entry(b), Entry(a)];
    assert Cancel(Waiting(a), q, []) == Outcome(Waiting(a), q, []);
    assert q[1..] == [Entry(a)] && [Entry(a)][1..] == [];
    assert Due([Entry(a)], now) == 1;
    assert Due(q, now) == 2;
    assert q[..2][0] == Entry(b) && q[2..] == [];
  }

  lemma RunExtends(ins: seq<Input>, i: Input, mid: Session, end: Session)
    requires Possible(START, ins, AcceptAny) && Run(START, ins, AcceptAny).0 == mid
    requires Enabled(mid, i, AcceptAny) && Step(mid, i, AcceptAny).0 == end
    ensures Possible(START, ins + [i], AcceptAny) && Run(START, ins + [i], AcceptAny).0 == end
  {
    assert (ins + [i])[..|ins + [i]| - 1] == ins;
  }

  ghost predicate Reachable(s: Session) {
    exists ins :: Possible(START, ins, AcceptAny) && Run(START, ins, AcceptAny).0 == s
  }

  lemma ReachableFits(s: Session)
    requires Reachable(s)
    ensures Inv(s)
  {
    var ins :| Possible(START, ins, AcceptAny) && Run(START, ins, AcceptAny).0 == s;
    StartFits();
    RunKeepsInv(START, ins, AcceptAny);
  }

  lemma ReachesOneMore(i: Input, mid: Session, end: Session)
    requires Reachable(mid) && Enabled(mid, i, AcceptAny) && Step(mid, i, AcceptAny).0 == end
    ensures Reachable(end)
  {
    var ins :| Possible(START, ins, AcceptAny) && Run(START, ins, AcceptAny).0 == mid;
    RunExtends(ins, i, mid, end);
  }

  lemma TwoSnapshots(a: DERControl, b: DERControl)
    requires Plain(a) && Plain(b)
    ensures ByID([a]) == map[a.mrid := a]
    ensures ByID([a, b]) == map[a.mrid := a][b.mrid := b]
  {
    assert [a][..0] == [] && [a, b][..1] == [a];
  }

  lemma FirstReceived(a: DERControl, now: int)
    requires Plain(a) && now < Entry(a).fireAt
    ensures Reachable(Session(Waiting(a), [Entry(a)], map[a.mrid := a]))
  {
    assert Possible(START, [], AcceptAny) && Run(START, [], AcceptAny).0 == START;
    assert [a][..0] == [];
    assert ByID([a]) == map[a.mrid := a];
    PollAddsOne(START, [a], now, a, [Entry(a)]);
    QuietAdvance(INITIAL, [Entry(a)], now);
    ReachesOneMore(PollOf([a], now, a, [Entry(a)]), START, Session(Waiting(a), [Entry(a)], map[a.mrid := a]));
  }

  lemma SecondQueuedInFront(a: DERControl, b: DERControl, now: int)
    requires Plain(a) && Plain(b) && a.mrid != b.mrid && now < Entry(b).fireAt < Entry(a).fireAt
    ensures Reachable(Session(Waiting(a), [Entry(b), Entry(a)], map[a.mrid := a][b.mrid := b]))
  {
    FirstReceived(a, now);
    TwoSnapshots(a, b);
    var s := Session(Waiting(a), [Entry(a)], map[a.mrid := a]);
    var q := [Entry(b), Entry(a)];
    RemoveAbsent([Entry(a)], b.mrid);
    assert multiset(q) == multiset([Entry(a)] + [Entry(b)]);
    PollAddsOne(s, [a, b], now, b, q);
    QuietAdvance(Waiting(a), q, now);
    ReachesOneMore(PollOf([a, b], now, b, q), s, Session(Waiting(a), q, s.prev[b.mrid := b]));
  }

  /** Main result: without the single-event scope a received event can be lost. For any two plain
      controls, `b` firing before `a`, a reachable run ends waiting for `a` with an empty queue,
      which by StrandedBlocksEverything lasts as long as `a` is offered. */
  lemma WaitingEventLost(a: DERControl, b: DERControl)
    requires Plain(a) && Plain(b) && a.mrid != b.mrid && Entry(b).fireAt < Entry(a).fireAt
    ensures Reachable(Session(Waiting(a), [], map[a.mrid := a][b.mrid := b]))
    ensures Stranded(Waiting(a), [])
  {
    SecondQueuedInFront(a, b, Entry(b).fireAt - 1);
    var s := Session(Waiting(a), [Entry(b), Entry(a)], map[a.mrid := a][b.mrid := b]);
    var now := Entry(a).fireAt;
    FailedTick(s.m, s.q, now, AcceptAny);
    BothDropped(a, b, now);
    ReachesOneMore(Failed(now), s, Session(Waiting(a), [], s.prev));
  }

  // ---------------------------------------------------------------- events lost behind a busy machine

  ghost function Running(c: DERControl): Machine
    requires Plain(c)
  {
    Machine(Started, c.mrid, Some(c), Entry(c).expireAt, {})
  }

  lemma StartsAndStays(c: DERControl, now: int)
    requires Plain(c) && Entry(c).fireAt <= now && !PastExpiry(Running(c), now)
    ensures Advance(INITIAL, [Entry(c)], now, []).m == Running(c)
    ensures Advance(INITIAL, [Entry(c)], now, []).q == []
  {
    var q := [Entry(c)];
    assert Cancel(INITIAL, q, []) == Outcome(INITIAL, q, []);
    assert q[1..] == [] && q[..1][0] == Entry(c);
    assert Due(q, now) == 1;
  }

  /** A machine with a started event leaves the queue alone but for what is due. */
  lemma BusyAdvance(m: Machine, q: seq<ScheduledEvent>, now: int)
    requires m.state.Started? && !PastExpiry(m, now)
    ensures Advance(m, q, now, []).m == m && Advance(m, q, now, []).q == q[Due(q, now)..]
  {
    assert Cancel(m, q, []) == Outcome(m, q, []);
    StartedBegins(m, q, now);
  }

  lemma FirstStarts(a: DERControl, now: int)
    requires Plain(a) && Entry(a).fireAt <= now && !PastExpiry(Running(a), now)
    ensures Reachable(Session(Running(a), [], map[a.mrid := a]))
  {
    assert Possible(START, [], AcceptAny) && Run(START, [], AcceptAny).0 == START;
    assert [a][..0] == [];
    assert ByID([a]) == map[a.mrid := a];
    PollAddsOne(START, [a], now, a, [Entry(a)]);
    StartsAndStays(a, now);
    ReachesOneMore(PollOf([a], now, a, [Entry(a)]), START, Session(Running(a), [], map[a.mrid := a]));
  }

  lemma BothListed(a: DERControl, b: DERControl, now: int)
    requires Plain(a) && Plain(b) && a.mrid != b.mrid
    requires Entry(a).fireAt <= now < Entry(b).fireAt && !PastExpiry(Running(a), now)
    ensures Reachable(Session(Running(a), [Entry(b)], map[a.mrid := a][b.mrid := b]))
  {
    FirstStarts(a, now);
    TwoSnapshots(a, b);
    var s := Session(Running(a), [], map[a.mrid := a]);
    var q := [Entry(b)];
    assert Remove([], b.mrid) + [Entry(b)] == q;
    PollAddsOne(s, [a, b], now, b, q);
    BusyAdvance(Running(a), q, now);
    assert q[0..] == q;
    ReachesOneMore(PollOf([a, b], now, b, q), s, Session(Running(a), q, s.prev[b.mrid := b]));
  }

  /** Main result: one event due at a time does not help. For any two plain controls, `b` firing while `a`
      is in force, a reachable run loses `b`, which LostStaysLost keeps from ever being received. */
  lemma OverlappingEventLost(a: DERControl, b: DERControl)
    requires Plain(a) && Plain(b) && a.mrid != b.mrid && Entry(a).fireAt < Entry(b).fireAt
    requires !PastExpiry(Running(a), Entry(b).fireAt)
    ensures var s := Session(Running(a), [], map[a.mrid := a][b.mrid := b]); Reachable(s) && Inv(s) && Lost(s, b.mrid)
  {
    BothListed(a, b, Entry(a).fireAt);
    var s := Session(Running(a), [Entry(b)], map[a.mrid := a][b.mrid := b]);
    var now := Entry(b).fireAt;
    FailedTick(s.m, s.q, now, AcceptAny);
    BusyAdvance(s.m, s.q, now);
    assert Due([], now) == 0 && s.q[1..] == [];
    assert Due(s.q, now) == 1;
    ReachesOneMore(Failed(now), s, Session(s.m, [], s.prev));
    ReachableFits(Session(s.m, [], s.prev));
  }

  /** Main result: nor does it help a machine that only waits. For any two plain controls, `b` listed after
      `a` but firing before it, a reachable run loses `b` while waiting for `a`. */
  lemma EarlierEventLost(a: DERControl, b: DERControl)
    requires Plain(a) && Plain(b) && a.mrid != b.mrid && Entry(b).fireAt < Entry(a).fireAt
    ensures var s := Session(Waiting(a), [Entry(a)], map[a.mrid := a][b.mrid := b]);
            Reachable(s) && Inv(s) && Lost(s, b.mrid)
  {
    SecondQueuedInFront(a, b, Entry(b).fireAt - 1);
    var q := [Entry(b), Entry(a)];
    var s := Session(Waiting(a), q, map[a.mrid := a][b.mrid := b]);
    var now := Entry(b).fireAt;
    FailedTick(s.m, q, now, AcceptAny);
    assert Cancel(s.m, q, []) == Outcome(s.m, q, []);
    assert q[1..] == [Entry(a)] && Due([Entry(a)], now) == 0;
    assert Due(q, now) == 1;
    NothingBegins(s.m, q, now);
    ReachesOneMore(Failed(now), s, Session(s.m, [Entry(a)], s.prev));
    ReachableFits(Session(s.m, [Entry(a)], s.prev));
  }

  // ---------------------------------------------------------------- an event without an end

  /** Main result: a due event whose interval ends at the zero time, say one that starts there and lasts
      no time, is started by the next read of the list, and by EndlessEventGoesOn never ends while it is
      offered. */
  lemma EndlessEventStarts(c: DERControl, now: int)
    requires Plain(c) && c.interval.value.start <= now
    requires c.interval.value.start + c.interval.value.duration == NO_TIME
    ensures var s := Session(Running(c), [], map[c.mrid := c]);
            Reachable(s) && Inv(s) && s.m.state.Started? && s.m.expireAt == NO_TIME
  {
    FirstStarts(c, now);
    ReachableFits(Session(Running(c), [], map[c.mrid := c]));
  }
}
