/** What a server may rely on over a whole session: rejections are final, a program switch cleans
    up, no response is posted twice, and exactly when a waiting event can no longer start. */
module EventGuarantees {
  import opened Common
  import opened Scheduling
  import opened Lifecycle
  import opened ControlSession
  import opened EventInvariants
  import opened EventTrails

  // ---------------------------------------------------------------- rejections

  ghost function Rejections(trail: seq<Transition>, x: string): nat {
    if trail == [] then 0
    else
      var t := trail[|trail| - 1];
      Rejections(trail[..|trail| - 1], x) + (if t.mrid == x && t.next.Rejected? then 1 else 0)
  }

  lemma {:induction false} RejectionsConcat(a: seq<Transition>, b: seq<Transition>, x: string)
    ensures Rejections(a + b, x) == Rejections(a, x) + Rejections(b, x)
  {
    if b == [] {
      assert a + b == a;
    } else {
      RejectionsConcat(a, b[..|b| - 1], x);
      assert (a + b)[..|a + b| - 1] == a + b[..|b| - 1];
    }
  }

  lemma RejectionsOfOne(t: Transition, x: string)
    ensures Rejections([t], x) == if t.mrid == x && t.next.Rejected? then 1 else 0
  {
    assert [t][..0] == [];
  }

  /** 1 when `x` became rejected between the two sets. */
  ghost function Newly(before: set<string>, after: set<string>, x: string): nat {
    if x in after && x !in before then 1 else 0
  }

  lemma RejectOneCounts(m: Machine, q: seq<ScheduledEvent>, item: DERControl, x: string)
    requires x != ""
    ensures var r := RejectOne(m, q, item);
            m.rejected <= r.m.rejected && Rejections(r.out, x) == Newly(m.rejected, r.m.rejected, x)
  {
    var out := RejectOne(m, q, item).out;
    if |out| > 0 { RejectionsOfOne(out[0], x); }
    if |out| == 2 {
      RejectionsOfOne(out[1], x);
      RejectionsConcat([out[0]], [out[1]], x);
      assert out == [out[0]] + [out[1]];
    }
  }

  lemma {:induction false} RejectCounts(m: Machine, q: seq<ScheduledEvent>, items: seq<DERControl>, x: string)
    requires x != ""
    ensures var r := RejectAll(m, q, items);
            && m.rejected <= r.m.rejected
            && Rejections(r.out, x) == Newly(m.rejected, r.m.rejected, x)
            && Word(r.out, x) == []
  {
    if items != [] {
      var n := |items| - 1;
      RejectCounts(m, q, items[..n], x);
      var before := RejectAll(m, q, items[..n]);
      RejectOneCounts(before.m, before.q, items[n], x);
      RejectOneWord(before.m, before.q, items[n], x);
      var last := RejectOne(before.m, before.q, items[n]);
      RejectionsConcat(before.out, last.out, x);
      WordConcat(before.out, last.out, x);
    }
  }

  lemma {:induction false} ReceiveCounts(m: Machine, added: seq<DERControl>, validate: DERControl -> bool, x: string)
    ensures var r := Receive(m, added, validate);
            && m.rejected <= r.m.rejected
            && Rejections(r.out, x) == Newly(m.rejected, r.m.rejected, x)
  {
    if added != [] {
      var n := |added| - 1;
      ReceiveCounts(m, added[..n], validate, x);
      var before := Receive(m, added[..n], validate);
      if added[n].mrid !in before.m.rejected && !validate(added[n]) {
        var t := Transition(before.m.state, Rejected, added[n].mrid, Some(added[n]));
        RejectionsConcat(before.out, [t], x);
        RejectionsOfOne(t, x);
      }
    }
  }

  lemma {:induction false} NoneRejected(trail: seq<Transition>, x: string)
    requires forall t :: t in trail ==> !t.next.Rejected?
    ensures Rejections(trail, x) == 0
  {
    if trail != [] {
      assert trail[|trail| - 1] in trail;
      NoneRejected(trail[..|trail| - 1], x);
    }
  }

  /** A machine and queue that fit never concern a rejected event. */
  lemma FitUnrejected(m: Machine, q: seq<ScheduledEvent>, live: set<string>)
    requires Fit(m, q, live)
    ensures Fit(m, q, live - m.rejected)
  {
  }

  lemma AdvanceSilent(m: Machine, q: seq<ScheduledEvent>, now: int, cancelled: seq<DERControl>, live: set<string>,
                      x: string)
    requires Fit(m, q, live) && x != ""
    ensures var a := Advance(m, q, now, cancelled);
            && a.m.rejected == m.rejected
            && Rejections(a.out, x) == 0
            && (x in m.rejected ==> Word(a.out, x) == [])
  {
    FitUnrejected(m, q, live);
    AdvanceFit(m, q, now, cancelled, live);
    AdvanceRecordsLive(m, q, now, cancelled, live - m.rejected);
    var a := Advance(m, q, now, cancelled);
    NoneRejected(a.out, x);
    if x in m.rejected { WordAbsent(a.out, x); }
  }

  lemma DiffTickCounts(m: Machine, q: seq<ScheduledEvent>, prev: map<string, DERControl>, curr: map<string, DERControl>,
                       now: int, ch: Choices, validate: DERControl -> bool, x: string)
    requires Keyed(prev) && Keyed(curr) && x != ""
    requires Fit(m, q, Live(prev)) && ChoicesFit(ch, m, q, prev, curr, validate)
    ensures var t := DiffTick(m, q, prev, curr, now, ch, validate);
            && m.rejected <= t.m.rejected
            && Rejections(t.out, x) == Newly(m.rejected, t.m.rejected, x)
            && (x in t.m.rejected ==> Word(t.out, x) == [])
  {
    var added := Pick(ch.added, prev, curr);
    var cancelled := Pick(ch.cancelled, prev, curr);
    DiffFresh(prev, curr, ch);
    ReceiveFit(m, q, added, Live(prev), validate, ch.draws, ch.requeued);
    ReceiveCounts(m, added, validate, x);
    ReceiveWord(m, added, validate, x);
    var r := Receive(m, added, validate);
    var all := Live(prev) + IDsOf(added);
    AdvanceSilent(r.m, ch.requeued, now, cancelled, all, x);
    var a := Advance(r.m, ch.requeued, now, cancelled);
    RejectionsConcat(r.out, a.out, x);
    WordConcat(r.out, a.out, x);
  }

  lemma StepCounts(s: Session, i: Input, validate: DERControl -> bool, x: string)
    requires Inv(s) && Enabled(s, i, validate) && x != ""
    ensures var t := Step(s, i, validate);
            && s.m.rejected <= t.0.m.rejected
            && Rejections(t.1, x) == Newly(s.m.rejected, t.0.m.rejected, x)
            && (x in t.0.m.rejected ==> Word(t.1, x) == [])
  {
    match i
    case Poll(list, now, ch) =>
      SnapshotFacts(list);
      RejectFit(s.m, s.q, list.rejected, Live(s.prev));
      RejectCounts(s.m, s.q, list.rejected, x);
      var r := RejectAll(s.m, s.q, list.rejected);
      DiffTickCounts(r.m, r.q, s.prev, Snapshot(list), now, ch, validate, x);
      var t := DiffTick(r.m, r.q, s.prev, Snapshot(list), now, ch, validate);
      RejectionsConcat(r.out, t.out, x);
      WordConcat(r.out, t.out, x);
    case Failed(now) =>
      FailedTick(s.m, s.q, now, validate);
      AdvanceSilent(s.m, s.q, now, [], Live(s.prev), x);
    case Switch(now, ch) =>
      DiffTickCounts(s.m, s.q, s.prev, map[], now, ch, validate, x);
  }

  /** Main result: along any run an mRID is rejected at most once, exactly when it joins the
      rejected set, which never shrinks, polls, failures and program switches included. */
  lemma {:induction false} RejectedOnce(s: Session, ins: seq<Input>, validate: DERControl -> bool, x: string)
    requires Inv(s) && Possible(s, ins, validate) && x != ""
    ensures var r := Run(s, ins, validate);
            && s.m.rejected <= r.0.m.rejected
            && Rejections(r.1, x) == Newly(s.m.rejected, r.0.m.rejected, x) <= 1
  {
    if ins != [] {
      var before := ins[..|ins| - 1];
      RejectedOnce(s, before, validate, x);
      RunKeepsInv(s, before, validate);
      var b := Run(s, before, validate);
      StepCounts(b.0, ins[|ins| - 1], validate, x);
      RejectionsConcat(b.1, Step(b.0, ins[|ins| - 1], validate).1, x);
    }
  }

  /** Main result: once rejected, even if listed again, an event is never queued, never active and
      nothing more is recorded about it. */
  lemma {:induction false} RejectedIsFinal(s: Session, ins: seq<Input>, validate: DERControl -> bool, x: string)
    requires Inv(s) && Possible(s, ins, validate) && x != "" && x in s.m.rejected
    ensures var r := Run(s, ins, validate);
            && Word(r.1, x) == [] && Rejections(r.1, x) == 0
            && !Queued(r.0.q, x) && r.0.m.activeMRID != x
  {
    RunKeepsInv(s, ins, validate);
    RejectedOnce(s, ins, validate, x);
    if ins != [] {
      var before := ins[..|ins| - 1];
      RejectedIsFinal(s, before, validate, x);
      RunKeepsInv(s, before, validate);
      RejectedOnce(s, before, validate, x);
      var b := Run(s, before, validate);
      StepCounts(b.0, ins[|ins| - 1], validate, x);
      WordConcat(b.1, Step(b.0, ins[|ins| - 1], validate).1, x);
    }
  }

  /** Main result: the input that rejects an event records nothing else about it, so an event
      withdrawn by a rejection is never reported cancelled. */
  lemma RejectionIsNotCancellation(s: Session, i: Input, validate: DERControl -> bool, x: string)
    requires Inv(s) && Enabled(s, i, validate) && x != ""
    requires x in Step(s, i, validate).0.m.rejected
    ensures Word(Step(s, i, validate).1, x) == []
    ensures !Queued(Step(s, i, validate).0.q, x) && Step(s, i, validate).0.m.activeMRID != x
  {
    StepCounts(s, i, validate, x);
    StepKeepsInv(s, i, validate);
  }

  // ---------------------------------------------------------------- the program switch

  /** Main result: dropping a program leaves nothing behind. The machine is idle, the abandoned
      scheduler is empty, and exactly one EVENT_CANCELLED is recorded, iff an event was active. */
  lemma SwitchCleansUp(s: Session, now: int, ch: Choices, validate: DERControl -> bool)
    requires Inv(s) && ChoicesFit(ch, s.m, s.q, s.prev, map[], validate)
    ensures var t := DiffTick(s.m, s.q, s.prev, map[], now, ch, validate);
            && t.q == []
            && t.m == INITIAL.(rejected := s.m.rejected)
            && t.out == (if s.m.state.Default? then []
                         else [Transition(s.m.state, Cancelled, s.m.activeMRID, Some(s.prev[s.m.activeMRID])),
                               Transition(Cancelled, Default, "", None)])
            && Step(s, Switch(now, ch), validate) == (START.(m := INITIAL.(rejected := s.m.rejected)), t.out)
  {
    var gone := Pick(ch.cancelled, s.prev, map[]);
    DiffFresh(s.prev, map[], ch);
    ListsSomething(ch.added, AddedKeys(s.prev, map[]));
    assert Pick(ch.added, s.prev, map[]) == [];
    CancelEverything(s, ch);
    var c := Cancel(s.m, s.q, gone);
    assert Ending(s.m, s.q, now, gone) == Outcome(c.m, [], c.out + []);
    assert Beginning(c.m, [], now) == Outcome(c.m, [], []);
  }

  lemma CancelEverything(s: Session, ch: Choices)
    requires Inv(s) && Lists(ch.cancelled, CancelledKeys(s.prev, map[]))
    ensures var c := Cancel(s.m, s.q, Pick(ch.cancelled, s.prev, map[]));
            && c.q == []
            && c.m == INITIAL.(rejected := s.m.rejected)
            && c.out == if s.m.state.Default? then []
                        else [Transition(s.m.state, Cancelled, s.m.activeMRID, Some(s.prev[s.m.activeMRID])),
                              Transition(Cancelled, Default, "", None)]
  {
    var gone := Pick(ch.cancelled, s.prev, map[]);
    GoneIndex(s.prev, ch);
    CancelFit(s.m, s.q, gone, Live(s.prev));
    NothingQueued(Cancel(s.m, s.q, gone).q);
  }

  lemma GoneIndex(prev: map<string, DERControl>, ch: Choices)
    requires Keyed(prev) && Lists(ch.cancelled, CancelledKeys(prev, map[]))
    ensures Index(Pick(ch.cancelled, prev, map[])) == prev
  {
    var gone := Pick(ch.cancelled, prev, map[]);
    assert CancelledKeys(prev, map[]) == prev.Keys;
    IndexOfPick(ch.cancelled, prev.Keys, prev, map[]);
    IndexFacts(gone);
    forall k | k in prev ensures Index(gone)[k] == prev[k] {
      PickedFromPrev(ch.cancelled, prev, Index(gone)[k]);
    }
  }

  lemma PickedFromPrev(keys: seq<string>, prev: map<string, DERControl>, c: DERControl)
    requires Keyed(prev) && (forall k :: k in keys ==> k in prev) && c in Pick(keys, prev, map[])
    ensures c.mrid in prev && prev[c.mrid] == c
  {
    var i :| 0 <= i < |keys| && Pick(keys, prev, map[])[i] == c;
    assert keys[i] in keys;
  }

  lemma NothingQueued(q: seq<ScheduledEvent>)
    ensures q == [] || exists e :: e in q
  {
    if q != [] { assert q[0] in q; }
  }

  // ---------------------------------------------------------------- responses

  const RECEIVED := 1
  const STARTED := 2
  const COMPLETED := 3
  const CANCELLED := 6
  const SUPERSEDED_ALTERNATE_PROGRAM := 14
  const REJECTED_INVALID_EVENT := 253

  /** The response statuses of IEEE 2030.5 that name the states of an event; DEFAULT has none. */
  function WireStatus(state: EventState): nat {
    match state
    case Default => 0
    case Received => 1
    case Started => 2
    case Completed => 3
    case Cancelled => 6
    case Rejected => 253
  }

  /** mapTransitionToStatus; 0 means that no response applies. */
  function MapTransitionToStatus(prev: EventState, next: EventState): nat {
    match next
    case Received => RECEIVED
    case Started => if prev.Received? then STARTED else 0
    case Completed => if prev.Started? then COMPLETED else 0
    case Cancelled => CANCELLED
    case Rejected => REJECTED_INVALID_EVENT
    case Default => 0
  }

  /** Bit 0 asks for the received response, bit 1 for the others the hook emits. */
  predicate ResponseRequiredOn(mask: nat, status: nat) {
    if status == RECEIVED then mask % 2 == 1
    else if status in {STARTED, COMPLETED, CANCELLED, SUPERSEDED_ALTERNATE_PROGRAM, REJECTED_INVALID_EVENT}
    then mask / 2 % 2 == 1
    else false
  }

  /** The status the session's hook posts for a transition, if any; `superseded` is set while the
      session drops a program for a different one. */
  function Response(t: Transition, superseded: bool): Option<nat> {
    if t.evt.None? || t.evt.value.replyTo == "" then None
    else
      var mapped := MapTransitionToStatus(t.prev, t.next);
      var status := if mapped == CANCELLED && superseded then SUPERSEDED_ALTERNATE_PROGRAM else mapped;
      if status == 0 || t.evt.value.responseRequired.None? then None
      else if ResponseRequiredOn(t.evt.value.responseRequired.value, status) then Some(status)
      else None
  }

  /** Main result: in a run every record but a return to DEFAULT has the wire status of the state it enters;
      the map's guards on the previous state never suppress one. */
  lemma EveryRecordHasAStatus(s: Session, ins: seq<Input>, validate: DERControl -> bool)
    requires Inv(s) && Possible(s, ins, validate)
    ensures forall t :: t in Run(s, ins, validate).1 ==>
        MapTransitionToStatus(t.prev, t.next) == WireStatus(t.next)
  {
    RunHonest(s, ins, validate);
    var r := Run(s, ins, validate);
    PathHasStatuses(PlaceOf(s.m), r.1, PlaceOf(r.0.m));
  }

  /** Main result: in a run the response posted for a record is the status of the state entered, 14 in place of
      a cancellation when the program was superseded, exactly when the event has a replyTo and asks for it:
      with bit 0 of responseRequired for a receipt, with bit 1 for the others. */
  lemma ResponsesExactly(s: Session, ins: seq<Input>, validate: DERControl -> bool, t: Transition, superseded: bool)
    requires Inv(s) && Possible(s, ins, validate) && t in Run(s, ins, validate).1
    ensures var asked := t.evt.Some? && t.evt.value.replyTo != "" && t.evt.value.responseRequired.Some?
                         && (if t.next.Received? then t.evt.value.responseRequired.value % 2 == 1
                             else t.evt.value.responseRequired.value / 2 % 2 == 1);
            Response(t, superseded) == if !asked || t.next.Default? then None
                                       else if superseded && t.next.Cancelled? then Some(14)
                                       else Some(WireStatus(t.next))
  {
    EveryRecordHasAStatus(s, ins, validate);
    ResponseExactly(t, superseded);
  }

  lemma ResponseExactly(t: Transition, superseded: bool)
    requires MapTransitionToStatus(t.prev, t.next) == WireStatus(t.next)
    ensures var asked := t.evt.Some? && t.evt.value.replyTo != "" && t.evt.value.responseRequired.Some?
                         && (if t.next.Received? then t.evt.value.responseRequired.value % 2 == 1
                             else t.evt.value.responseRequired.value / 2 % 2 == 1);
            Response(t, superseded) == if !asked || t.next.Default? then None
                                       else if superseded && t.next.Cancelled? then Some(14)
                                       else Some(WireStatus(t.next))
  {
  }

  lemma PathHasStatuses(a: Place, trail: seq<Transition>, b: Place)
    requires Connected(a, trail, b)
    ensures forall t :: t in trail ==> MapTransitionToStatus(t.prev, t.next) == WireStatus(t.next)
  {
    forall t | t in trail ensures MapTransitionToStatus(t.prev, t.next) == WireStatus(t.next) {
      var k :| 0 <= k < |trail| && trail[k] == t;
      var p := PlaceBefore(a, trail, b, k);
    }
  }

  lemma {:induction false} RejectionsSplit(trail: seq<Transition>, i: nat, j: nat, x: string)
    requires i < j < |trail|
    requires trail[i].mrid == x && trail[j].mrid == x && trail[i].next.Rejected? && trail[j].next.Rejected?
    ensures Rejections(trail, x) >= 2
  {
    assert trail == trail[..i + 1] + trail[i + 1..];
    RejectionsConcat(trail[..i + 1], trail[i + 1..], x);
    RejectionCounted(trail[..i + 1], i, x);
    RejectionCounted(trail[i + 1..], j - i - 1, x);
  }

  lemma {:induction false} RejectionCounted(trail: seq<Transition>, i: nat, x: string)
    requires i < |trail| && trail[i].mrid == x && trail[i].next.Rejected?
    ensures Rejections(trail, x) >= 1
  {
    if i < |trail| - 1 { RejectionCounted(trail[..|trail| - 1], i, x); }
  }

  lemma {:induction false} WordHas(trail: seq<Transition>, i: nat, x: string)
    requires i < |trail| && trail[i].mrid == x && !trail[i].next.Rejected?
    ensures trail[i].next in Word(trail, x)
  {
    if i < |trail| - 1 { WordHas(trail[..|trail| - 1], i, x); }
  }

  lemma WordSplit(trail: seq<Transition>, i: nat, j: nat, x: string)
    requires i < j < |trail|
    requires trail[i].mrid == x && trail[j].mrid == x && !trail[i].next.Rejected? && trail[j].next == trail[i].next
    ensures !NoDup(Word(trail, x))
  {
    var a, b := Word(trail[..i + 1], x), Word(trail[i + 1..], x);
    assert trail == trail[..i + 1] + trail[i + 1..];
    WordConcat(trail[..i + 1], trail[i + 1..], x);
    WordHas(trail[..i + 1], i, x);
    WordHas(trail[i + 1..], j - i - 1, x);
    var k :| 0 <= k < |a| && a[k] == trail[i].next;
    var l :| 0 <= l < |b| && b[l] == trail[i].next;
    assert (a + b)[k] == (a + b)[|a| + l];
  }

  lemma LifeHasNoDup(w: seq<EventState>)
    requires Life(w)
    ensures NoDup(w)
  {
  }

  /** Main result: while an event stays listed, no response status is posted twice for it. */
  lemma NoResponseTwice(s: Session, ins: seq<Input>, x: string, validate: DERControl -> bool, i: nat, j: nat,
                        supersededI: bool, supersededJ: bool)
    requires Inv(s) && x != "" && x !in s.prev
    requires Possible(s, ins, validate) && (ins == [] || KeepsAll(s, ins[..|ins| - 1], x, validate))
    requires i < j < |Run(s, ins, validate).1|
    requires var trail := Run(s, ins, validate).1; trail[i].mrid == x && trail[j].mrid == x
    ensures var trail := Run(s, ins, validate).1;
            && Response(trail[i], supersededI).Some? && Response(trail[j], supersededJ).Some?
            ==> Response(trail[i], supersededI) != Response(trail[j], supersededJ)
  {
    RejectedOnce(s, ins, validate, x);
    OncePerListing(s, ins, x, validate);
    DistinctResponses(Run(s, ins, validate).1, x, i, j, supersededI, supersededJ);
  }

  lemma DistinctResponses(trail: seq<Transition>, x: string, i: nat, j: nat, supersededI: bool, supersededJ: bool)
    requires Life(Word(trail, x)) && Rejections(trail, x) <= 1
    requires i < j < |trail| && trail[i].mrid == x && trail[j].mrid == x
    ensures Response(trail[i], supersededI).Some? && Response(trail[j], supersededJ).Some?
            ==> Response(trail[i], supersededI) != Response(trail[j], supersededJ)
  {
    if trail[i].next == trail[j].next && trail[i].next.Rejected? {
      RejectionsSplit(trail, i, j, x);
    } else if trail[i].next == trail[j].next {
      WordSplit(trail, i, j, x);
      LifeHasNoDup(Word(trail, x));
    }
  }

  // ---------------------------------------------------------------- waiting events

  /** The machine waits for an event that has already left the queue. */
  ghost predicate Stranded(m: Machine, q: seq<ScheduledEvent>) {
    m.state.Received? && !Queued(q, m.activeMRID)
  }

  /** The awaited event is due, but behind another one that is due too. */
  ghost predicate Overtaken(m: Machine, q: seq<ScheduledEvent>, now: int) {
    && Due(q, now) > 0 && q[0].mrid != m.activeMRID
    && Queued(q[..Due(q, now)], m.activeMRID)
  }

  /** The machine and queue an input meets when it drains the due events. */
  ghost function BeforePop(s: Session, i: Input, validate: DERControl -> bool): Outcome
    requires Enabled(s, i, validate)
  {
    match i
    case Poll(list, now, ch) =>
      var r := RejectAll(s.m, s.q, list.rejected);
      var curr := Snapshot(list);
      Ending(Receive(r.m, Pick(ch.added, s.prev, curr), validate).m, ch.requeued, now, Pick(ch.cancelled, s.prev, curr))
    case Failed(now) => Ending(s.m, s.q, now, [])
    case Switch(now, ch) =>
      Ending(Receive(s.m, Pick(ch.added, s.prev, map[]), validate).m, ch.requeued, now,
        Pick(ch.cancelled, s.prev, map[]))
  }

  lemma BeginningStrands(m: Machine, q: seq<ScheduledEvent>, now: int, live: set<string>)
    requires Fit(m, q, live) && (m.state.Started? ==> !PastExpiry(m, now))
    ensures var b := Beginning(m, q, now);
            Stranded(b.m, b.q) <==> m.state.Received? && (!Queued(q, m.activeMRID) || Overtaken(m, q, now))
  {
    DueSplits(q, now);
    match m.state
    case Received => ReceivedStrands(m, q, now, live);
    case Default => IdleStrands(m, q, now, live);
    case Started =>
  }

  lemma IdleStrands(m: Machine, q: seq<ScheduledEvent>, now: int, live: set<string>)
    requires Fit(m, q, live) && m.state.Default?
    ensures var b := Beginning(m, q, now); !Stranded(b.m, b.q)
  {
    var rest := q[Due(q, now)..];
    if rest != [] { assert rest[0] in rest; }
  }

  lemma ReceivedStrands(m: Machine, q: seq<ScheduledEvent>, now: int, live: set<string>)
    requires Fit(m, q, live) && m.state.Received?
    ensures var b := Beginning(m, q, now); Stranded(b.m, b.q) <==> !Queued(q, m.activeMRID) || Overtaken(m, q, now)
  {
    var due := Due(q, now);
    DueSplits(q, now);
    if due > 0 && q[0].mrid == m.activeMRID {
      AwaitedFires(m, q, now);
      assert q[0] in q;
    } else {
      NothingBegins(m, q, now);
      QueuedInPart(q, due, m.activeMRID);
      DisjointParts(q, due, m.activeMRID);
      NothingQueuedInNone(m.activeMRID);
      if due == 0 { assert q[..due] == []; }
    }
  }

  /** The awaited event comes first: it starts, and if it ends at once the machine looks further. */
  lemma AwaitedFires(m: Machine, q: seq<ScheduledEvent>, now: int)
    requires m.state.Received? && Due(q, now) > 0 && q[0].mrid == m.activeMRID
    ensures var b := Beginning(m, q, now); !Stranded(b.m, b.q)
  {
    var due := Due(q, now);
    var f := Fire(m, q[..due], now).0;
    assert q[..due][0] == q[0];
    assert f.state.Started? || f.state.Default?;
    var rest := q[due..];
    if rest != [] { assert rest[0] in rest; }
  }

  /** A machine that waits for another event than the first one due goes on waiting. */
  lemma NothingBegins(m: Machine, q: seq<ScheduledEvent>, now: int)
    requires m.state.Received? && (Due(q, now) > 0 ==> q[0].mrid != m.activeMRID)
    ensures Beginning(m, q, now) == Outcome(m, q[Due(q, now)..], [])
  {
    var due := Due(q, now);
    if due > 0 { assert q[..due][0] == q[0]; }
    var none: seq<Transition> := [];
    assert none + none == none;
    assert Fire(m, q[..due], now).1 == none;
  }

  lemma QueuedInPart(q: seq<ScheduledEvent>, cut: nat, x: string)
    requires cut <= |q|
    ensures Queued(q, x) <==> Queued(q[..cut], x) || Queued(q[cut..], x)
  {
    assert q == q[..cut] + q[cut..];
    assert forall e :: e in q <==> e in q[..cut] || e in q[cut..];
  }

  lemma NothingQueuedInNone(x: string)
    ensures !Queued([], x)
  {
  }

  lemma DisjointParts(q: seq<ScheduledEvent>, cut: nat, x: string)
    requires ValidQueue(q) && cut <= |q|
    ensures !(Queued(q[..cut], x) && Queued(q[cut..], x))
  {
  }

  /** Where BeforePop stands: fitting, and what Step goes on to do from there. */
  lemma BeforePopFits(s: Session, i: Input, validate: DERControl -> bool)
    requires Inv(s) && Enabled(s, i, validate) && !i.Switch?
    ensures var p := BeforePop(s, i, validate);
            && Fit(p.m, p.q, Live(Step(s, i, validate).0.prev))
            && (p.m.state.Started? ==> !PastExpiry(p.m, i.now))
            && Step(s, i, validate).0.m == Beginning(p.m, p.q, i.now).m
            && Step(s, i, validate).0.q == Beginning(p.m, p.q, i.now).q
            && (p.m.state.Received? && !Stranded(s.m, s.q) ==> Queued(p.q, p.m.activeMRID))
  {
    match i
    case Poll(list, now, ch) =>
      SnapshotFacts(list);
      RejectFit(s.m, s.q, list.rejected, Live(s.prev));
      RejectKeepsWaiting(s.m, s.q, list.rejected, Live(s.prev));
      var r := RejectAll(s.m, s.q, list.rejected);
      DiffBeforePop(r.m, r.q, s.prev, Snapshot(list), now, ch, validate);
    case Failed(now) =>
      FailedTick(s.m, s.q, now, validate);
      EndingFits(s.m, s.q, now, [], Live(s.prev));
      assert Live(s.prev) - Index([]).Keys == Live(s.prev);
  }

  lemma DiffBeforePop(m: Machine, q: seq<ScheduledEvent>, prev: map<string, DERControl>, curr: map<string, DERControl>,
                      now: int, ch: Choices, validate: DERControl -> bool)
    requires Keyed(prev) && Keyed(curr)
    requires Fit(m, q, Live(prev)) && ChoicesFit(ch, m, q, prev, curr, validate)
    ensures var p := Ending(Receive(m, Pick(ch.added, prev, curr), validate).m, ch.requeued, now,
        Pick(ch.cancelled, prev, curr));
            && Fit(p.m, p.q, Live(curr))
            && (p.m.state.Started? ==> !PastExpiry(p.m, now))
            && (p.m.state.Received? && !Stranded(m, q) ==> Queued(p.q, p.m.activeMRID))
  {
    DiffFresh(prev, curr, ch);
    var added, cancelled := Pick(ch.added, prev, curr), Pick(ch.cancelled, prev, curr);
    ReceiveFit(m, q, added, Live(prev), validate, ch.draws, ch.requeued);
    ReceiveFacts(m, added, validate);
    var m1, all := Receive(m, added, validate).m, Live(prev) + IDsOf(added);
    assert !Stranded(m, q) ==> !Stranded(m1, ch.requeued);
    EndingFits(m1, ch.requeued, now, cancelled, all);
    var p := Ending(m1, ch.requeued, now, cancelled);
    FitWeaken(p.m, p.q, all - Index(cancelled).Keys, Live(curr));
  }

  lemma EndingFits(m: Machine, q: seq<ScheduledEvent>, now: int, cancelled: seq<DERControl>, live: set<string>)
    requires Fit(m, q, live)
    ensures var p := Ending(m, q, now, cancelled);
            && Fit(p.m, p.q, live - Index(cancelled).Keys)
            && (p.m.state.Started? ==> !PastExpiry(p.m, now))
            && (p.m.state.Received? && !Stranded(m, q) ==> Queued(p.q, p.m.activeMRID))
  {
    CancelFit(m, q, cancelled, live);
  }

  lemma {:induction false} RejectKeepsWaiting(m: Machine, q: seq<ScheduledEvent>, items: seq<DERControl>,
                                              live: set<string>)
    requires Fit(m, q, live)
    ensures var r := RejectAll(m, q, items); Stranded(r.m, r.q) ==> Stranded(m, q)
  {
    if items != [] {
      var n := |items| - 1;
      RejectKeepsWaiting(m, q, items[..n], live);
      RejectFit(m, q, items[..n], live);
      var before := RejectAll(m, q, items[..n]);
      RemoveOne(before.q, items[n].mrid);
    }
  }

  /** Main result: an input leaves the machine waiting for an event that can never start exactly
      when, as the due events are drained, the awaited one is missing or is overtaken. */
  lemma StrandedExactly(s: Session, i: Input, validate: DERControl -> bool)
    requires Inv(s) && Enabled(s, i, validate) && !i.Switch?
    ensures var p := BeforePop(s, i, validate);
            var t := Step(s, i, validate).0;
            Stranded(t.m, t.q) <==> p.m.state.Received? && (!Queued(p.q, p.m.activeMRID) || Overtaken(p.m, p.q, i.now))
  {
    BeforePopFits(s, i, validate);
    var p := BeforePop(s, i, validate);
    BeginningStrands(p.m, p.q, i.now, Live(Step(s, i, validate).0.prev));
  }

  ghost predicate PopsAtMostOne(s: Session, ins: seq<Input>, validate: DERControl -> bool)
    requires Possible(s, ins, validate)
    decreases |ins|
  {
    ins == [] ||
    (var before := ins[..|ins| - 1];
     var i := ins[|ins| - 1];
     && PopsAtMostOne(s, before, validate)
     && Due(BeforePop(Run(s, before, validate).0, i, validate).q, i.now) <= 1)
  }

  /** Main result: within the stated single-event scope, no two events due at one tick, an awaited
      event always stays queued, so it can still start. */
  lemma {:induction false} WaitingEventsCanFire(s: Session, ins: seq<Input>, validate: DERControl -> bool)
    requires Inv(s) && !Stranded(s.m, s.q)
    requires Possible(s, ins, validate) && PopsAtMostOne(s, ins, validate)
    ensures !Stranded(Run(s, ins, validate).0.m, Run(s, ins, validate).0.q)
  {
    if ins != [] {
      var before := ins[..|ins| - 1];
      var i := ins[|ins| - 1];
      WaitingEventsCanFire(s, before, validate);
      RunKeepsInv(s, before, validate);
      var b := Run(s, before, validate).0;
      if i.Switch? {
        SwitchCleansUp(b, i.now, i.ch, validate);
      } else {
        BeforePopFits(b, i, validate);
        StrandedExactly(b, i, validate);
      }
    }
  }

  /** The server still lists `x`, neither cancelled nor undecodable. */
  ghost predicate StillOffers(i: Input, x: string) {
    match i
    case Poll(list, _, _) => x in Live(Snapshot(list))
    case Failed(_) => true
    case Switch(_, _) => false
  }

  lemma {:induction false} RejectSpares(m: Machine, q: seq<ScheduledEvent>, items: seq<DERControl>)
    requires forall r :: r in items ==> r.mrid != m.activeMRID
    ensures RejectAll(m, q, items).m == m.(rejected := RejectAll(m, q, items).m.rejected)
    ensures forall t :: t in RejectAll(m, q, items).out ==> t.next.Rejected?
  {
    if items != [] {
      assert items[|items| - 1] in items;
      RejectSpares(m, q, items[..|items| - 1]);
    }
  }

  lemma {:induction false} ReceiveRecordsRejections(m: Machine, added: seq<DERControl>, validate: DERControl -> bool)
    ensures forall t :: t in Receive(m, added, validate).out ==> t.next.Rejected?
  {
    if added != [] { ReceiveRecordsRejections(m, added[..|added| - 1], validate); }
  }

  lemma StrandedBlocksInput(s: Session, i: Input, validate: DERControl -> bool)
    requires Inv(s) && Enabled(s, i, validate)
    requires Stranded(s.m, s.q) && StillOffers(i, s.m.activeMRID)
    ensures var t := Step(s, i, validate);
            && Stranded(t.0.m, t.0.q) && t.0.m.activeMRID == s.m.activeMRID
            && forall k :: k in t.1 ==> k.next.Rejected?
  {
    match i
    case Poll(list, now, ch) =>
      var curr := Snapshot(list);
      SnapshotFacts(list);
      RejectFit(s.m, s.q, list.rejected, Live(s.prev));
      RejectSpares(s.m, s.q, list.rejected);
      var r := RejectAll(s.m, s.q, list.rejected);
      RejectAllShrinks(s.m, s.q, list.rejected, Live(s.prev));
      DiffFresh(s.prev, curr, ch);
      var added := Pick(ch.added, s.prev, curr);
      ReceiveFit(r.m, r.q, added, Live(s.prev), validate, ch.draws, ch.requeued);
      ReceiveFacts(r.m, added, validate);
      ReceiveRecordsRejections(r.m, added, validate);
      var m1 := Receive(r.m, added, validate).m;
      assert !Queued(ch.requeued, m1.activeMRID);
      var cancelled := Pick(ch.cancelled, s.prev, curr);
      BlockedAdvance(m1, ch.requeued, now, cancelled, Live(s.prev) + IDsOf(added));
    case Failed(now) =>
      FailedTick(s.m, s.q, now, validate);
      BlockedAdvance(s.m, s.q, now, [], Live(s.prev));
  }

  lemma {:induction false} RejectAllShrinks(m: Machine, q: seq<ScheduledEvent>, items: seq<DERControl>,
                                            live: set<string>)
    requires Fit(m, q, live)
    ensures forall e :: e in RejectAll(m, q, items).q ==> e in q
  {
    if items != [] {
      RejectAllShrinks(m, q, items[..|items| - 1], live);
      RejectFit(m, q, items[..|items| - 1], live);
      RemoveOne(RejectAll(m, q, items[..|items| - 1]).q, items[|items| - 1].mrid);
    }
  }

  lemma BlockedAdvance(m: Machine, q: seq<ScheduledEvent>, now: int, cancelled: seq<DERControl>, live: set<string>)
    requires Fit(m, q, live) && Stranded(m, q) && m.activeMRID !in Index(cancelled)
    ensures var a := Advance(m, q, now, cancelled); a.m == m && a.out == [] && Stranded(a.m, a.q)
  {
    CancelFit(m, q, cancelled, live);
    var c := Cancel(m, q, cancelled);
    assert c.m == m && c.out == [] && !Queued(c.q, m.activeMRID);
    DueSplits(c.q, now);
    if Due(c.q, now) > 0 { assert c.q[0] in c.q; }
    QueuedInPart(c.q, Due(c.q, now), m.activeMRID);
    NothingBegins(m, c.q, now);
    assert Ending(m, q, now, cancelled) == Outcome(m, c.q, [] + []);
  }

  ghost predicate AllOffer(ins: seq<Input>, x: string) {
    forall i :: i in ins ==> StillOffers(i, x)
  }

  /** Main result: a stranded machine stays stranded on the same event, and starts and receives
      nothing else, for as long as the server goes on offering that event. */
  lemma {:induction false} StrandedBlocksEverything(s: Session, ins: seq<Input>, validate: DERControl -> bool)
    requires Inv(s) && Possible(s, ins, validate)
    requires Stranded(s.m, s.q) && AllOffer(ins, s.m.activeMRID)
    ensures var r := Run(s, ins, validate);
            && Stranded(r.0.m, r.0.q) && r.0.m.activeMRID == s.m.activeMRID
            && forall t :: t in r.1 ==> t.next.Rejected?
  {
    if ins != [] {
      var before := ins[..|ins| - 1];
      assert ins[|ins| - 1] in ins && forall i :: i in before ==> i in ins;
      StrandedBlocksEverything(s, before, validate);
      RunKeepsInv(s, before, validate);
      StrandedBlocksInput(Run(s, before, validate).0, ins[|ins| - 1], validate);
    }
  }

  // ---------------------------------------------------------------- started events

  lemma StartedBegins(m: Machine, q: seq<ScheduledEvent>, now: int)
    requires m.state.Started?
    ensures Beginning(m, q, now) == Outcome(m, q[Due(q, now)..], [])
  {
    var none: seq<Transition> := [];
    assert none + none == none;
    assert Fire(m, q[..Due(q, now)], now).1 == none;
  }

  lemma IdleBegins(m: Machine, q: seq<ScheduledEvent>, now: int, x: string)
    requires m.state.Default? && m.activeMRID == "" != x && !Queued(q, x)
    ensures Beginning(m, q, now).m.activeMRID != x
  {
    var due := Due(q, now);
    if due > 0 { assert q[..due][0] in q; }
    if q[due..] != [] { assert q[due..][0] in q; }
  }

  lemma StartedAdvance(m: Machine, q: seq<ScheduledEvent>, now: int, cancelled: seq<DERControl>, live: set<string>)
    requires Fit(m, q, live) && m.state.Started? && m.activeMRID !in Index(cancelled)
    ensures var a := Advance(m, q, now, cancelled);
            && (!PastExpiry(m, now) ==> a.m == m && a.out == [])
            && (PastExpiry(m, now) ==> a.m.activeMRID != m.activeMRID)
  {
    CancelFit(m, q, cancelled, live);
    var c := Cancel(m, q, cancelled);
    var none: seq<Transition> := [];
    assert none + none == none;
    assert c.m == m && c.out == none && !Queued(c.q, m.activeMRID);
    if PastExpiry(m, now) {
      IdleBegins(Enter(m, Default), c.q, now, m.activeMRID);
    } else {
      StartedBegins(m, c.q, now);
      assert Ending(m, q, now, cancelled) == Outcome(m, c.q, none);
    }
  }

  /** Main result: while the server offers it, a started event ends by itself exactly when its end has
      come and is not the zero time; until then nothing but rejections is recorded. */
  lemma StartedEndsExactly(s: Session, i: Input, validate: DERControl -> bool)
    requires Inv(s) && Enabled(s, i, validate)
    requires s.m.state.Started? && StillOffers(i, s.m.activeMRID)
    ensures var t := Step(s, i, validate);
            && (t.0.m.activeMRID == s.m.activeMRID <==> s.m.expireAt == NO_TIME || i.now < s.m.expireAt)
            && (t.0.m.activeMRID == s.m.activeMRID ==>
                  t.0.m == s.m.(rejected := t.0.m.rejected) && forall k :: k in t.1 ==> k.next.Rejected?)
  {
    match i
    case Poll(list, now, ch) =>
      var curr := Snapshot(list);
      SnapshotFacts(list);
      RejectFit(s.m, s.q, list.rejected, Live(s.prev));
      RejectSpares(s.m, s.q, list.rejected);
      var r := RejectAll(s.m, s.q, list.rejected);
      DiffFresh(s.prev, curr, ch);
      var added := Pick(ch.added, s.prev, curr);
      ReceiveFit(r.m, r.q, added, Live(s.prev), validate, ch.draws, ch.requeued);
      ReceiveFacts(r.m, added, validate);
      ReceiveRecordsRejections(r.m, added, validate);
      var m1 := Receive(r.m, added, validate).m;
      StartedAdvance(m1, ch.requeued, now, Pick(ch.cancelled, s.prev, curr), Live(s.prev) + IDsOf(added));
    case Failed(now) =>
      FailedTick(s.m, s.q, now, validate);
      StartedAdvance(s.m, s.q, now, [], Live(s.prev));
  }

  /** Main result: a started event whose end is the zero time goes on for as long as it is offered,
      whatever the clock says. */
  lemma {:induction false} EndlessEventGoesOn(s: Session, ins: seq<Input>, validate: DERControl -> bool)
    requires Inv(s) && Possible(s, ins, validate) && AllOffer(ins, s.m.activeMRID)
    requires s.m.state.Started? && s.m.expireAt == NO_TIME
    ensures var m := Run(s, ins, validate).0.m; m == s.m.(rejected := m.rejected)
    ensures forall t :: t in Run(s, ins, validate).1 ==> t.next.Rejected?
  {
    if ins != [] {
      var before := ins[..|ins| - 1];
      assert ins[|ins| - 1] in ins && forall i :: i in before ==> i in ins;
      EndlessEventGoesOn(s, before, validate);
      RunKeepsInv(s, before, validate);
      StartedEndsExactly(Run(s, before, validate).0, ins[|ins| - 1], validate);
    }
  }
}
