/** Whole runs of a control session: the trail is a path in the lifecycle graph, an event is
    received, started and ended at most once while it stays listed, and a rejection is final. */
module EventTrails {
  import opened Common
  import opened Scheduling
  import opened Lifecycle
  import opened ControlSession
  import opened EventInvariants

  // ---------------------------------------------------------------- runs

  ghost predicate Possible(s: Session, ins: seq<Input>, validate: DERControl -> bool)
    decreases |ins|, 0
  {
    ins == [] ||
    (Possible(s, ins[..|ins| - 1], validate) && Enabled(Run(s, ins[..|ins| - 1], validate).0, ins[|ins| - 1], validate))
  }

  /** The session after a run, and everything it recorded. */
  ghost function Run(s: Session, ins: seq<Input>, validate: DERControl -> bool): (Session, seq<Transition>)
    requires Possible(s, ins, validate)
    decreases |ins|, 1
  {
    if ins == [] then (s, [])
    else
      var before := Run(s, ins[..|ins| - 1], validate);
      var last := Step(before.0, ins[|ins| - 1], validate);
      (last.0, before.1 + last.1)
  }

  /** Main result: the invariant holds at every point of every run. */
  lemma {:induction false} RunKeepsInv(s: Session, ins: seq<Input>, validate: DERControl -> bool)
    requires Inv(s) && Possible(s, ins, validate)
    ensures Inv(Run(s, ins, validate).0)
    ensures ins != [] ==> UpToDate(Run(s, ins, validate).0, ins[|ins| - 1].now)
  {
    if ins != [] {
      RunKeepsInv(s, ins[..|ins| - 1], validate);
      StepKeepsInv(Run(s, ins[..|ins| - 1], validate).0, ins[|ins| - 1], validate);
    }
  }

  lemma StartFits()
    ensures Inv(START)
  {
  }

  // ---------------------------------------------------------------- the lifecycle graph

  /** The arrows of the lifecycle. */
  predicate Edge(a: EventState, b: EventState) {
    match a
    case Default => b.Received?
    case Received => b.Started? || b.Cancelled?
    case Started => b.Completed? || b.Cancelled?
    case Completed => b.Default?
    case Cancelled => b.Default?
    case Rejected => false
  }

  /** Where a trail stands: the state in force, its event, and whether that event was just rejected. */
  datatype Place = At(state: EventState, mrid: string, withdrawn: bool)

  function PlaceOf(m: Machine): Place {
    At(m.state, m.activeMRID, false)
  }

  /** Where a record leads, if anywhere. Every record names the state it leaves. A rejection leaves it
      in force, but one of the active event is followed by the return to DEFAULT, and nothing else
      skips an arrow. Every other record follows an arrow, and concerns the active event. */
  function Next(p: Place, t: Transition): Option<Place> {
    if t.prev != p.state then None
    else if p.withdrawn then (if t.next.Default? then Some(At(Default, "", false)) else None)
    else if t.next.Rejected? then Some(p.(withdrawn := p.mrid != "" && t.mrid == p.mrid))
    else if !Edge(p.state, t.next) then None
    else if t.next.Default? then Some(At(Default, "", false))
    else if p.state.Default? || t.mrid == p.mrid then Some(At(t.next, t.mrid, false))
    else None
  }

  /** `trail` leads from `a` to `b`. */
  ghost predicate Connected(a: Place, trail: seq<Transition>, b: Place)
    decreases trail
  {
    if trail == [] then a == b
    else Next(a, trail[0]).Some? && Connected(Next(a, trail[0]).value, trail[1..], b)
  }

  lemma {:induction false} ConnectedConcat(a: Place, s: seq<Transition>, b: Place, t: seq<Transition>, c: Place)
    requires Connected(a, s, b) && Connected(b, t, c)
    ensures Connected(a, s + t, c)
    decreases s
  {
    if s == [] {
      assert s + t == t;
    } else {
      assert (s + t)[1..] == s[1..] + t;
      ConnectedConcat(Next(a, s[0]).value, s[1..], b, t, c);
    }
  }

  /** A record carries the event it is about; only a return to DEFAULT is about none. */
  predicate Labelled(t: Transition) {
    if t.next.Default? then t.mrid == "" && t.evt.None?
    else t.mrid != "" && t.evt.Some? && t.evt.value.mrid == t.mrid
  }

  /** Both, for the part of a trail between two places. */
  ghost predicate Honest(a: Place, trail: seq<Transition>, b: Place) {
    Connected(a, trail, b) && forall t :: t in trail ==> Labelled(t)
  }

  lemma HonestConcat(a: Place, s: seq<Transition>, b: Place, t: seq<Transition>, c: Place)
    requires Honest(a, s, b) && Honest(b, t, c)
    ensures Honest(a, s + t, c)
  {
    ConnectedConcat(a, s, b, t, c);
  }

  lemma HonestOne(a: Place, t: Transition)
    requires Labelled(t) && Next(a, t).Some?
    ensures Honest(a, [t], Next(a, t).value)
  {
    assert [t][1..] == [];
  }

  lemma HonestPair(a: Place, t: Transition, u: Transition)
    requires Labelled(t) && Next(a, t).Some?
    requires Labelled(u) && Next(Next(a, t).value, u).Some?
    ensures Honest(a, [t, u], Next(Next(a, t).value, u).value)
  {
    var b := Next(a, t).value;
    HonestOne(a, t);
    HonestOne(b, u);
    assert [t] + [u] == [t, u];
    HonestConcat(a, [t], b, [u], Next(b, u).value);
  }

  lemma RejectOneHonest(m: Machine, q: seq<ScheduledEvent>, item: DERControl, live: set<string>)
    requires Fit(m, q, live)
    ensures var r := RejectOne(m, q, item); Honest(PlaceOf(m), r.out, PlaceOf(r.m))
  {
    var r := RejectOne(m, q, item);
    if |r.out| == 2 { HonestPair(PlaceOf(m), r.out[0], r.out[1]); }
    if |r.out| == 1 { HonestOne(PlaceOf(m), r.out[0]); }
  }

  lemma {:induction false} RejectHonest(m: Machine, q: seq<ScheduledEvent>, items: seq<DERControl>, live: set<string>)
    requires Fit(m, q, live)
    ensures Honest(PlaceOf(m), RejectAll(m, q, items).out, PlaceOf(RejectAll(m, q, items).m))
  {
    if items != [] {
      var n := |items| - 1;
      RejectHonest(m, q, items[..n], live);
      RejectFit(m, q, items[..n], live);
      var before := RejectAll(m, q, items[..n]);
      RejectOneHonest(before.m, before.q, items[n], live);
      var last := RejectOne(before.m, before.q, items[n]);
      HonestConcat(PlaceOf(m), before.out, PlaceOf(before.m), last.out, PlaceOf(last.m));
    }
  }

  lemma {:induction false} ReceiveHonest(m: Machine, added: seq<DERControl>, validate: DERControl -> bool)
    requires forall c :: c in added ==> c.mrid != "" && c.mrid != m.activeMRID
    ensures PlaceOf(Receive(m, added, validate).m) == PlaceOf(m)
    ensures Honest(PlaceOf(m), Receive(m, added, validate).out, PlaceOf(m))
  {
    if added != [] {
      var n := |added| - 1;
      ReceiveHonest(m, added[..n], validate);
      var t := Transition(m.state, Rejected, added[n].mrid, Some(added[n]));
      assert added[n] in added;
      HonestOne(PlaceOf(m), t);
      HonestConcat(PlaceOf(m), Receive(m, added[..n], validate).out, PlaceOf(m), [t], PlaceOf(m));
    }
  }

  lemma CancelHonest(m: Machine, q: seq<ScheduledEvent>, cancelled: seq<DERControl>)
    requires m.state.Default? ==> m.activeMRID == ""
    ensures var c := Cancel(m, q, cancelled); Honest(PlaceOf(m), c.out, PlaceOf(c.m))
  {
    IndexFacts(cancelled);
    var c := Cancel(m, q, cancelled);
    if c.out != [] { HonestPair(PlaceOf(m), c.out[0], c.out[1]); }
  }

  lemma CompleteHonest(m: Machine, now: int)
    requires m.state.Started? ==> m.activeMRID != "" && m.active.Some? && m.active.value.mrid == m.activeMRID
    ensures var c := Complete(m, now); Honest(PlaceOf(m), c.1, PlaceOf(c.0))
  {
    var c := Complete(m, now);
    if c.1 != [] { HonestPair(PlaceOf(m), c.1[0], c.1[1]); }
  }

  lemma BeginHonest(m: Machine, head: ScheduledEvent, now: int)
    requires WellFormed(head) && head.mrid != ""
    ensures var b := Begin(m, head, now); Honest(PlaceOf(m), b.1, PlaceOf(b.0))
  {
    if m.state.Received? && m.activeMRID == head.mrid {
      var started := Enter(Activate(m, head), Started);
      var t := Transition(Received, Started, head.mrid, Some(head.source));
      HonestOne(PlaceOf(m), t);
      CompleteHonest(started, now);
      var ended := Complete(started, now);
      HonestConcat(PlaceOf(m), [t], PlaceOf(started), ended.1, PlaceOf(ended.0));
    }
  }

  lemma FireHonest(m: Machine, expired: seq<ScheduledEvent>, now: int)
    requires expired != [] ==> WellFormed(expired[0]) && expired[0].mrid != ""
    requires m.state.Default? ==> m.activeMRID == ""
    ensures var f := Fire(m, expired, now); Honest(PlaceOf(m), f.1, PlaceOf(f.0))
  {
    if expired != [] {
      var head := expired[0];
      var seen := See(m, head);
      if seen.1 != [] { HonestOne(PlaceOf(m), seen.1[0]); }
      BeginHonest(seen.0, head, now);
      var begun := Begin(seen.0, head, now);
      HonestConcat(PlaceOf(m), seen.1, PlaceOf(seen.0), begun.1, PlaceOf(begun.0));
    }
  }

  lemma BeginningHonest(m: Machine, q: seq<ScheduledEvent>, now: int, live: set<string>)
    requires Fit(m, q, live)
    ensures var b := Beginning(m, q, now); Honest(PlaceOf(m), b.out, PlaceOf(b.m))
  {
    var due := Due(q, now);
    if due > 0 { assert q[..due][0] == q[0] && q[0] in q; }
    var fired := Fire(m, q[..due], now);
    FireHonest(m, q[..due], now);
    var rest := q[due..];
    var seen := Observe(fired.0, rest);
    if rest != [] { assert rest[0] == q[due] && q[due] in q; }
    if seen.1 != [] { HonestOne(PlaceOf(fired.0), seen.1[0]); }
    HonestConcat(PlaceOf(m), fired.1, PlaceOf(fired.0), seen.1, PlaceOf(seen.0));
  }

  lemma AdvanceHonest(m: Machine, q: seq<ScheduledEvent>, now: int, cancelled: seq<DERControl>, live: set<string>)
    requires Fit(m, q, live)
    ensures var a := Advance(m, q, now, cancelled); Honest(PlaceOf(m), a.out, PlaceOf(a.m))
  {
    var c := Cancel(m, q, cancelled);
    CancelHonest(m, q, cancelled);
    CancelFit(m, q, cancelled, live);
    CompleteHonest(c.m, now);
    var e := Ending(m, q, now, cancelled);
    HonestConcat(PlaceOf(m), c.out, PlaceOf(c.m), Complete(c.m, now).1, PlaceOf(e.m));
    BeginningHonest(e.m, e.q, now, live - Index(cancelled).Keys);
    HonestConcat(PlaceOf(m), e.out, PlaceOf(e.m), Beginning(e.m, e.q, now).out, PlaceOf(Beginning(e.m, e.q, now).m));
  }

  lemma DiffTickHonest(m: Machine, q: seq<ScheduledEvent>, prev: map<string, DERControl>, curr: map<string, DERControl>,
                       now: int, ch: Choices, validate: DERControl -> bool)
    requires Keyed(prev) && Keyed(curr)
    requires Fit(m, q, Live(prev)) && ChoicesFit(ch, m, q, prev, curr, validate)
    ensures var t := DiffTick(m, q, prev, curr, now, ch, validate); Honest(PlaceOf(m), t.out, PlaceOf(t.m))
  {
    var added := Pick(ch.added, prev, curr);
    DiffFresh(prev, curr, ch);
    ReceiveFit(m, q, added, Live(prev), validate, ch.draws, ch.requeued);
    ReceiveHonest(m, added, validate);
    var r := Receive(m, added, validate);
    AdvanceHonest(r.m, ch.requeued, now, Pick(ch.cancelled, prev, curr), Live(prev) + IDsOf(added));
    var a := Advance(r.m, ch.requeued, now, Pick(ch.cancelled, prev, curr));
    HonestConcat(PlaceOf(m), r.out, PlaceOf(m), a.out, PlaceOf(a.m));
  }

  lemma StepHonest(s: Session, i: Input, validate: DERControl -> bool)
    requires Inv(s) && Enabled(s, i, validate)
    ensures var t := Step(s, i, validate); Honest(PlaceOf(s.m), t.1, PlaceOf(t.0.m))
  {
    match i
    case Poll(list, now, ch) =>
      SnapshotFacts(list);
      RejectFit(s.m, s.q, list.rejected, Live(s.prev));
      RejectHonest(s.m, s.q, list.rejected, Live(s.prev));
      var r := RejectAll(s.m, s.q, list.rejected);
      DiffTickHonest(r.m, r.q, s.prev, Snapshot(list), now, ch, validate);
      var t := DiffTick(r.m, r.q, s.prev, Snapshot(list), now, ch, validate);
      HonestConcat(PlaceOf(s.m), r.out, PlaceOf(r.m), t.out, PlaceOf(t.m));
    case Failed(now) =>
      FailedTick(s.m, s.q, now, validate);
      AdvanceHonest(s.m, s.q, now, [], Live(s.prev));
    case Switch(now, ch) =>
      DiffTickHonest(s.m, s.q, s.prev, map[], now, ch, validate);
  }

  /** Main result: the records of every run form one path in the lifecycle graph, each about the event
      that is active, and an arrow is only ever skipped right after the active event is rejected. */
  lemma {:induction false} RunHonest(s: Session, ins: seq<Input>, validate: DERControl -> bool)
    requires Inv(s) && Possible(s, ins, validate)
    ensures var r := Run(s, ins, validate); Honest(PlaceOf(s.m), r.1, PlaceOf(r.0.m))
  {
    if ins != [] {
      var before := ins[..|ins| - 1];
      RunHonest(s, before, validate);
      RunKeepsInv(s, before, validate);
      var b := Run(s, before, validate);
      StepHonest(b.0, ins[|ins| - 1], validate);
      var last := Step(b.0, ins[|ins| - 1], validate);
      HonestConcat(PlaceOf(s.m), b.1, PlaceOf(b.0.m), last.1, PlaceOf(last.0.m));
    }
  }

  /** The place just before a record. */
  lemma {:induction false} PlaceBefore(a: Place, trail: seq<Transition>, b: Place, k: nat) returns (p: Place)
    requires Connected(a, trail, b) && k < |trail|
    ensures Connected(a, trail[..k], p) && Next(p, trail[k]).Some?
    decreases trail
  {
    if k == 0 {
      p := a;
    } else {
      p := PlaceBefore(Next(a, trail[0]).value, trail[1..], b, k - 1);
      assert trail[..k][1..] == trail[1..][..k - 1];
    }
  }

  lemma {:induction false} LastNext(a: Place, trail: seq<Transition>, b: Place) returns (p: Place)
    requires trail != [] && Connected(a, trail, b)
    ensures Next(p, trail[|trail| - 1]) == Some(b)
    decreases trail
  {
    if |trail| == 1 {
      p := a;
    } else {
      p := LastNext(Next(a, trail[0]).value, trail[1..], b);
    }
  }

  lemma WithdrawnAfterRejection(a: Place, trail: seq<Transition>, b: Place, k: nat) returns (p: Place)
    requires Connected(a, trail, b) && !a.withdrawn && k < |trail|
    requires trail[k].next.Default? && trail[k].prev in {Received, Started}
    ensures k > 0 && trail[k - 1].next.Rejected? && trail[k - 1].prev == trail[k].prev
    ensures Connected(a, trail[..k], p) && p.mrid == trail[k - 1].mrid != ""
  {
    p := PlaceBefore(a, trail, b, k);
    assert p.withdrawn;
    assert trail[..k] != [];
    var before := LastNext(a, trail[..k], p);
  }

  /** Main result: a received or started event only falls back to DEFAULT right after its own
      EVENT_REJECTED. */
  lemma WithdrawnOnlyByRejection(s: Session, ins: seq<Input>, validate: DERControl -> bool, k: nat) returns (p: Place)
    requires Inv(s) && Possible(s, ins, validate) && k < |Run(s, ins, validate).1|
    requires Run(s, ins, validate).1[k].next.Default? && Run(s, ins, validate).1[k].prev in {Received, Started}
    ensures var trail := Run(s, ins, validate).1;
            && k > 0 && trail[k - 1].next.Rejected? && trail[k - 1].prev == trail[k].prev
            && Connected(PlaceOf(s.m), trail[..k], p) && p.mrid == trail[k - 1].mrid != ""
  {
    RunHonest(s, ins, validate);
    var r := Run(s, ins, validate);
    p := WithdrawnAfterRejection(PlaceOf(s.m), r.1, PlaceOf(r.0.m), k);
  }

  // ---------------------------------------------------------------- one event's word

  /** The states the records about `x` enter, rejections aside. */
  ghost function Word(trail: seq<Transition>, x: string): seq<EventState> {
    if trail == [] then []
    else
      var t := trail[|trail| - 1];
      Word(trail[..|trail| - 1], x) + (if t.mrid == x && !t.next.Rejected? then [t.next] else [])
  }

  lemma {:induction false} WordConcat(a: seq<Transition>, b: seq<Transition>, x: string)
    ensures Word(a + b, x) == Word(a, x) + Word(b, x)
  {
    if b == [] {
      assert a + b == a;
    } else {
      var n := |b| - 1;
      WordConcat(a, b[..n], x);
      assert (a + b)[..|a + b| - 1] == a + b[..n];
    }
  }

  lemma WordChain(w: seq<EventState>, a: seq<Transition>, b: seq<Transition>, x: string)
    ensures w + Word(a + b, x) == (w + Word(a, x)) + Word(b, x)
  {
    WordConcat(a, b, x);
  }

  lemma WordOfOne(t: Transition, x: string)
    ensures Word([t], x) == if t.mrid == x && !t.next.Rejected? then [t.next] else []
  {
    assert [t][..0] == [];
  }

  lemma WordOfTwo(t: Transition, u: Transition, x: string)
    ensures Word([t, u], x) == Word([t], x) + Word([u], x)
  {
    WordConcat([t], [u], x);
    assert [t] + [u] == [t, u];
  }

  /** The life of one event: received, then perhaps started, then perhaps ended. */
  ghost predicate Life(w: seq<EventState>) {
    || w == []
    || w == [Received]
    || w == [Received, Started]
    || w == [Received, Started, Completed]
    || w == [Received, Started, Cancelled]
    || w == [Received, Cancelled]
  }

  ghost predicate Queued(q: seq<ScheduledEvent>, x: string) {
    exists e :: e in q && e.mrid == x
  }

  /** `w` is what has been recorded about `x` since it was last listed. */
  ghost predicate Tracks(w: seq<EventState>, m: Machine, q: seq<ScheduledEvent>, x: string) {
    && Life(w)
    && (Queued(q, x) && m.activeMRID != x ==> w == [])
    && (m.activeMRID == x && m.state.Received? ==> w == [Received])
    && (m.activeMRID == x && m.state.Started? ==> w == [Received, Started])
  }

  lemma RejectOneTracks(m: Machine, q: seq<ScheduledEvent>, item: DERControl, live: set<string>, w: seq<EventState>,
                        x: string)
    requires Fit(m, q, live) && x != "" && Tracks(w, m, q, x)
    ensures var r := RejectOne(m, q, item); Word(r.out, x) == [] && Tracks(w, r.m, r.q, x)
  {
    RemoveOne(q, item.mrid);
    RejectOneWord(m, q, item, x);
  }

  lemma RejectOneWord(m: Machine, q: seq<ScheduledEvent>, item: DERControl, x: string)
    requires x != ""
    ensures Word(RejectOne(m, q, item).out, x) == []
  {
    var out := RejectOne(m, q, item).out;
    if |out| > 0 { WordOfOne(out[0], x); }
    if |out| == 2 {
      WordOfOne(out[1], x);
      WordOfTwo(out[0], out[1], x);
    }
  }

  lemma {:induction false} RejectTracks(m: Machine, q: seq<ScheduledEvent>, items: seq<DERControl>, live: set<string>,
                                        w: seq<EventState>, x: string)
    requires Fit(m, q, live) && x != "" && Tracks(w, m, q, x)
    ensures var r := RejectAll(m, q, items); Word(r.out, x) == [] && Tracks(w, r.m, r.q, x)
  {
    if items != [] {
      var n := |items| - 1;
      RejectTracks(m, q, items[..n], live, w, x);
      RejectFit(m, q, items[..n], live);
      var before := RejectAll(m, q, items[..n]);
      RejectOneTracks(before.m, before.q, items[n], live, w, x);
      WordConcat(before.out, RejectOne(before.m, before.q, items[n]).out, x);
    }
  }

  lemma {:induction false} ReceiveWord(m: Machine, added: seq<DERControl>, validate: DERControl -> bool, x: string)
    ensures Word(Receive(m, added, validate).out, x) == []
  {
    if added != [] {
      var n := |added| - 1;
      ReceiveWord(m, added[..n], validate, x);
      var t := Transition(Receive(m, added[..n], validate).m.state, Rejected, added[n].mrid, Some(added[n]));
      WordConcat(Receive(m, added[..n], validate).out, [t], x);
      WordOfOne(t, x);
    }
  }

  lemma CancelTracks(m: Machine, q: seq<ScheduledEvent>, cancelled: seq<DERControl>, live: set<string>,
                     w: seq<EventState>, x: string)
    requires Fit(m, q, live) && x != "" && Tracks(w, m, q, x)
    ensures var c := Cancel(m, q, cancelled); Tracks(w + Word(c.out, x), c.m, c.q, x)
  {
    CancelFit(m, q, cancelled, live);
    var c := Cancel(m, q, cancelled);
    if c.out != [] {
      WordOfTwo(c.out[0], c.out[1], x);
      WordOfOne(c.out[0], x);
      WordOfOne(c.out[1], x);
    }
    assert w + [] == w;
  }

  lemma CompleteTracks(m: Machine, q: seq<ScheduledEvent>, now: int, w: seq<EventState>, x: string)
    requires x != "" && Tracks(w, m, q, x)
    requires m.state.Started? ==> !Queued(q, m.activeMRID)
    ensures var c := Complete(m, now); Tracks(w + Word(c.1, x), c.0, q, x)
  {
    var c := Complete(m, now);
    if c.1 != [] {
      WordOfTwo(c.1[0], c.1[1], x);
      WordOfOne(c.1[0], x);
      WordOfOne(c.1[1], x);
    }
    assert w + [] == w;
  }

  /** Phase 4 takes the first `due` events off the queue: first the head may be received... */
  lemma SeeTracks(m: Machine, q: seq<ScheduledEvent>, due: nat, live: set<string>, w: seq<EventState>, x: string)
    requires Fit(m, q, live) && x != "" && Tracks(w, m, q, x) && 0 < due <= |q|
    ensures var seen := See(m, q[0]); Tracks(w + Word(seen.1, x), seen.0, q[due..], x)
    ensures !Queued(q[due..], q[0].mrid)
  {
    assert q[0] in q;
    forall e | e in q[due..] ensures e in q && e.mrid != q[0].mrid {
      var i :| 0 <= i < |q| - due && q[due..][i] == e;
      assert q[due + i] == e;
    }
    WordOfOne(Transition(Default, Received, q[0].mrid, Some(q[0].source)), x);
    assert w + [] == w;
  }

  /** ... then the received head may start, and end. */
  lemma BeginTracks(m: Machine, head: ScheduledEvent, rest: seq<ScheduledEvent>, now: int, w: seq<EventState>,
                    x: string)
    requires x != "" && Tracks(w, m, rest, x) && !Queued(rest, head.mrid)
    ensures var b := Begin(m, head, now); Tracks(w + Word(b.1, x), b.0, rest, x)
  {
    assert w + [] == w;
    if m.state.Received? && m.activeMRID == head.mrid {
      var started := Enter(Activate(m, head), Started);
      var t := Transition(Received, Started, head.mrid, Some(head.source));
      WordOfOne(t, x);
      CompleteTracks(started, rest, now, w + Word([t], x), x);
      WordChain(w, [t], Complete(started, now).1, x);
    }
  }

  lemma FireTracks(m: Machine, q: seq<ScheduledEvent>, due: nat, now: int, live: set<string>, w: seq<EventState>,
                   x: string)
    requires Fit(m, q, live) && x != "" && Tracks(w, m, q, x) && due <= |q|
    ensures var f := Fire(m, q[..due], now); Tracks(w + Word(f.1, x), f.0, q[due..], x)
  {
    if due == 0 {
      assert w + [] == w && q[0..] == q;
    } else {
      SeeTracks(m, q, due, live, w, x);
      assert q[..due][0] == q[0];
      var seen := See(m, q[0]);
      BeginTracks(seen.0, q[0], q[due..], now, w + Word(seen.1, x), x);
      WordChain(w, seen.1, Begin(seen.0, q[0], now).1, x);
    }
  }

  lemma ObserveTracks(m: Machine, q: seq<ScheduledEvent>, w: seq<EventState>, x: string)
    requires x != "" && Tracks(w, m, q, x) && (m.state.Default? ==> m.activeMRID == "")
    ensures var o := Observe(m, q); Tracks(w + Word(o.1, x), o.0, q, x)
  {
    var o := Observe(m, q);
    if o.1 != [] {
      WordOfOne(o.1[0], x);
      assert q[0] in q;
    }
    assert w + [] == w;
  }

  lemma EndingTracks(m: Machine, q: seq<ScheduledEvent>, now: int, cancelled: seq<DERControl>, live: set<string>,
                     w: seq<EventState>, x: string)
    requires Fit(m, q, live) && x != "" && Tracks(w, m, q, x)
    ensures var e := Ending(m, q, now, cancelled); Tracks(w + Word(e.out, x), e.m, e.q, x)
  {
    var c := Cancel(m, q, cancelled);
    CancelFit(m, q, cancelled, live);
    CancelTracks(m, q, cancelled, live, w, x);
    CompleteTracks(c.m, c.q, now, w + Word(c.out, x), x);
    WordChain(w, c.out, Complete(c.m, now).1, x);
  }

  lemma BeginningTracks(m: Machine, q: seq<ScheduledEvent>, now: int, live: set<string>, w: seq<EventState>, x: string)
    requires Fit(m, q, live) && x != "" && Tracks(w, m, q, x) && (m.state.Started? ==> !PastExpiry(m, now))
    ensures var b := Beginning(m, q, now); Tracks(w + Word(b.out, x), b.m, b.q, x)
  {
    var due := Due(q, now);
    var fired := Fire(m, q[..due], now);
    FireTracks(m, q, due, now, live, w, x);
    DueSplits(q, now);
    FireFit(m, q, due, now, live);
    ObserveTracks(fired.0, q[due..], w + Word(fired.1, x), x);
    WordChain(w, fired.1, Observe(fired.0, q[due..]).1, x);
  }

  lemma AdvanceTracks(m: Machine, q: seq<ScheduledEvent>, now: int, cancelled: seq<DERControl>, live: set<string>,
                      w: seq<EventState>, x: string)
    requires Fit(m, q, live) && x != "" && Tracks(w, m, q, x)
    ensures var a := Advance(m, q, now, cancelled); Tracks(w + Word(a.out, x), a.m, a.q, x)
  {
    EndingTracks(m, q, now, cancelled, live, w, x);
    CancelFit(m, q, cancelled, live);
    var e := Ending(m, q, now, cancelled);
    BeginningTracks(e.m, e.q, now, live - Index(cancelled).Keys, w + Word(e.out, x), x);
    WordChain(w, e.out, Beginning(e.m, e.q, now).out, x);
  }

  lemma DiffTickTracks(m: Machine, q: seq<ScheduledEvent>, prev: map<string, DERControl>, curr: map<string, DERControl>,
                       now: int, ch: Choices, validate: DERControl -> bool, w: seq<EventState>, x: string)
    requires Keyed(prev) && Keyed(curr)
    requires Fit(m, q, Live(prev)) && ChoicesFit(ch, m, q, prev, curr, validate)
    requires x != "" && Tracks(w, m, q, x) && (x in prev || w == [])
    ensures var t := DiffTick(m, q, prev, curr, now, ch, validate); Tracks(w + Word(t.out, x), t.m, t.q, x)
  {
    var added := Pick(ch.added, prev, curr);
    var cancelled := Pick(ch.cancelled, prev, curr);
    DiffFresh(prev, curr, ch);
    ReceiveFit(m, q, added, Live(prev), validate, ch.draws, ch.requeued);
    ReceiveFacts(m, added, validate);
    ReceiveWord(m, added, validate, x);
    var r := Receive(m, added, validate);
    assert Tracks(w, r.m, ch.requeued, x) by {
      if Queued(ch.requeued, x) && !Queued(q, x) {
        assert x in IDsOf(added);
      }
    }
    AdvanceTracks(r.m, ch.requeued, now, cancelled, Live(prev) + IDsOf(added), w, x);
    WordChain(w, r.out, Advance(r.m, ch.requeued, now, cancelled).out, x);
    assert w + [] == w;
  }

  /** One input extends the word of an event that was listed, or of which nothing is recorded yet. */
  lemma StepTracks(s: Session, i: Input, validate: DERControl -> bool, w: seq<EventState>, x: string)
    requires Inv(s) && Enabled(s, i, validate)
    requires x != "" && Tracks(w, s.m, s.q, x) && (x in s.prev || w == [])
    ensures var t := Step(s, i, validate); Tracks(w + Word(t.1, x), t.0.m, t.0.q, x)
  {
    match i
    case Poll(list, now, ch) =>
      SnapshotFacts(list);
      RejectFit(s.m, s.q, list.rejected, Live(s.prev));
      RejectTracks(s.m, s.q, list.rejected, Live(s.prev), w, x);
      var r := RejectAll(s.m, s.q, list.rejected);
      DiffTickTracks(r.m, r.q, s.prev, Snapshot(list), now, ch, validate, w, x);
      var t := DiffTick(r.m, r.q, s.prev, Snapshot(list), now, ch, validate);
      WordChain(w, r.out, t.out, x);
      assert w + [] == w;
    case Failed(now) =>
      FailedTick(s.m, s.q, now, validate);
      AdvanceTracks(s.m, s.q, now, [], Live(s.prev), w, x);
    case Switch(now, ch) =>
      DiffTickTracks(s.m, s.q, s.prev, map[], now, ch, validate, w, x);
      assert !Queued([], x);
  }

  /** `x` stays listed, or stays unlisted, through this input: it does not leave. */
  ghost predicate Keeps(s: Session, i: Input, x: string) {
    match i
    case Poll(list, _, _) => x in s.prev ==> x in Snapshot(list)
    case Failed(_) => true
    case Switch(_, _) => x !in s.prev
  }

  ghost predicate KeepsAll(s: Session, ins: seq<Input>, x: string, validate: DERControl -> bool)
    requires Possible(s, ins, validate)
    decreases |ins|
  {
    ins == [] ||
    (KeepsAll(s, ins[..|ins| - 1], x, validate) && Keeps(Run(s, ins[..|ins| - 1], validate).0, ins[|ins| - 1], x))
  }

  lemma {:induction false} KeptTracks(s: Session, ins: seq<Input>, x: string, validate: DERControl -> bool)
    requires Inv(s) && x != "" && x !in s.prev
    requires Possible(s, ins, validate) && KeepsAll(s, ins, x, validate)
    ensures var r := Run(s, ins, validate);
            Tracks(Word(r.1, x), r.0.m, r.0.q, x) && (x in r.0.prev || Word(r.1, x) == [])
  {
    if ins != [] {
      var before := ins[..|ins| - 1];
      KeptTracks(s, before, x, validate);
      RunKeepsInv(s, before, validate);
      var b := Run(s, before, validate);
      var i := ins[|ins| - 1];
      var last := Step(b.0, i, validate);
      StepTracks(b.0, i, validate, Word(b.1, x), x);
      StepKeepsInv(b.0, i, validate);
      WordConcat(b.1, last.1, x);
      if x !in last.0.prev {
        assert x !in b.0.prev;
        UnlistedSilent(b.0, i, validate, x);
      }
    }
  }

  /** Nothing is recorded about an event that is listed neither before nor after an input. */
  lemma UnlistedSilent(s: Session, i: Input, validate: DERControl -> bool, x: string)
    requires Inv(s) && Enabled(s, i, validate) && x != ""
    requires x !in s.prev && x !in Step(s, i, validate).0.prev
    ensures Word(Step(s, i, validate).1, x) == []
  {
    StepTracks(s, i, validate, [], x);
    var t := Step(s, i, validate);
    StepKeepsInv(s, i, validate);
    match i
    case Poll(list, now, ch) =>
      var curr := Snapshot(list);
      SnapshotFacts(list);
      RejectFit(s.m, s.q, list.rejected, Live(s.prev));
      RejectTracks(s.m, s.q, list.rejected, Live(s.prev), [], x);
      var r := RejectAll(s.m, s.q, list.rejected);
      UnlistedSilentTick(r.m, r.q, s.prev, curr, now, ch, validate, x);
      WordConcat(r.out, DiffTick(r.m, r.q, s.prev, curr, now, ch, validate).out, x);
    case Failed(now) =>
      FailedTick(s.m, s.q, now, validate);
      UnlistedSilentAdvance(s.m, s.q, now, [], Live(s.prev), x);
    case Switch(now, ch) =>
      UnlistedSilentTick(s.m, s.q, s.prev, map[], now, ch, validate, x);
  }

  lemma UnlistedSilentTick(m: Machine, q: seq<ScheduledEvent>, prev: map<string, DERControl>,
                           curr: map<string, DERControl>,
                           now: int, ch: Choices, validate: DERControl -> bool, x: string)
    requires Keyed(prev) && Keyed(curr) && x != "" && x !in prev && x !in curr
    requires Fit(m, q, Live(prev)) && ChoicesFit(ch, m, q, prev, curr, validate)
    ensures Word(DiffTick(m, q, prev, curr, now, ch, validate).out, x) == []
  {
    var added := Pick(ch.added, prev, curr);
    var cancelled := Pick(ch.cancelled, prev, curr);
    DiffFresh(prev, curr, ch);
    ReceiveFit(m, q, added, Live(prev), validate, ch.draws, ch.requeued);
    ReceiveFacts(m, added, validate);
    ReceiveWord(m, added, validate, x);
    var r := Receive(m, added, validate);
    UnlistedSilentAdvance(r.m, ch.requeued, now, cancelled, Live(prev) + IDsOf(added), x);
    WordConcat(r.out, Advance(r.m, ch.requeued, now, cancelled).out, x);
  }

  lemma UnlistedSilentAdvance(m: Machine, q: seq<ScheduledEvent>, now: int, cancelled: seq<DERControl>,
                              live: set<string>, x: string)
    requires Fit(m, q, live) && x != "" && x !in live
    ensures Word(Advance(m, q, now, cancelled).out, x) == []
  {
    // Everything phases 2 to 5 record is about a live event.
    var a := Advance(m, q, now, cancelled);
    AdvanceRecordsLive(m, q, now, cancelled, live);
    WordAbsent(a.out, x);
  }

  /** Records about live events, or about none. */
  ghost predicate About(trail: seq<Transition>, live: set<string>) {
    forall t :: t in trail ==> t.mrid in live + {""} && !t.next.Rejected?
  }

  lemma AdvanceRecordsLive(m: Machine, q: seq<ScheduledEvent>, now: int, cancelled: seq<DERControl>, live: set<string>)
    requires Fit(m, q, live)
    ensures About(Advance(m, q, now, cancelled).out, live)
  {
    CancelFit(m, q, cancelled, live);
    var e := Ending(m, q, now, cancelled);
    assert About(Cancel(m, q, cancelled).out, live);
    BeginningRecordsLive(e.m, e.q, now, live);
  }

  lemma BeginningRecordsLive(m: Machine, q: seq<ScheduledEvent>, now: int, live: set<string>)
    requires forall e :: e in q ==> e.mrid in live
    ensures About(Beginning(m, q, now).out, live + {m.activeMRID})
  {
    var due := Due(q, now);
    if due < |q| { assert q[due..][0] == q[due] && q[due] in q; }
    if due > 0 { assert q[..due][0] == q[0] && q[0] in q; }
  }

  lemma {:induction false} WordAbsent(trail: seq<Transition>, x: string)
    requires forall t :: t in trail ==> t.mrid != x
    ensures Word(trail, x) == []
  {
    if trail != [] {
      WordAbsent(trail[..|trail| - 1], x);
      assert trail[|trail| - 1] in trail;
    }
  }

  /** Main result: from the moment an event is not listed until it leaves the list again, it is
      received, started and ended at most once each, in that order. */
  lemma OncePerListing(s: Session, ins: seq<Input>, x: string, validate: DERControl -> bool)
    requires Inv(s) && x != "" && x !in s.prev
    requires Possible(s, ins, validate) && (ins == [] || KeepsAll(s, ins[..|ins| - 1], x, validate))
    ensures Life(Word(Run(s, ins, validate).1, x))
  {
    if ins != [] {
      var before := ins[..|ins| - 1];
      KeptTracks(s, before, x, validate);
      RunKeepsInv(s, before, validate);
      var b := Run(s, before, validate);
      StepTracks(b.0, ins[|ins| - 1], validate, Word(b.1, x), x);
      WordConcat(b.1, Step(b.0, ins[|ins| - 1], validate).1, x);
    }
  }
}
