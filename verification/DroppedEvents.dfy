/** Events that leave the queue without ever being received or started: exactly when, and for how long. */
module DroppedEvents {
  import opened Common
  import opened Scheduling
  import opened Lifecycle
  import opened ControlSession
  import opened EventInvariants
  import opened EventTrails
  import opened EventGuarantees

  // ---------------------------------------------------------------- draining the due events

  /** The head of the due events starts when the machine is idle, or was waiting for it. */
  predicate Fires(m: Machine, q: seq<ScheduledEvent>, x: string) {
    q != [] && q[0].mrid == x && (m.state.Default? || (m.state.Received? && m.activeMRID == x))
  }

  /** What Beginning records, and the event it leaves active, concern one of three events. */
  ghost predicate OneOfThree(m: Machine, q: seq<ScheduledEvent>, now: int, x: string) {
    || x == "" || x == m.activeMRID
    || (Due(q, now) > 0 && x == q[0].mrid)
    || (Due(q, now) < |q| && x == q[Due(q, now)].mrid)
  }

  lemma BeginningConcerns(m: Machine, q: seq<ScheduledEvent>, now: int)
    ensures forall t :: t in Beginning(m, q, now).out ==> OneOfThree(m, q, now, t.mrid)
    ensures OneOfThree(m, q, now, Beginning(m, q, now).m.activeMRID)
  {
    var due := Due(q, now);
    if due > 0 { assert q[..due][0] == q[0]; }
    if due < |q| { assert q[due..][0] == q[due]; }
  }

  lemma {:induction false} WordPresent(trail: seq<Transition>, k: nat, x: string)
    requires k < |trail| && trail[k].mrid == x && !trail[k].next.Rejected?
    ensures Word(trail, x) != []
  {
    if k < |trail| - 1 { WordPresent(trail[..|trail| - 1], k, x); }
  }

  lemma FiredIsRecorded(m: Machine, q: seq<ScheduledEvent>, now: int, x: string)
    requires Due(q, now) > 0 && Fires(m, q, x)
    ensures Word(Beginning(m, q, now).out, x) != []
  {
    var due := Due(q, now);
    assert q[..due][0] == q[0];
    var seen := See(m, q[0]);
    var begun := Begin(seen.0, q[0], now);
    assert begun.1[0] == Transition(Received, Started, x, Some(q[0].source));
    assert Fire(m, q[..due], now).1 == seen.1 + begun.1;
    assert Beginning(m, q, now).out[|seen.1|] == begun.1[0];
    WordPresent(Beginning(m, q, now).out, |seen.1|, x);
  }

  lemma OthersAreSilent(m: Machine, q: seq<ScheduledEvent>, now: int, live: set<string>, x: string)
    requires Fit(m, q, live) && Queued(q[..Due(q, now)], x) && !Fires(m, q, x)
    ensures Word(Beginning(m, q, now).out, x) == []
    ensures m.activeMRID != x ==> Beginning(m, q, now).m.activeMRID != x
  {
    var due := Due(q, now);
    QueuedInPart(q, due, x);
    DisjointParts(q, due, x);
    if due < |q| { assert q[due] in q[due..]; }
    if m.activeMRID == x {
      NothingBegins(m, q, now);
    } else if m.state.Received? && q[0].mrid != m.activeMRID {
      NothingBegins(m, q, now);
    } else if m.state.Started? {
      StartedBegins(m, q, now);
    } else {
      BeginningConcerns(m, q, now);
      WordAbsent(Beginning(m, q, now).out, x);
    }
  }

  /** It leaves the queue and nothing was recorded about it. */
  ghost predicate Dropped(q: seq<ScheduledEvent>, out: seq<Transition>, x: string) {
    !Queued(q, x) && Word(out, x) == []
  }

  lemma BeginningDrops(m: Machine, q: seq<ScheduledEvent>, now: int, live: set<string>, x: string)
    requires Fit(m, q, live) && Queued(q, x)
    ensures var b := Beginning(m, q, now);
            && (Dropped(b.q, b.out, x) <==> Queued(q[..Due(q, now)], x) && !Fires(m, q, x))
            && (Dropped(b.q, b.out, x) && m.activeMRID != x ==> b.m.activeMRID != x)
  {
    var due := Due(q, now);
    QueuedInPart(q, due, x);
    DisjointParts(q, due, x);
    if Queued(q[..due], x) {
      if Fires(m, q, x) { FiredIsRecorded(m, q, now, x); } else { OthersAreSilent(m, q, now, live, x); }
    }
  }

  // ---------------------------------------------------------------- over one input

  /** What ends concerns no event that is still queued. */
  lemma EndingSilent(m: Machine, q: seq<ScheduledEvent>, now: int, cancelled: seq<DERControl>, live: set<string>,
                     x: string)
    requires Fit(m, q, live) && Queued(Ending(m, q, now, cancelled).q, x)
    ensures Word(Ending(m, q, now, cancelled).out, x) == []
  {
    CancelFit(m, q, cancelled, live);
    WordAbsent(Ending(m, q, now, cancelled).out, x);
  }

  lemma DiffDrops(m: Machine, q: seq<ScheduledEvent>, prev: map<string, DERControl>, curr: map<string, DERControl>,
                  now: int, ch: Choices, validate: DERControl -> bool, x: string)
    requires Keyed(prev) && Keyed(curr)
    requires Fit(m, q, Live(prev)) && ChoicesFit(ch, m, q, prev, curr, validate)
    requires var e := Ending(Receive(m, Pick(ch.added, prev, curr), validate).m, ch.requeued, now,
                             Pick(ch.cancelled, prev, curr));
             Queued(e.q, x)
    ensures var e := Ending(Receive(m, Pick(ch.added, prev, curr), validate).m, ch.requeued, now,
                            Pick(ch.cancelled, prev, curr));
            Word(DiffTick(m, q, prev, curr, now, ch, validate).out, x) == Word(Beginning(e.m, e.q, now).out, x)
  {
    var added, cancelled := Pick(ch.added, prev, curr), Pick(ch.cancelled, prev, curr);
    DiffFresh(prev, curr, ch);
    ReceiveFit(m, q, added, Live(prev), validate, ch.draws, ch.requeued);
    ReceiveWord(m, added, validate, x);
    var r := Receive(m, added, validate);
    AdvanceRecords(r.m, ch.requeued, now, cancelled, Live(prev) + IDsOf(added), x);
    WordConcat(r.out, Advance(r.m, ch.requeued, now, cancelled).out, x);
  }

  lemma RejectSilent(m: Machine, q: seq<ScheduledEvent>, items: seq<DERControl>, x: string)
    requires x != ""
    ensures Word(RejectAll(m, q, items).out, x) == []
  {
    RejectCounts(m, q, items, x);
  }

  lemma AdvanceRecords(m: Machine, q: seq<ScheduledEvent>, now: int, cancelled: seq<DERControl>, live: set<string>,
                       x: string)
    requires Fit(m, q, live) && Queued(Ending(m, q, now, cancelled).q, x)
    ensures var e := Ending(m, q, now, cancelled);
            Word(Advance(m, q, now, cancelled).out, x) == Word(Beginning(e.m, e.q, now).out, x)
  {
    EndingSilent(m, q, now, cancelled, live, x);
    var e := Ending(m, q, now, cancelled);
    WordConcat(e.out, Beginning(e.m, e.q, now).out, x);
  }

  /** Everything an input records about a queued event, it records as the due events are drained. */
  lemma StepRecords(s: Session, i: Input, validate: DERControl -> bool, x: string)
    requires Inv(s) && Enabled(s, i, validate) && !i.Switch? && x != ""
    requires Queued(BeforePop(s, i, validate).q, x)
    ensures var p := BeforePop(s, i, validate);
            Word(Step(s, i, validate).1, x) == Word(Beginning(p.m, p.q, i.now).out, x)
  {
    match i
    case Poll(list, now, ch) =>
      SnapshotFacts(list);
      RejectFit(s.m, s.q, list.rejected, Live(s.prev));
      RejectSilent(s.m, s.q, list.rejected, x);
      var r := RejectAll(s.m, s.q, list.rejected);
      DiffDrops(r.m, r.q, s.prev, Snapshot(list), now, ch, validate, x);
      WordConcat(r.out, DiffTick(r.m, r.q, s.prev, Snapshot(list), now, ch, validate).out, x);
    case Failed(now) =>
      FailedTick(s.m, s.q, now, validate);
      AdvanceRecords(s.m, s.q, now, [], Live(s.prev), x);
  }

  /** Main result: an input drops a queued event, leaving it neither queued nor recorded, exactly when the
      event is due and is not the one that starts: not the first due one, or the machine is busy with
      another event. */
  lemma DroppedExactly(s: Session, i: Input, validate: DERControl -> bool, x: string)
    requires Inv(s) && Enabled(s, i, validate) && !i.Switch?
    requires Queued(BeforePop(s, i, validate).q, x)
    ensures var p := BeforePop(s, i, validate);
            var t := Step(s, i, validate);
            && (Dropped(t.0.q, t.1, x) <==> Queued(p.q[..Due(p.q, i.now)], x) && !Fires(p.m, p.q, x))
            && (Dropped(t.0.q, t.1, x) && p.m.activeMRID != x ==> Lost(t.0, x))
  {
    BeforePopFits(s, i, validate);
    var p := BeforePop(s, i, validate);
    StepRecords(s, i, validate, x);
    BeginningDrops(p.m, p.q, i.now, Live(Step(s, i, validate).0.prev), x);
  }

  lemma {:induction false} RejectKeepsQueued(m: Machine, q: seq<ScheduledEvent>, items: seq<DERControl>,
                                             live: set<string>, e: ScheduledEvent)
    requires Fit(m, q, live) && e in q && forall r :: r in items ==> r.mrid != e.mrid
    ensures e in RejectAll(m, q, items).q
  {
    if items != [] {
      var n := |items| - 1;
      assert items[n] in items;
      RejectKeepsQueued(m, q, items[..n], live, e);
      RejectFit(m, q, items[..n], live);
      RemoveOne(RejectAll(m, q, items[..n]).q, items[n].mrid);
    }
  }

  /** A queued event that is still offered is there when the due ones are drained. */
  lemma OfferedStaysQueued(s: Session, i: Input, validate: DERControl -> bool, x: string)
    requires Inv(s) && Enabled(s, i, validate) && Queued(s.q, x) && StillOffers(i, x)
    ensures Queued(BeforePop(s, i, validate).q, x)
  {
    var e :| e in s.q && e.mrid == x;
    match i
    case Poll(list, now, ch) =>
      var curr := Snapshot(list);
      SnapshotFacts(list);
      RejectFit(s.m, s.q, list.rejected, Live(s.prev));
      RejectKeepsQueued(s.m, s.q, list.rejected, Live(s.prev), e);
      var r := RejectAll(s.m, s.q, list.rejected);
      DiffFresh(s.prev, curr, ch);
      var added, cancelled := Pick(ch.added, s.prev, curr), Pick(ch.cancelled, s.prev, curr);
      ReceiveFit(r.m, r.q, added, Live(s.prev), validate, ch.draws, ch.requeued);
      CancelFit(Receive(r.m, added, validate).m, ch.requeued, cancelled, Live(s.prev) + IDsOf(added));
      assert e in BeforePop(s, i, validate).q;
    case Failed(now) =>
      CancelFit(s.m, s.q, [], Live(s.prev));
      assert e in BeforePop(s, i, validate).q;
  }

  // ---------------------------------------------------------------- over runs

  /** Listed, but neither queued nor active: nothing will be done about it. */
  ghost predicate Lost(s: Session, x: string) {
    x in s.prev && !Queued(s.q, x) && s.m.activeMRID != x
  }

  /** The server still lists `x` in a form that can be read, cancelled or not. */
  ghost predicate StillLists(i: Input, x: string) {
    match i
    case Poll(list, _, _) => x in Snapshot(list)
    case Failed(_) => true
    case Switch(_, _) => false
  }

  /** A machine and queue that do not concern `x` fit without it. */
  lemma FitWithout(m: Machine, q: seq<ScheduledEvent>, live: set<string>, x: string)
    requires Fit(m, q, live) && !Queued(q, x) && m.activeMRID != x
    ensures Fit(m, q, live - {x})
  {
  }

  lemma {:induction false} RejectOthers(m: Machine, q: seq<ScheduledEvent>, items: seq<DERControl>, x: string)
    requires x != "" && forall r :: r in items ==> r.mrid != x
    ensures forall t :: t in RejectAll(m, q, items).out ==> t.mrid != x
  {
    if items != [] {
      assert items[|items| - 1] in items;
      RejectOthers(m, q, items[..|items| - 1], x);
    }
  }

  lemma {:induction false} ReceiveOthers(m: Machine, added: seq<DERControl>, validate: DERControl -> bool, x: string)
    requires forall c :: c in added ==> c.mrid != x
    ensures forall t :: t in Receive(m, added, validate).out ==> t.mrid != x
  {
    if added != [] {
      assert added[|added| - 1] in added;
      ReceiveOthers(m, added[..|added| - 1], validate, x);
    }
  }

  lemma AdvanceOthers(m: Machine, q: seq<ScheduledEvent>, now: int, cancelled: seq<DERControl>, live: set<string>,
                      x: string)
    requires Fit(m, q, live) && x !in live && x != ""
    ensures var a := Advance(m, q, now, cancelled);
            && !Queued(a.q, x) && a.m.activeMRID != x && forall t :: t in a.out ==> t.mrid != x
  {
    AdvanceFit(m, q, now, cancelled, live);
    AdvanceRecordsLive(m, q, now, cancelled, live);
  }

  lemma DiffKeepsLost(m: Machine, q: seq<ScheduledEvent>, prev: map<string, DERControl>, curr: map<string, DERControl>,
                      now: int, ch: Choices, validate: DERControl -> bool, x: string)
    requires Keyed(prev) && Keyed(curr) && x in prev
    requires Fit(m, q, Live(prev) - {x}) && ChoicesFit(ch, m, q, prev, curr, validate)
    ensures var t := DiffTick(m, q, prev, curr, now, ch, validate);
            && !Queued(t.q, x) && t.m.activeMRID != x && forall k :: k in t.out ==> k.mrid != x
  {
    var added, cancelled := Pick(ch.added, prev, curr), Pick(ch.cancelled, prev, curr);
    DiffFresh(prev, curr, ch);
    assert Fresh(added, Live(prev) - {x});
    ReceiveFit(m, q, added, Live(prev) - {x}, validate, ch.draws, ch.requeued);
    forall c | c in added ensures c.mrid != x {
      assert c.mrid in IDsOf(added);
    }
    ReceiveOthers(m, added, validate, x);
    AdvanceOthers(Receive(m, added, validate).m, ch.requeued, now, cancelled, Live(prev) - {x} + IDsOf(added), x);
  }

  lemma StepKeepsLost(s: Session, i: Input, validate: DERControl -> bool, x: string)
    requires Inv(s) && Enabled(s, i, validate) && Lost(s, x) && StillLists(i, x)
    ensures var t := Step(s, i, validate); Lost(t.0, x) && forall k :: k in t.1 ==> k.mrid != x
  {
    FitWithout(s.m, s.q, Live(s.prev), x);
    match i
    case Poll(list, now, ch) =>
      SnapshotFacts(list);
      RejectFit(s.m, s.q, list.rejected, Live(s.prev) - {x});
      RejectOthers(s.m, s.q, list.rejected, x);
      var r := RejectAll(s.m, s.q, list.rejected);
      DiffKeepsLost(r.m, r.q, s.prev, Snapshot(list), now, ch, validate, x);
    case Failed(now) =>
      FailedTick(s.m, s.q, now, validate);
      AdvanceOthers(s.m, s.q, now, [], Live(s.prev) - {x}, x);
  }

  ghost predicate AllList(ins: seq<Input>, x: string) {
    forall i :: i in ins ==> StillLists(i, x)
  }

  /** Main result: a lost event is never queued, active or recorded again for as long as it stays listed. */
  lemma {:induction false} LostStaysLost(s: Session, ins: seq<Input>, validate: DERControl -> bool, x: string)
    requires Inv(s) && Possible(s, ins, validate) && Lost(s, x) && AllList(ins, x)
    ensures var r := Run(s, ins, validate); Lost(r.0, x) && forall t :: t in r.1 ==> t.mrid != x
  {
    if ins != [] {
      var before := ins[..|ins| - 1];
      assert ins[|ins| - 1] in ins && forall i :: i in before ==> i in ins;
      LostStaysLost(s, before, validate, x);
      RunKeepsInv(s, before, validate);
      StepKeepsLost(Run(s, before, validate).0, ins[|ins| - 1], validate, x);
    }
  }
}
