/** The DERControl event state machine (internal/inverter/statemachine.go).

    `Machine` is the value the object holds; each phase of a tick is a function on it, and the
    methods of `StateMachine` are proved to compute exactly those functions. The transition list a
    method returns is what the hooks see, in order. */
module Lifecycle {
  import opened Common
  import opened Scheduling

  datatype EventState = Default | Received | Started | Completed | Cancelled | Rejected

  datatype Transition = Transition(prev: EventState, next: EventState, mrid: string, evt: Option<DERControl>)

  /** time.Time{} as Unix seconds: 0001-01-01T00:00:00Z. */
  const NO_TIME: int := -62135596800

  datatype Machine = Machine(
    state: EventState,
    activeMRID: string,
    active: Option<DERControl>,
    expireAt: int,
    rejected: set<string>)

  const INITIAL := Machine(Default, "", None, NO_TIME, {})

  predicate IsCancelled(c: DERControl) {
    c.status == Some(EVENT_CANCELLED)
  }

  /** transitionLocked: enter `next`; DEFAULT clears the active event. */
  function Enter(m: Machine, next: EventState): Machine {
    if next.Default? then m.(state := Default, activeMRID := "", active := None, expireAt := NO_TIME)
    else m.(state := next)
  }

  /** A machine, a queue and the transitions recorded on the way there. */
  datatype Outcome = Outcome(m: Machine, q: seq<ScheduledEvent>, out: seq<Transition>)

  // ---------------------------------------------------------------- Reject

  function RejectOne(m: Machine, q: seq<ScheduledEvent>, item: DERControl): Outcome {
    if item.mrid == "" || item.mrid in m.rejected || IsCancelled(item) then Outcome(m, q, [])
    else
      var m1 := m.(rejected := m.rejected + {item.mrid});
      var out := [Transition(m.state, Rejected, item.mrid, Some(item))];
      var q1 := Remove(q, item.mrid);
      if m.activeMRID == item.mrid && (m.state.Received? || m.state.Started?) then
        Outcome(Enter(m1, Default), q1, out + [Transition(m.state, Default, "", None)])
      else Outcome(m1, q1, out)
  }

  function RejectAll(m: Machine, q: seq<ScheduledEvent>, items: seq<DERControl>): Outcome {
    if items == [] then Outcome(m, q, [])
    else
      var n := |items| - 1;
      var before := RejectAll(m, q, items[..n]);
      var last := RejectOne(before.m, before.q, items[n]);
      Outcome(last.m, last.q, before.out + last.out)
  }

  // ---------------------------------------------------------------- the phases of a tick

  /** Phase 1: what the validator and the rejected set let through. */
  datatype Receipt = Receipt(m: Machine, accepted: seq<DERControl>, out: seq<Transition>)

  function Receive(m: Machine, added: seq<DERControl>, validate: DERControl -> bool): Receipt {
    if added == [] then Receipt(m, [], [])
    else
      var n := |added| - 1;
      var before := Receive(m, added[..n], validate);
      var ev := added[n];
      if ev.mrid in before.m.rejected then before
      else if !validate(ev) then
        Receipt(before.m.(rejected := before.m.rejected + {ev.mrid}), before.accepted,
                before.out + [Transition(before.m.state, Rejected, ev.mrid, Some(ev))])
      else before.(accepted := before.accepted + [ev])
  }

  /** The queue the additions may leave, given what sort.Slice made of it. */
  ghost predicate Requeued(q: seq<ScheduledEvent>, accepted: seq<DERControl>, draws: nat -> Draw,
                           sorted: seq<ScheduledEvent>) {
    if accepted == [] then sorted == q else IsSortOf(sorted, AddAll(q, accepted, draws))
  }

  function NonEmptyIDs(cancelled: seq<DERControl>): seq<string> {
    if cancelled == [] then []
    else
      var n := |cancelled| - 1;
      NonEmptyIDs(cancelled[..n]) + (if cancelled[n].mrid == "" then [] else [cancelled[n].mrid])
  }

  /** The cancelled controls by mRID; of several with one mRID the last counts. */
  function Index(cancelled: seq<DERControl>): map<string, DERControl> {
    if cancelled == [] then map[]
    else
      var n := |cancelled| - 1;
      var before := Index(cancelled[..n]);
      if cancelled[n].mrid == "" then before else before[cancelled[n].mrid := cancelled[n]]
  }

  /** Phase 2. */
  function Cancel(m: Machine, q: seq<ScheduledEvent>, cancelled: seq<DERControl>): Outcome {
    var q1 := RemoveAll(q, NonEmptyIDs(cancelled));
    var index := Index(cancelled);
    if m.activeMRID != "" && m.activeMRID in index && (m.state.Received? || m.state.Started?) then
      Outcome(Enter(m, Default), q1,
              [Transition(m.state, Cancelled, m.activeMRID, Some(index[m.activeMRID])),
                Transition(Cancelled, Default, "", None)])
    else Outcome(m, q1, [])
  }

  predicate PastExpiry(m: Machine, now: int) {
    m.expireAt != NO_TIME && m.expireAt <= now
  }

  /** Phase 3, and the tail of phase 4: an event that has run out ends in the same tick. */
  function Complete(m: Machine, now: int): (r: (Machine, seq<Transition>)) {
    if m.state.Started? && PastExpiry(m, now) then
      (Enter(m, Default), [Transition(Started, Completed, m.activeMRID, m.active),
        Transition(Completed, Default, "", None)])
    else (m, [])
  }

  /** Make `head` the active event. */
  function Activate(m: Machine, head: ScheduledEvent): Machine {
    m.(activeMRID := head.mrid, active := Some(head.source), expireAt := head.expireAt)
  }

  /** An idle machine receives the popped head before starting it. */
  function See(m: Machine, head: ScheduledEvent): (r: (Machine, seq<Transition>)) {
    if m.state.Default? then
      (Enter(Activate(m, head), Received), [Transition(Default, Received, head.mrid, Some(head.source))])
    else (m, [])
  }

  function Begin(m: Machine, head: ScheduledEvent, now: int): (r: (Machine, seq<Transition>)) {
    if m.state.Received? && m.activeMRID == head.mrid then
      var ended := Complete(Enter(Activate(m, head), Started), now);
      (ended.0, [Transition(Received, Started, head.mrid, Some(head.source))] + ended.1)
    else (m, [])
  }

  /** Phase 4: the first popped event may start; the others are dropped. */
  function Fire(m: Machine, expired: seq<ScheduledEvent>, now: int): (r: (Machine, seq<Transition>)) {
    if expired == [] then (m, [])
    else
      var seen := See(m, expired[0]);
      var begun := Begin(seen.0, expired[0], now);
      (begun.0, seen.1 + begun.1)
  }

  /** Phase 5: an idle machine takes notice of the queue's head. */
  function Observe(m: Machine, q: seq<ScheduledEvent>): (r: (Machine, seq<Transition>)) {
    if m.state.Default? && q != [] then
      (Enter(Activate(m, q[0]), Received), [Transition(Default, Received, q[0].mrid, Some(q[0].source))])
    else (m, [])
  }

  /** Phases 2 and 3: what ends. */
  function Ending(m: Machine, q: seq<ScheduledEvent>, now: int, cancelled: seq<DERControl>): Outcome {
    var c := Cancel(m, q, cancelled);
    var done := Complete(c.m, now);
    Outcome(done.0, c.q, c.out + done.1)
  }

  /** Phases 4 and 5: what begins. */
  function Beginning(m: Machine, q: seq<ScheduledEvent>, now: int): Outcome {
    var due := Due(q, now);
    var fired := Fire(m, q[..due], now);
    var seen := Observe(fired.0, q[due..]);
    Outcome(seen.0, q[due..], fired.1 + seen.1)
  }

  /** Phases 2 to 5 on the queue that phase 1 left. */
  function Advance(m: Machine, q: seq<ScheduledEvent>, now: int, cancelled: seq<DERControl>): Outcome {
    var e := Ending(m, q, now, cancelled);
    var b := Beginning(e.m, e.q, now);
    b.(out := e.out + b.out)
  }

  /** computeTransitionsLocked, where `requeued` is the queue phase 1 left. */
  function TickOn(m: Machine, requeued: seq<ScheduledEvent>, now: int, added: seq<DERControl>,
                  cancelled: seq<DERControl>,
                  validate: DERControl -> bool): Outcome {
    var r := Receive(m, added, validate);
    var a := Advance(r.m, requeued, now, cancelled);
    a.(out := r.out + a.out)
  }

  // ---------------------------------------------------------------- the object

  class StateMachine {
    var state: EventState
    var activeMRID: string
    var activeDERCtrl: Option<DERControl>
    var activeExpireAt: int
    var rejected: set<string>
    /** The installed check; a machine without one is `_ => true`. */
    const validate: DERControl -> bool

    constructor (validate: DERControl -> bool)
      ensures Abs() == INITIAL && this.validate == validate
    {
      state, activeMRID, activeDERCtrl, activeExpireAt, rejected := Default, "", None, NO_TIME, {};
      this.validate := validate;
    }

    ghost function Abs(): Machine
      reads this
    {
      Machine(state, activeMRID, activeDERCtrl, activeExpireAt, rejected)
    }

    method TransitionTo(next: EventState, mrid: string, evt: Option<DERControl>) returns (t: Transition)
      modifies this
      ensures t == Transition(old(state), next, mrid, evt)
      ensures Abs() == Enter(old(Abs()), next)
    {
      t := Transition(state, next, mrid, evt);
      state := next;
      if next == Default {
        activeMRID, activeDERCtrl, activeExpireAt := "", None, NO_TIME;
      }
    }

    method RecordRejected(evt: DERControl) returns (t: Transition)
      modifies this
      ensures t == Transition(old(state), Rejected, evt.mrid, Some(evt))
      ensures Abs() == old(Abs()).(rejected := old(rejected) + {evt.mrid})
    {
      rejected := rejected + {evt.mrid};
      t := Transition(state, Rejected, evt.mrid, Some(evt));
    }

    /** Refuses list items that could not be decoded. */
    method Reject(items: seq<DERControl>, sched: Scheduler) returns (out: seq<Transition>)
      modifies this, sched
      ensures Outcome(Abs(), sched.queue, out) == RejectAll(old(Abs()), old(sched.queue), items)
    {
      out := [];
      for i := 0 to |items|
        invariant Outcome(Abs(), sched.queue, out) == RejectAll(old(Abs()), old(sched.queue), items[..i])
      {
        assert items[..i + 1][..i] == items[..i];
        var item := items[i];
        if item.mrid == "" || item.mrid in rejected || item.status == Some(EVENT_CANCELLED) {
          continue;
        }
        var t := RecordRejected(item);
        out := out + [t];
        sched.OnEventsCancelled([item.mrid]);
        assert RemoveAll(old(sched.queue), []) == old(sched.queue);
        if activeMRID == item.mrid && (state == Received || state == Started) {
          t := TransitionTo(Default, "", None);
          out := out + [t];
        }
      }
      assert items[..|items|] == items;
    }

    /** The phase-1 loop. */
    method Accept(added: seq<DERControl>) returns (accepted: seq<DERControl>, out: seq<Transition>)
      modifies this
      ensures Receipt(Abs(), accepted, out) == Receive(old(Abs()), added, validate)
    {
      accepted, out := [], [];
      for i := 0 to |added|
        invariant Receipt(Abs(), accepted, out) == Receive(old(Abs()), added[..i], validate)
      {
        assert added[..i + 1][..i] == added[..i];
        if added[i].mrid in rejected {
          continue;
        }
        if !validate(added[i]) {
          var t := RecordRejected(added[i]);
          out := out + [t];
          continue;
        }
        accepted := accepted + [added[i]];
      }
      assert added[..|added|] == added;
    }

    /** The mRID list and the mRID index phase 2 builds in one loop. */
    static method IndexCancelled(cancelled: seq<DERControl>)
      returns (mrids: seq<string>, index: map<string, DERControl>)
      ensures mrids == NonEmptyIDs(cancelled) && index == Index(cancelled)
    {
      mrids, index := [], map[];
      for i := 0 to |cancelled|
        invariant mrids == NonEmptyIDs(cancelled[..i]) && index == Index(cancelled[..i])
      {
        assert cancelled[..i + 1][..i] == cancelled[..i];
        var m := cancelled[i].mrid;
        if m != "" {
          mrids := mrids + [m];
          index := index[m := cancelled[i]];
        }
      }
      assert cancelled[..|cancelled|] == cancelled;
    }

    method Tick(now: int, added: seq<DERControl>, cancelled: seq<DERControl>, draws: nat -> Draw, sched: Scheduler)
      returns (out: seq<Transition>, ghost requeued: seq<ScheduledEvent>)
      modifies this, sched
      ensures Requeued(old(sched.queue), Receive(old(Abs()), added, validate).accepted, draws, requeued)
      ensures Abs() == TickOn(old(Abs()), requeued, now, added, cancelled, validate).m
      ensures sched.queue == TickOn(old(Abs()), requeued, now, added, cancelled, validate).q
      ensures out == TickOn(old(Abs()), requeued, now, added, cancelled, validate).out
    {
      // 1. Forward added events.
      var accepted;
      accepted, out := Accept(added);
      if |accepted| > 0 {
        sched.OnEventsAdded(accepted, draws);
      }
      requeued := sched.queue;
      var rest := TickPhases2To5(now, cancelled, sched);
      out := out + rest;
    }

    method TickPhases2To5(now: int, cancelled: seq<DERControl>, sched: Scheduler) returns (out: seq<Transition>)
      modifies this, sched
      ensures Abs() == Advance(old(Abs()), old(sched.queue), now, cancelled).m
      ensures sched.queue == Advance(old(Abs()), old(sched.queue), now, cancelled).q
      ensures out == Advance(old(Abs()), old(sched.queue), now, cancelled).out
    {
      // 2 and 3. Forward cancellations, then natural completion.
      out := CancelListed(cancelled, sched);
      var o := FinishIfExpired(now);
      out := out + o;
      // 4 and 5. Drain the events whose fire time has come, then look at the queue's head.
      var expired := sched.PopExpired(now);
      o := FireHead(expired, now);
      var o' := ObserveHead(sched);
      out := out + (o + o');
    }

    method CancelListed(cancelled: seq<DERControl>, sched: Scheduler) returns (out: seq<Transition>)
      modifies this, sched
      ensures Outcome(Abs(), sched.queue, out) == Cancel(old(Abs()), old(sched.queue), cancelled)
    {
      out := [];
      if |cancelled| == 0 { return; }
      var mrids, index := IndexCancelled(cancelled);
      sched.OnEventsCancelled(mrids);
      ghost var q1 := RemoveAll(old(sched.queue), mrids);
      if activeMRID != "" && activeMRID in index && (state == Received || state == Started) {
        out := EndActive(Cancelled, Some(index[activeMRID]));
      }
    }

    /** A terminal transition of the active event and the auto-revert that follows it. */
    method EndActive(next: EventState, evt: Option<DERControl>) returns (out: seq<Transition>)
      requires next != Default
      modifies this
      ensures out == [Transition(old(state), next, old(activeMRID), evt), Transition(next, Default, "", None)]
      ensures Abs() == Enter(old(Abs()), Default)
    {
      var t := TransitionTo(next, activeMRID, evt);
      var u := TransitionTo(Default, "", None);
      out := [t, u];
    }

    method ObserveHead(sched: Scheduler) returns (out: seq<Transition>)
      modifies this
      ensures Abs() == Observe(old(Abs()), sched.queue).0
      ensures out == Observe(old(Abs()), sched.queue).1
    {
      out := [];
      if state == Default {
        var next := sched.Next();
        if next.Some? {
          activeMRID, activeDERCtrl, activeExpireAt := next.value.mrid, Some(next.value.source), next.value.expireAt;
          var t := TransitionTo(Received, next.value.mrid, Some(next.value.source));
          out := out + [t];
        }
      }
    }

    method FinishIfExpired(now: int) returns (out: seq<Transition>)
      modifies this
      ensures Abs() == Complete(old(Abs()), now).0
      ensures out == Complete(old(Abs()), now).1
    {
      out := [];
      if state == Started && activeExpireAt != NO_TIME && activeExpireAt <= now {
        out := EndActive(Completed, activeDERCtrl);
      }
    }

    method FireHead(expired: seq<ScheduledEvent>, now: int) returns (out: seq<Transition>)
      modifies this
      ensures Abs() == Fire(old(Abs()), expired, now).0
      ensures out == Fire(old(Abs()), expired, now).1
    {
      out := [];
      if |expired| > 0 {
        var head := expired[0];
        if state == Default {
          activeMRID, activeDERCtrl, activeExpireAt := head.mrid, Some(head.source), head.expireAt;
          state := Received;
          out := out + [Transition(Default, Received, head.mrid, Some(head.source))];
        }
        if state == Received && activeMRID == head.mrid {
          activeDERCtrl, activeExpireAt := Some(head.source), head.expireAt;
          var t := TransitionTo(Started, head.mrid, Some(head.source));
          out := out + [t];
          var ended := FinishIfExpired(now);
          out := out + ended;
        }
      }
    }
  }
}
