/** One managed device's control session: the cache of the polled list, the snapshot diff and the
    step that drives the state machine (internal/inverter/dercontrol_poll.go,
    cmd/inverterclient/main.go and managed_controls.go).

    A session is a fold of `Step` over what the environment does. The environment also makes the
    choices Go leaves open: the order in which maps are visited, the random draws, and the order in
    which sort.Slice leaves events that fire at the same time. */
module ControlSession {
  import opened Common
  import opened Scheduling
  import opened Lifecycle

  /** A polled DERControlList; `rejected` holds the event part of the undecodable items. */
  datatype ListResult = ListResult(controls: seq<DERControl>, rejected: seq<DERControl>)

  // ---------------------------------------------------------------- the polling cache

  function RejectedIDs(items: seq<DERControl>): set<string> {
    if items == [] then {}
    else RejectedIDs(items[..|items| - 1]) + (if items[|items| - 1].mrid == "" then {} else {items[|items| - 1].mrid})
  }

  function Without(controls: seq<DERControl>, ids: set<string>): seq<DERControl> {
    if controls == [] then []
    else
      var n := |controls| - 1;
      Without(controls[..n], ids) + (if controls[n].mrid in ids then [] else [controls[n]])
  }

  /** acceptedControls: a rejected item takes the controls with its mRID down with it. */
  function Accepted(list: ListResult): seq<DERControl> {
    if list.rejected == [] then list.controls else Without(list.controls, RejectedIDs(list.rejected))
  }

  function ByID(controls: seq<DERControl>): map<string, DERControl> {
    if controls == [] then map[]
    else
      var n := |controls| - 1;
      var before := ByID(controls[..n]);
      if controls[n].mrid == "" then before else before[controls[n].mrid := controls[n]]
  }

  /** What the cache holds after a refresh with `list`. */
  function Snapshot(list: ListResult): map<string, DERControl> {
    ByID(Accepted(list))
  }

  class DERControlCache {
    var controls: map<string, DERControl>
    var rejected: seq<DERControl>

    constructor ()
      ensures controls == map[] && rejected == []
    {
      controls, rejected := map[], [];
    }

    method Refresh(next: ListResult)
      modifies this
      ensures controls == Snapshot(next) && rejected == next.rejected
    {
      var accepted := AcceptedControls(next);
      var latest: map<string, DERControl> := map[];
      for i := 0 to |accepted|
        invariant latest == ByID(accepted[..i])
      {
        assert accepted[..i + 1][..i] == accepted[..i];
        if accepted[i].mrid != "" {
          latest := latest[accepted[i].mrid := accepted[i]];
        }
      }
      assert accepted[..|accepted|] == accepted;
      controls, rejected := latest, next.rejected;
    }
  }

  method AcceptedControls(list: ListResult) returns (out: seq<DERControl>)
    ensures out == Accepted(list)
  {
    if |list.rejected| == 0 { return list.controls; }
    var ids := {};
    for i := 0 to |list.rejected|
      invariant ids == RejectedIDs(list.rejected[..i])
    {
      assert list.rejected[..i + 1][..i] == list.rejected[..i];
      if list.rejected[i].mrid != "" { ids := ids + {list.rejected[i].mrid}; }
    }
    assert list.rejected[..|list.rejected|] == list.rejected;
    out := [];
    for i := 0 to |list.controls|
      invariant out == Without(list.controls[..i], ids)
    {
      assert list.controls[..i + 1][..i] == list.controls[..i];
      if list.controls[i].mrid !in ids { out := out + [list.controls[i]]; }
    }
    assert list.controls[..|list.controls|] == list.controls;
  }

  /** A cache files every control under its own, non-empty mRID. */
  ghost predicate Keyed(s: map<string, DERControl>) {
    forall k :: k in s ==> k != "" && s[k].mrid == k
  }

  lemma {:induction false} SnapshotFacts(list: ListResult)
    ensures Keyed(Snapshot(list))
    ensures forall r :: r in list.rejected ==> r.mrid !in Snapshot(list)
  {
    ByIDFacts(Accepted(list));
    if list.rejected != [] {
      WithoutFacts(list.controls, RejectedIDs(list.rejected));
      RejectedIDsFacts(list.rejected);
    }
  }

  lemma {:induction false} ByIDFacts(controls: seq<DERControl>)
    ensures Keyed(ByID(controls))
    ensures forall k :: k in ByID(controls) ==> ByID(controls)[k] in controls
  {
    if controls != [] { ByIDFacts(controls[..|controls| - 1]); }
  }

  lemma {:induction false} WithoutFacts(controls: seq<DERControl>, ids: set<string>)
    ensures forall c :: c in Without(controls, ids) <==> c in controls && c.mrid !in ids
  {
    if controls != [] {
      var n := |controls| - 1;
      WithoutFacts(controls[..n], ids);
      assert controls == controls[..n] + [controls[n]];
    }
  }

  lemma {:induction false} RejectedIDsFacts(items: seq<DERControl>)
    ensures forall r :: r in items && r.mrid != "" ==> r.mrid in RejectedIDs(items)
  {
    if items != [] {
      var n := |items| - 1;
      RejectedIDsFacts(items[..n]);
      assert items == items[..n] + [items[n]];
    }
  }

  // ---------------------------------------------------------------- the snapshot diff

  function AddedKeys(prev: map<string, DERControl>, curr: map<string, DERControl>): set<string> {
    set k | k in curr && !IsCancelled(curr[k]) && k !in prev
  }

  function CancelledKeys(prev: map<string, DERControl>, curr: map<string, DERControl>): set<string> {
    (set k | k in curr && IsCancelled(curr[k])) + (set k | k in prev && k !in curr)
  }

  /** The controls the diff reports for `keys`: from curr when listed there, else from prev. */
  function Pick(keys: seq<string>, prev: map<string, DERControl>, curr: map<string, DERControl>): seq<DERControl>
    requires forall k :: k in keys ==> k in prev || k in curr
  {
    seq(|keys|, i requires 0 <= i < |keys| => if keys[i] in curr then curr[keys[i]] else prev[keys[i]])
  }

  /** diffSnapshots: two buckets, each listing its keys once in the order the maps were visited. */
  method DiffSnapshots(prev: map<string, DERControl>, curr: map<string, DERControl>)
    returns (added: seq<DERControl>, cancelled: seq<DERControl>, ghost addedKeys: seq<string>,
      ghost cancelledKeys: seq<string>)
    ensures Lists(addedKeys, AddedKeys(prev, curr)) && added == Pick(addedKeys, prev, curr)
    ensures Lists(cancelledKeys, CancelledKeys(prev, curr)) && cancelled == Pick(cancelledKeys, prev, curr)
  {
    added, cancelled, addedKeys, cancelledKeys := [], [], [], [];
    var todo := curr.Keys;
    while todo != {}
      invariant todo <= curr.Keys
      invariant Lists(addedKeys, AddedKeys(prev, curr) - todo) && added == Pick(addedKeys, prev, curr)
      invariant Lists(cancelledKeys, (set k | k in curr && IsCancelled(curr[k])) - todo)
      invariant cancelled == Pick(cancelledKeys, prev, curr)
      decreases todo
    {
      var k :| k in todo;
      todo := todo - {k};
      if IsCancelled(curr[k]) {
        cancelled, cancelledKeys := cancelled + [curr[k]], cancelledKeys + [k];
      } else if k !in prev {
        added, addedKeys := added + [curr[k]], addedKeys + [k];
      }
    }
    todo := prev.Keys;
    while todo != {}
      invariant todo <= prev.Keys
      invariant Lists(cancelledKeys, (set k | k in curr && IsCancelled(curr[k]))
          + ((set k | k in prev && k !in curr) - todo))
      invariant cancelled == Pick(cancelledKeys, prev, curr)
      decreases todo
    {
      var k :| k in todo;
      todo := todo - {k};
      if k !in curr {
        cancelled, cancelledKeys := cancelled + [prev[k]], cancelledKeys + [k];
      }
    }
  }

  lemma ListsSomething(keys: seq<string>, xs: set<string>)
    requires Lists(keys, xs)
    ensures keys != [] ==> exists x :: x in xs
  {
    if keys != [] { assert keys[0] in xs; }
  }

  // ---------------------------------------------------------------- the session as a fold

  datatype Session = Session(m: Machine, q: seq<ScheduledEvent>, prev: map<string, DERControl>)

  /** What the environment decides within one step. */
  datatype Choices = Choices(
    added: seq<string>,
    cancelled: seq<string>,
    draws: nat -> Draw,
    requeued: seq<ScheduledEvent>)

  datatype Input =
    | Poll(list: ListResult, now: int, ch: Choices)  // the list was read
    | Failed(now: int)                               // the list could not be read
    | Switch(now: int, ch: Choices)                  // a re-walk no longer selects the program

  const START := Session(INITIAL, [], map[])

  ghost predicate ChoicesFit(ch: Choices, m: Machine, q: seq<ScheduledEvent>, prev: map<string, DERControl>,
                             curr: map<string, DERControl>, validate: DERControl -> bool) {
    && Lists(ch.added, AddedKeys(prev, curr))
    && Lists(ch.cancelled, CancelledKeys(prev, curr))
    && Requeued(q, Receive(m, Pick(ch.added, prev, curr), validate).accepted, ch.draws, ch.requeued)
  }

  ghost predicate Enabled(s: Session, i: Input, validate: DERControl -> bool) {
    match i
    case Poll(list, now, ch) =>
      var r := RejectAll(s.m, s.q, list.rejected);
      ChoicesFit(ch, r.m, r.q, s.prev, Snapshot(list), validate)
    case Failed(now) => true
    case Switch(now, ch) => ChoicesFit(ch, s.m, s.q, s.prev, map[], validate)
  }

  /** A tick fed the difference between two snapshots. */
  ghost function DiffTick(m: Machine, q: seq<ScheduledEvent>, prev: map<string, DERControl>,
                          curr: map<string, DERControl>,
                          now: int, ch: Choices, validate: DERControl -> bool): Outcome
    requires ChoicesFit(ch, m, q, prev, curr, validate)
  {
    TickOn(m, ch.requeued, now, Pick(ch.added, prev, curr), Pick(ch.cancelled, prev, curr), validate)
  }

  /** The session after one input, and the transitions it recorded. */
  ghost function Step(s: Session, i: Input, validate: DERControl -> bool): (r: (Session, seq<Transition>))
    requires Enabled(s, i, validate)
  {
    match i
    case Poll(list, now, ch) =>
      var curr := Snapshot(list);
      var r := RejectAll(s.m, s.q, list.rejected);
      var t := DiffTick(r.m, r.q, s.prev, curr, now, ch, validate);
      (Session(t.m, t.q, curr), r.out + t.out)
    case Failed(now) =>
      var t := TickOn(s.m, s.q, now, [], [], validate);
      (Session(t.m, t.q, s.prev), t.out)
    case Switch(now, ch) =>
      // The next program starts with a scheduler, a cache and a snapshot of its own.
      var t := DiffTick(s.m, s.q, s.prev, map[], now, ch, validate);
      (Session(t.m, [], map[]), t.out)
  }

  // ---------------------------------------------------------------- the session object

  /** stepEvents: rejected items first, then what changed since prev. */
  method StepEvents(sm: StateMachine, sched: Scheduler, now: int, cache: DERControlCache, prev: map<string, DERControl>,
                    draws: nat -> Draw)
    returns (curr: map<string, DERControl>, out: seq<Transition>, ghost ch: Choices)
    modifies sm, sched
    ensures var r := RejectAll(old(sm.Abs()), old(sched.queue), cache.rejected);
            && curr == cache.controls
            && ChoicesFit(ch, r.m, r.q, prev, curr, sm.validate)
            && (var t := DiffTick(r.m, r.q, prev, curr, now, ch, sm.validate);
                sm.Abs() == t.m && sched.queue == t.q && out == r.out + t.out)
  {
    out := sm.Reject(cache.rejected, sched);
    curr := cache.controls;
    var added, cancelled, addedKeys, cancelledKeys := DiffSnapshots(prev, curr);
    var o, requeued := sm.Tick(now, added, cancelled, draws, sched);
    out := out + o;
    ch := Choices(addedKeys, cancelledKeys, draws, requeued);
  }

  /** followProgram's state. */
  class Follower {
    const sm: StateMachine
    var sched: Scheduler
    var cache: DERControlCache
    var prev: map<string, DERControl>

    constructor (validate: DERControl -> bool)
      ensures Abs() == START && fresh(sm) && fresh(sched) && fresh(cache) && sm.validate == validate
    {
      sm := new StateMachine(validate);
      sched := new Scheduler();
      cache := new DERControlCache();
      prev := map[];
    }

    ghost function Abs(): Session
      reads this, sm, sched
    {
      Session(sm.Abs(), sched.queue, prev)
    }

    method PollSucceeded(list: ListResult, now: int, draws: nat -> Draw) returns (out: seq<Transition>, ghost i: Input)
      modifies this, sm, sched, cache
      ensures sched == old(sched) && cache == old(cache)
      ensures i.Poll? && i.list == list && i.now == now && Enabled(old(Abs()), i, sm.validate)
      ensures Step(old(Abs()), i, sm.validate) == (Abs(), out)
    {
      cache.Refresh(list);
      var curr, o, ch := StepEvents(sm, sched, now, cache, prev, draws);
      prev, out, i := curr, o, Poll(list, now, ch);
    }

    method PollFailed(now: int, draws: nat -> Draw) returns (out: seq<Transition>)
      modifies sm, sched
      ensures Step(old(Abs()), Failed(now), sm.validate) == (Abs(), out)
    {
      var o, _ := sm.Tick(now, [], [], draws, sched);
      out := o;
    }

    /** The tail that drops a program, and the fresh state the next one starts from. */
    method SwitchProgram(now: int, draws: nat -> Draw) returns (out: seq<Transition>, ghost i: Input)
      modifies this, sm, sched
      ensures fresh(sched) && fresh(cache)
      ensures i.Switch? && i.now == now && Enabled(old(Abs()), i, sm.validate)
      ensures Step(old(Abs()), i, sm.validate) == (Abs(), out)
    {
      var added, gone, addedKeys, goneKeys := DiffSnapshots(prev, map[]);
      ListsSomething(addedKeys, AddedKeys(prev, map[]));
      var o, requeued := sm.Tick(now, [], gone, draws, sched);
      out := o;
      i := Switch(now, Choices(addedKeys, goneKeys, draws, requeued));
      assert added == [];
      sched := new Scheduler();
      cache := new DERControlCache();
      prev := map[];
    }
  }
}
