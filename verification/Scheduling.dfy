/** The randomizing event queue (internal/inverter/scheduler.go).

    Times are whole seconds since the Unix epoch. Every event time the scheduler computes is a
    whole second, and the code only compares event times with a clock reading, so rounding the
    clock down to a second changes no comparison. */
module Scheduling {
  import opened Common

  datatype Interval = Interval(start: int, duration: nat)

  /** A DERControl. `base` stands for the control's DERControlBase, which only the validator reads. */
  datatype DERControl = DERControl(
    mrid: string,
    interval: Option<Interval>,
    status: Option<nat>,
    randomizeStart: Option<int>,
    randomizeDuration: Option<int>,
    replyTo: string,
    responseRequired: Option<nat>,
    base: int)

  datatype ScheduledEvent = ScheduledEvent(mrid: string, fireAt: int, expireAt: int, source: DERControl)

  /** The two raw random numbers one event's window may consume. */
  datatype Draw = Draw(start: nat, duration: nat)

  // ---------------------------------------------------------------- randomization windows

  /** rand.Int64N(n): a raw number reduced to 0..n-1. */
  function Int64N(raw: nat, n: int): (r: int)
    requires n > 0
    ensures 0 <= r < n
  {
    raw % n
  }

  function ApplyRandomizeStart(start: int, rs: Option<int>, raw: nat): int {
    if rs.None? || rs.value == 0 then start
    else if rs.value > 0 then start + Int64N(raw, rs.value + 1)
    else start - Int64N(raw, -rs.value + 1)
  }

  function ApplyRandomizeDuration(duration: int, rd: Option<int>, raw: nat): int {
    if rd.None? || rd.value == 0 then duration
    else
      duration + (Int64N(raw, Width(rd) + 1) - Width(rd) / 2)
  }

  /** computeWindow: the jittered start and the end, which never precedes it. */
  function ComputeWindow(ev: DERControl, draw: Draw): (w: (int, int))
    requires ev.interval.Some?
    ensures w.0 <= w.1
  {
    var fireAt := ApplyRandomizeStart(ev.interval.value.start, ev.randomizeStart, draw.start);
    var jittered := ApplyRandomizeDuration(ev.interval.value.duration, ev.randomizeDuration, draw.duration);
    (fireAt, fireAt + (if jittered < 0 then 0 else jittered))
  }

  ghost predicate InStartWindow(start: int, rs: Option<int>, t: int) {
    var r := if rs.None? then 0 else rs.value;
    if r >= 0 then start <= t <= start + r else start + r <= t <= start
  }

  /** The start window is exactly [start, start+rs], or [start-|rs|, start] for a negative rs. */
  lemma StartWindowIsExact(start: int, rs: Option<int>, t: int)
    ensures (exists raw: nat :: ApplyRandomizeStart(start, rs, raw) == t) <==> InStartWindow(start, rs, t)
  {
    if InStartWindow(start, rs, t) {
      var raw: nat := if t >= start then t - start else start - t;
      StartReached(start, rs, raw);
      assert ApplyRandomizeStart(start, rs, raw) == t;
    }
    if exists raw: nat :: ApplyRandomizeStart(start, rs, raw) == t {
      var raw: nat :| ApplyRandomizeStart(start, rs, raw) == t;
      StartStays(start, rs, raw);
    }
  }

  lemma SmallRemainder(a: nat, n: nat)
    requires a < n
    ensures a % n == a
  {
  }

  lemma StartReached(start: int, rs: Option<int>, raw: nat)
    requires raw <= Width(rs)
    ensures ApplyRandomizeStart(start, rs, raw) == if rs.Some? && rs.value < 0 then start - raw else start + raw
  {
    SmallRemainder(raw, Width(rs) + 1);
  }

  lemma StartStays(start: int, rs: Option<int>, raw: nat)
    ensures InStartWindow(start, rs, ApplyRandomizeStart(start, rs, raw))
  {
    var jitter := Int64N(raw, Width(rs) + 1);
  }

  /** The duration window is [d - floor(|rd|/2), d + ceil(|rd|/2)]: for an odd |rd| it reaches one
      second further up than down, where the source comment says it is symmetric. */
  lemma DurationWindowIsExact(duration: int, rd: Option<int>, t: int)
    ensures (exists raw: nat :: ApplyRandomizeDuration(duration, rd, raw) == t) <==> InDurationWindow(duration, rd, t)
  {
    if InDurationWindow(duration, rd, t) {
      var raw: nat := t - duration + Width(rd) / 2;
      DurationReached(duration, rd, raw);
      assert ApplyRandomizeDuration(duration, rd, raw) == t;
    }
    if exists raw: nat :: ApplyRandomizeDuration(duration, rd, raw) == t {
      var raw: nat :| ApplyRandomizeDuration(duration, rd, raw) == t;
      DurationStays(duration, rd, raw);
    }
  }

  lemma DurationReached(duration: int, rd: Option<int>, raw: nat)
    requires raw <= Width(rd)
    ensures ApplyRandomizeDuration(duration, rd, raw) == duration + raw - Width(rd) / 2
  {
    SmallRemainder(raw, Width(rd) + 1);
  }

  lemma DurationStays(duration: int, rd: Option<int>, raw: nat)
    ensures InDurationWindow(duration, rd, ApplyRandomizeDuration(duration, rd, raw))
  {
    var jitter := Int64N(raw, Width(rd) + 1);
  }

  function Width(rd: Option<int>): nat {
    if rd.None? then 0 else if rd.value < 0 then -rd.value else rd.value
  }

  ghost predicate InDurationWindow(duration: int, rd: Option<int>, t: int) {
    duration - Width(rd) / 2 <= t <= duration + (Width(rd) + 1) / 2
  }

  // ---------------------------------------------------------------- the queue as a value

  ghost predicate Sorted(q: seq<ScheduledEvent>) {
    forall i, j :: 0 <= i < j < |q| ==> q[i].fireAt <= q[j].fireAt
  }

  ghost predicate DistinctIDs(q: seq<ScheduledEvent>) {
    forall i, j :: 0 <= i < j < |q| ==> q[i].mrid != q[j].mrid
  }

  ghost predicate WellFormed(e: ScheduledEvent) {
    e.fireAt <= e.expireAt && e.source.mrid == e.mrid
  }

  /** What every operation keeps. */
  ghost predicate ValidQueue(q: seq<ScheduledEvent>) {
    Sorted(q) && DistinctIDs(q) && forall e :: e in q ==> WellFormed(e)
  }

  /** The queue as the map it implements: mRID to its scheduled event. */
  ghost function Table(q: seq<ScheduledEvent>): map<string, ScheduledEvent>
    requires DistinctIDs(q)
  {
    map e | e in q :: e.mrid := e
  }

  /** removeByMRIDLocked: without the first entry for `mrid`. */
  function Remove(q: seq<ScheduledEvent>, mrid: string): seq<ScheduledEvent> {
    if q == [] then []
    else if q[0].mrid == mrid then q[1..]
    else [q[0]] + Remove(q[1..], mrid)
  }

  function RemoveAll(q: seq<ScheduledEvent>, mrids: seq<string>): seq<ScheduledEvent> {
    if mrids == [] then q
    else Remove(RemoveAll(q, mrids[..|mrids| - 1]), mrids[|mrids| - 1])
  }

  /** The queue after every event is appended and before the sort. The i-th event uses draws(i). */
  function AddAll(q: seq<ScheduledEvent>, events: seq<DERControl>, draws: nat -> Draw): seq<ScheduledEvent> {
    if events == [] then q
    else
      var n := |events| - 1;
      var before := AddAll(q, events[..n], draws);
      if events[n].interval.None? then before
      else Remove(before, events[n].mrid) + [NewEvent(events[n], draws(n))]
  }

  function NewEvent(ev: DERControl, draw: Draw): ScheduledEvent
    requires ev.interval.Some?
  {
    var w := ComputeWindow(ev, draw);
    ScheduledEvent(ev.mrid, w.0, w.1, ev)
  }

  /** sort.Slice is not stable: it may leave events with equal fireAt in any order. */
  ghost predicate IsSortOf(s: seq<ScheduledEvent>, q: seq<ScheduledEvent>) {
    Sorted(s) && multiset(s) == multiset(q)
  }

  /** How many leading events have reached their fire time. */
  function Due(q: seq<ScheduledEvent>, now: int): (n: nat)
    ensures n <= |q|
  {
    if q == [] || q[0].fireAt > now then 0 else 1 + Due(q[1..], now)
  }

  // ---------------------------------------------------------------- facts about the value

  lemma {:induction false} RemoveContents(q: seq<ScheduledEvent>, mrid: string)
    requires DistinctIDs(q)
    ensures DistinctIDs(Remove(q, mrid))
    ensures forall e :: e in Remove(q, mrid) <==> e in q && e.mrid != mrid
    ensures Table(Remove(q, mrid)) == Table(q) - {mrid}
  {
    RemoveMembers(q, mrid);
    TableWithout(q, Remove(q, mrid), {mrid});
  }

  lemma TableWithout(q: seq<ScheduledEvent>, r: seq<ScheduledEvent>, ids: set<string>)
    requires DistinctIDs(q) && DistinctIDs(r)
    requires forall e :: e in r <==> e in q && e.mrid !in ids
    ensures Table(r) == Table(q) - ids
  {
  }

  lemma {:induction false} RemoveMembers(q: seq<ScheduledEvent>, mrid: string)
    requires DistinctIDs(q)
    ensures DistinctIDs(Remove(q, mrid))
    ensures forall e :: e in Remove(q, mrid) <==> e in q && e.mrid != mrid
  {
    if q != [] {
      HeadIsNew(q);
      if q[0].mrid != mrid {
        RemoveMembers(q[1..], mrid);
        NewHead(q[0], Remove(q[1..], mrid));
      }
    }
  }

  lemma NewHead(head: ScheduledEvent, r: seq<ScheduledEvent>)
    requires DistinctIDs(r) && forall e :: e in r ==> e.mrid != head.mrid
    ensures DistinctIDs([head] + r)
    ensures forall e :: e in [head] + r <==> e == head || e in r
  {
    assert forall k :: 0 <= k < |r| ==> r[k] in r;
  }

  lemma HeadIsNew(q: seq<ScheduledEvent>)
    requires DistinctIDs(q) && q != []
    ensures DistinctIDs(q[1..])
    ensures forall e :: e in q <==> e == q[0] || e in q[1..]
    ensures forall e :: e in q[1..] ==> e.mrid != q[0].mrid
  {
    assert q == [q[0]] + q[1..];
  }

  lemma {:induction false} RemoveKeepsSorted(q: seq<ScheduledEvent>, mrid: string)
    requires Sorted(q)
    ensures Sorted(Remove(q, mrid))
    ensures forall e :: e in Remove(q, mrid) ==> e in q
  {
    if q != [] && q[0].mrid != mrid {
      RemoveKeepsSorted(q[1..], mrid);
      var r := Remove(q[1..], mrid);
      forall k | 0 <= k < |r| ensures q[0].fireAt <= r[k].fireAt {
        assert r[k] in q[1..];
      }
    }
  }

  lemma RemoveOne(q: seq<ScheduledEvent>, mrid: string)
    requires ValidQueue(q)
    ensures ValidQueue(Remove(q, mrid))
    ensures forall e :: e in Remove(q, mrid) <==> e in q && e.mrid != mrid
    ensures Table(Remove(q, mrid)) == Table(q) - {mrid}
  {
    RemoveContents(q, mrid);
    RemoveKeepsSorted(q, mrid);
  }

  /** Cancelling deletes exactly the named keys of the map. */
  lemma RemoveAllTable(q: seq<ScheduledEvent>, mrids: seq<string>)
    requires ValidQueue(q)
    ensures ValidQueue(RemoveAll(q, mrids))
    ensures Table(RemoveAll(q, mrids)) == Table(q) - (set m | m in mrids)
  {
    RemoveAllContents(q, mrids);
    TableWithout(q, RemoveAll(q, mrids), set m | m in mrids);
  }

  lemma {:induction false} RemoveAllContents(q: seq<ScheduledEvent>, mrids: seq<string>)
    requires ValidQueue(q)
    ensures ValidQueue(RemoveAll(q, mrids))
    ensures forall e :: e in RemoveAll(q, mrids) <==> e in q && e.mrid !in mrids
  {
    if mrids != [] {
      var n := |mrids| - 1;
      RemoveAllContents(q, mrids[..n]);
      RemoveOne(RemoveAll(q, mrids[..n]), mrids[n]);
      assert forall m :: m in mrids <==> m in mrids[..n] || m == mrids[n];
    }
  }

  /** The map the additions build: a later event replaces an earlier one with its mRID. */
  ghost function Put(t: map<string, ScheduledEvent>, events: seq<DERControl>, draws: nat -> Draw)
    : map<string, ScheduledEvent>
  {
    if events == [] then t
    else
      var n := |events| - 1;
      var before := Put(t, events[..n], draws);
      if events[n].interval.None? then before
      else before[events[n].mrid := NewEvent(events[n], draws(n))]
  }

  lemma {:induction false} AddAllContents(q: seq<ScheduledEvent>, events: seq<DERControl>, draws: nat -> Draw)
    requires DistinctIDs(q) && forall e :: e in q ==> WellFormed(e)
    ensures DistinctIDs(AddAll(q, events, draws))
    ensures forall e :: e in AddAll(q, events, draws) ==> WellFormed(e)
    ensures Table(AddAll(q, events, draws)) == Put(Table(q), events, draws)
  {
    if events != [] {
      var n := |events| - 1;
      AddAllContents(q, events[..n], draws);
      if events[n].interval.Some? {
        ReplaceContents(AddAll(q, events[..n], draws), NewEvent(events[n], draws(n)));
      }
    }
  }

  lemma ReplaceContents(q: seq<ScheduledEvent>, e: ScheduledEvent)
    requires DistinctIDs(q) && WellFormed(e) && forall x :: x in q ==> WellFormed(x)
    ensures DistinctIDs(Remove(q, e.mrid) + [e])
    ensures forall x :: x in Remove(q, e.mrid) + [e] ==> WellFormed(x)
    ensures Table(Remove(q, e.mrid) + [e]) == Table(q)[e.mrid := e]
  {
    RemoveContents(q, e.mrid);
    AppendContents(Remove(q, e.mrid), e);
    assert (Table(q) - {e.mrid})[e.mrid := e] == Table(q)[e.mrid := e];
  }

  lemma AppendContents(q: seq<ScheduledEvent>, e: ScheduledEvent)
    requires DistinctIDs(q) && e.mrid !in Table(q)
    ensures DistinctIDs(q + [e])
    ensures Table(q + [e]) == Table(q)[e.mrid := e]
  {
    forall i | 0 <= i < |q| ensures q[i].mrid != e.mrid {
      assert q[i] in q && q[i].mrid in Table(q);
    }
    assert forall x :: x in q + [e] <==> x in q || x == e;
  }

  /** A sort is invisible through the map. */
  lemma SortContents(s: seq<ScheduledEvent>, q: seq<ScheduledEvent>)
    requires IsSortOf(s, q) && DistinctIDs(q)
    ensures DistinctIDs(s)
    ensures forall e :: e in s <==> e in q
    ensures Table(s) == Table(q)
  {
    SortMembers(s, q);
    TableWithout(q, s, {});
  }

  lemma SortMembers(s: seq<ScheduledEvent>, q: seq<ScheduledEvent>)
    requires IsSortOf(s, q) && DistinctIDs(q)
    ensures DistinctIDs(s)
    ensures forall e :: e in s <==> e in q
  {
    assert forall e :: e in s <==> e in multiset(s);
    assert forall e :: e in q <==> e in multiset(q);
    forall i, j | 0 <= i < j < |s| ensures s[i].mrid != s[j].mrid {
      var e := s[i];
      assert s[i] in q && s[j] in q;
      if s[j] == e {
        TwiceInMultiset(s, i, j);
        OnceInMultiset(q, e);
      }
    }
  }

  lemma TwiceInMultiset(s: seq<ScheduledEvent>, i: nat, j: nat)
    requires i < j < |s| && s[i] == s[j]
    ensures multiset(s)[s[i]] >= 2
  {
    assert s == s[..i + 1] + s[i + 1..];
    assert s[i] in s[..i + 1] && s[j] in s[i + 1..];
  }

  lemma OnceInMultiset(q: seq<ScheduledEvent>, e: ScheduledEvent)
    requires DistinctIDs(q) && e in q
    ensures multiset(q)[e] == 1
  {
    var a :| 0 <= a < |q| && q[a] == e;
    assert q == q[..a] + [e] + q[a + 1..];
    assert e !in q[..a] && e !in q[a + 1..];
  }

  /** Adding to a valid queue and sorting gives a valid queue that is the updated map. */
  lemma AddedQueue(q: seq<ScheduledEvent>, events: seq<DERControl>, draws: nat -> Draw, s: seq<ScheduledEvent>)
    requires ValidQueue(q) && IsSortOf(s, AddAll(q, events, draws))
    ensures ValidQueue(s)
    ensures Table(s) == Put(Table(q), events, draws)
  {
    AddAllContents(q, events, draws);
    SortContents(s, AddAll(q, events, draws));
  }

  lemma {:induction false} PutKeys(t: map<string, ScheduledEvent>, events: seq<DERControl>, draws: nat -> Draw)
    ensures forall k :: k in Put(t, events, draws) <==>
                        k in t || exists i :: 0 <= i < |events| && events[i].interval.Some? && events[i].mrid == k
    ensures forall k :: k in Put(t, events, draws) && k in t && (forall i :: 0 <= i < |events| ==> events[i].mrid != k)
                        ==> Put(t, events, draws)[k] == t[k]
  {
    if events != [] {
      var n := |events| - 1;
      PutKeys(t, events[..n], draws);
      forall k ensures k in Put(t, events, draws) <==>
                       k in t || exists i :: 0 <= i < |events| && events[i].interval.Some? && events[i].mrid == k
      {
        assert forall i :: 0 <= i < n ==> events[..n][i] == events[i];
      }
    }
  }

  /** PopExpired splits the queue exactly at fireAt <= now and loses nothing. */
  lemma {:induction false} DueSplits(q: seq<ScheduledEvent>, now: int)
    requires ValidQueue(q)
    ensures var n := Due(q, now);
            && (forall e :: e in q[..n] <==> e in q && e.fireAt <= now)
            && (forall e :: e in q[n..] <==> e in q && e.fireAt > now)
            && ValidQueue(q[n..])
            && q == q[..n] + q[n..]
  {
    DueBound(q, now);
    var n := Due(q, now);
    assert q == q[..n] + q[n..];
    forall e | e in q ensures e in q[..n] <==> e.fireAt <= now
                      ensures e in q[n..] <==> e.fireAt > now
    {
      SideOfCut(q, n, now, e);
    }
    DropKeepsValid(q, n);
  }

  lemma SideOfCut(q: seq<ScheduledEvent>, n: nat, now: int, e: ScheduledEvent)
    requires n <= |q| && e in q
    requires forall i :: 0 <= i < |q| ==> (i < n <==> q[i].fireAt <= now)
    ensures e in q[..n] <==> e.fireAt <= now
    ensures e in q[n..] <==> e.fireAt > now
  {
    var i :| 0 <= i < |q| && q[i] == e;
    if i < n { assert q[..n][i] == e; } else { assert q[n..][i - n] == e; }
  }

  lemma DropKeepsValid(q: seq<ScheduledEvent>, n: nat)
    requires ValidQueue(q) && n <= |q|
    ensures ValidQueue(q[n..])
  {
    forall e | e in q[n..] ensures e in q { }
  }

  lemma {:induction false} DueBound(q: seq<ScheduledEvent>, now: int)
    requires Sorted(q)
    ensures forall i :: 0 <= i < |q| ==> (i < Due(q, now) <==> q[i].fireAt <= now)
  {
    if q != [] && q[0].fireAt <= now {
      DueBound(q[1..], now);
      forall i | 0 <= i < |q| ensures i < Due(q, now) <==> q[i].fireAt <= now {
        if i > 0 { assert q[i] == q[1..][i - 1]; }
      }
    }
  }

  // ---------------------------------------------------------------- the scheduler object

  /** Stands for sort.Slice by FireAt. Callers may rely on a sorted permutation and nothing more. */
  method SortByFireAt(q: seq<ScheduledEvent>) returns (s: seq<ScheduledEvent>)
    ensures IsSortOf(s, q)
  {
    s := [];
    for n := 0 to |q|
      invariant IsSortOf(s, q[..n])
    {
      assert q[..n + 1] == q[..n] + [q[n]];
      s := InsertByFireAt(s, q[n]);
    }
    assert q[..|q|] == q;
  }

  method InsertByFireAt(s: seq<ScheduledEvent>, e: ScheduledEvent) returns (r: seq<ScheduledEvent>)
    requires Sorted(s)
    ensures Sorted(r) && multiset(r) == multiset(s) + multiset{e}
  {
    var at := 0;
    while at < |s| && s[at].fireAt <= e.fireAt
      invariant 0 <= at <= |s|
      invariant forall k :: 0 <= k < at ==> s[k].fireAt <= e.fireAt
    {
      at := at + 1;
    }
    InsertKeepsSorted(s, at, e);
    r := s[..at] + [e] + s[at..];
  }

  lemma InsertKeepsSorted(s: seq<ScheduledEvent>, at: nat, e: ScheduledEvent)
    requires Sorted(s) && at <= |s|
    requires forall k :: 0 <= k < at ==> s[k].fireAt <= e.fireAt
    requires at < |s| ==> e.fireAt < s[at].fireAt
    ensures Sorted(s[..at] + [e] + s[at..])
    ensures multiset(s[..at] + [e] + s[at..]) == multiset(s) + multiset{e}
  {
    assert s == s[..at] + s[at..];
  }

  class Scheduler {
    var queue: seq<ScheduledEvent>

    constructor ()
      ensures queue == []
    {
      queue := [];
    }

    method RemoveByMRID(mrid: string) returns (found: bool)
      modifies this
      ensures queue == Remove(old(queue), mrid)
      ensures found <==> exists i :: 0 <= i < |old(queue)| && old(queue)[i].mrid == mrid
    {
      for i := 0 to |queue|
        invariant queue == old(queue)
        invariant forall k :: 0 <= k < i ==> queue[k].mrid != mrid
      {
        if queue[i].mrid == mrid {
          RemoveAt(queue, i, mrid);
          queue := queue[..i] + queue[i + 1..];
          return true;
        }
      }
      RemoveAbsent(queue, mrid);
      return false;
    }

    method OnEventsAdded(events: seq<DERControl>, draws: nat -> Draw)
      modifies this
      ensures events == [] ==> queue == old(queue)
      ensures events != [] ==> IsSortOf(queue, AddAll(old(queue), events, draws))
    {
      if |events| == 0 { return; }
      for i := 0 to |events|
        invariant queue == AddAll(old(queue), events[..i], draws)
      {
        assert events[..i + 1][..i] == events[..i];
        var ev := events[i];
        if ev.interval.Some? {
          var w := ComputeWindow(ev, draws(i));
          var _ := RemoveByMRID(ev.mrid);
          queue := queue + [ScheduledEvent(ev.mrid, w.0, w.1, ev)];
        }
      }
      assert events[..|events|] == events;
      queue := SortByFireAt(queue);
    }

    method OnEventsCancelled(mrids: seq<string>)
      modifies this
      ensures queue == RemoveAll(old(queue), mrids)
    {
      for i := 0 to |mrids|
        invariant queue == RemoveAll(old(queue), mrids[..i])
      {
        assert mrids[..i + 1][..i] == mrids[..i];
        var _ := RemoveByMRID(mrids[i]);
      }
      assert mrids[..|mrids|] == mrids;
    }

    /** The head, without removing it. */
    method Next() returns (head: Option<ScheduledEvent>)
      ensures head == if queue == [] then None else Some(queue[0])
    {
      if |queue| == 0 { return None; }
      return Some(queue[0]);
    }

    method PopExpired(now: int) returns (expired: seq<ScheduledEvent>)
      modifies this
      ensures expired == old(queue)[..Due(old(queue), now)]
      ensures queue == old(queue)[Due(old(queue), now)..]
    {
      var cut := 0;
      while cut < |queue| && queue[cut].fireAt <= now
        invariant 0 <= cut <= |queue|
        invariant Due(queue, now) == cut + Due(queue[cut..], now)
      {
        assert queue[cut..][1..] == queue[cut + 1..];
        cut := cut + 1;
      }
      expired := queue[..cut];
      queue := queue[cut..];
    }
  }

  lemma {:induction false} RemoveAt(q: seq<ScheduledEvent>, i: nat, mrid: string)
    requires i < |q| && q[i].mrid == mrid
    requires forall k :: 0 <= k < i ==> q[k].mrid != mrid
    ensures Remove(q, mrid) == q[..i] + q[i + 1..]
  {
    if i > 0 {
      RemoveAt(q[1..], i - 1, mrid);
      assert q[1..][..i - 1] == q[1..i] && q[1..][i..] == q[i + 1..];
      assert [q[0]] + (q[1..i] + q[i + 1..]) == q[..i] + q[i + 1..];
    }
  }

  lemma {:induction false} RemoveAbsent(q: seq<ScheduledEvent>, mrid: string)
    requires forall k :: 0 <= k < |q| ==> q[k].mrid != mrid
    ensures Remove(q, mrid) == q
  {
    if q != [] {
      RemoveAbsent(q[1..], mrid);
      assert q == [q[0]] + q[1..];
    }
  }
}
