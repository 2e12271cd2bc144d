/** All-or-nothing property batches (sim/gridlabd/gldsidecar/adapter.py). */
module Batch {
  import opened Common

  datatype Key = Key(obj: string, prop: string)

  /** One item of a set request; a missing field is None. */
  datatype Item<V> = Item(obj: Option<string>, prop: Option<string>, value: Option<V>)

  predicate Shaped<V>(i: Item<V>) {
    i.obj.Some? && i.prop.Some? && i.value.Some?
  }

  function KeyOf<V>(i: Item<V>): Key
    requires Shaped(i)
  {
    Key(i.obj.value, i.prop.value)
  }

  /** What went wrong: a malformed item, or a native call that answered a nonzero status. */
  datatype Outcome<V> = Applied(results: seq<(Key, V)>) | Malformed | Refused

  /** How the native model answers one write: accepted, or refused, when it may have left anything in
      that one property. */
  datatype WriteAnswer<V> = Accepts | Refuses(left: V)

  /** The native model: a value per property; `coerce` is what it stores for a value it accepts. */
  class Native<V(==)> {
    var store: map<Key, V>
    const coerce: V -> V

    constructor (store: map<Key, V>, coerce: V -> V)
      ensures this.store == store && this.coerce == coerce
    {
      this.store, this.coerce := store, coerce;
    }

    method GetProperty(k: Key, answers: bool) returns (value: Option<V>)
      ensures value == if k in store && answers then Some(store[k]) else None
    {
      value := if k in store && answers then Some(store[k]) else None;
    }

    method SetProperty(k: Key, v: V, answer: WriteAnswer<V>) returns (ok: bool)
      requires k in store
      modifies this
      ensures ok == answer.Accepts?
      ensures store == old(store)[k := if answer.Accepts? then coerce(v) else answer.left]
    {
      ok := answer.Accepts?;
      store := store[k := if answer.Accepts? then coerce(v) else answer.left];
    }

    /** Writing back a value the model itself reported; the source expects this not to fail. */
    method WriteBack(k: Key, v: V)
      requires k in store
      modifies this
      ensures store == old(store)[k := v]
    {
      store := store[k := v];
    }
  }

  /** The store after the items are written one after the other. */
  function Written<V>(store: map<Key, V>, items: seq<Item<V>>, coerce: V -> V): map<Key, V>
    requires forall i :: i in items ==> Shaped(i)
  {
    if items == [] then store
    else
      var last := items[|items| - 1];
      Written(store, items[..|items| - 1], coerce)[KeyOf(last) := coerce(last.value.value)]
  }

  lemma {:induction false} WrittenFacts<V>(store: map<Key, V>, items: seq<Item<V>>, coerce: V -> V)
    requires forall i :: i in items ==> Shaped(i) && KeyOf(i) in store
    ensures Written(store, items, coerce).Keys == store.Keys
    ensures forall k :: k in store && (forall i :: i in items ==> KeyOf(i) != k) ==>
        Written(store, items, coerce)[k] == store[k]
  {
    if items != [] {
      var n := |items| - 1;
      assert items[n] in items && forall i :: i in items[..n] ==> i in items;
      WrittenFacts(store, items[..n], coerce);
    }
  }

  /** The environment's answers: to the captures, the writes and the read-backs, by item. */
  datatype Answers<!V> = Answers(captures: nat -> bool, writes: nat -> WriteAnswer<V>, readBacks: nat -> bool)

  ghost predicate Flawless<V>(store: map<Key, V>, items: seq<Item<V>>, env: Answers<V>) {
    forall i :: 0 <= i < |items| ==>
      Shaped(items[i]) && KeyOf(items[i]) in store && env.captures(i) && env.writes(i).Accepts? && env.readBacks(i)
  }

  /** The values of the first n items' properties could be taken. */
  ghost predicate Captured<V>(store: map<Key, V>, items: seq<Item<V>>, n: nat, env: Answers<V>)
    requires n <= |items|
  {
    forall i :: 0 <= i < n ==> Shaped(items[i]) && KeyOf(items[i]) in store && env.captures(i)
  }

  /** Adapter.set. Main result: it succeeds exactly when nothing goes wrong, and then every item was
      written in turn and read back; otherwise the store is as it was, even when a batch names one
      property several times. */
  method Set<V>(m: Native<V>, items: seq<Item<V>>, env: Answers<V>) returns (out: Outcome<V>)
    modifies m
    ensures out.Applied? <==> Flawless(old(m.store), items, env)
    ensures out.Applied? ==>
              && m.store == Written(old(m.store), items, m.coerce)
              && |out.results| == |items|
              && forall i :: 0 <= i < |items| ==> out.results[i] == (KeyOf(items[i]), m.coerce(items[i].value.value))
    ensures !out.Applied? ==> m.store == old(m.store)
    ensures out.Malformed? <==>
        exists i :: 0 <= i < |items| && !Shaped(items[i]) && Captured(old(m.store), items, i, env)
  {
    var originals: seq<V>;
    out, originals := Capture(m, items, env);
    if !out.Applied? { return; }
    out := Write(m, items, originals, env);
  }

  /** The first loop: every item has its fields and names an existing property, whose value it takes. */
  method Capture<V>(m: Native<V>, items: seq<Item<V>>, env: Answers<V>) returns (out: Outcome<V>, originals: seq<V>)
    ensures out.Applied? <==> Captured(m.store, items, |items|, env)
    ensures out.Applied? ==> |originals| == |items| && forall i :: 0 <= i < |items| ==>
        originals[i] == m.store[KeyOf(items[i])]
    ensures out.Malformed? <==> exists i :: 0 <= i < |items| && !Shaped(items[i]) && Captured(m.store, items, i, env)
  {
    originals := [];
    for i := 0 to |items|
      invariant |originals| == i
      invariant Captured(m.store, items, i, env)
      invariant forall k :: 0 <= k < i ==> originals[k] == m.store[KeyOf(items[k])]
    {
      if !Shaped(items[i]) { return Malformed, []; }
      var original := m.GetProperty(KeyOf(items[i]), env.captures(i));
      if original.None? { return Refused, []; }
      originals := originals + [original.value];
    }
    out := Applied([]);
  }

  /** The second loop: write and read back in turn, restoring everything at the first failure. */
  method Write<V>(m: Native<V>, items: seq<Item<V>>, originals: seq<V>, env: Answers<V>) returns (out: Outcome<V>)
    requires |originals| == |items|
    requires forall i :: 0 <= i < |items| ==>
        Shaped(items[i]) && KeyOf(items[i]) in m.store && originals[i] == m.store[KeyOf(items[i])]
    modifies m
    ensures out.Applied? <==> forall i :: 0 <= i < |items| ==> env.writes(i).Accepts? && env.readBacks(i)
    ensures out.Applied? ==>
              && m.store == Written(old(m.store), items, m.coerce)
              && |out.results| == |items|
              && forall i :: 0 <= i < |items| ==> out.results[i] == (KeyOf(items[i]), m.coerce(items[i].value.value))
    ensures !out.Applied? ==> out.Refused? && m.store == old(m.store)
  {
    var applied: seq<(Key, V)> := [];
    for i := 0 to |items|
      invariant m.store == Written(old(m.store), items[..i], m.coerce) && m.store.Keys == old(m.store).Keys
      invariant |applied| == i
      invariant forall k :: 0 <= k < i ==> applied[k] == (KeyOf(items[k]), m.coerce(items[k].value.value))
      invariant forall k :: 0 <= k < i ==> env.writes(k).Accepts? && env.readBacks(k)
    {
      assert items[..i + 1][..i] == items[..i];
      var key := KeyOf(items[i]);
      WrittenFacts(old(m.store), items[..i], m.coerce);
      var ok := m.SetProperty(key, items[i].value.value, env.writes(i));
      var read: Option<V> := None;
      if ok {
        read := m.GetProperty(key, env.readBacks(i));
      }
      if read.None? {
        OnlyNamedChange(old(m.store), items, i, m.coerce, m.store);
        Restore(m, items, originals, i + 1, old(m.store));
        return Refused;
      }
      applied := applied + [(key, read.value)];
    }
    assert items[..|items|] == items;
    out := Applied(applied);
  }

  /** Only properties named by the first n items may differ. */
  ghost predicate ChangedOnly<V>(before: map<Key, V>, after: map<Key, V>, items: seq<Item<V>>, n: nat)
    requires n <= |items| && forall i :: 0 <= i < |items| ==> Shaped(items[i])
  {
    && after.Keys == before.Keys
    && forall k :: k in before && (forall i :: 0 <= i < n ==> KeyOf(items[i]) != k) ==> after[k] == before[k]
  }

  lemma OnlyNamedChange<V>(before: map<Key, V>, items: seq<Item<V>>, i: nat, coerce: V -> V, after: map<Key, V>)
    requires i < |items| && forall k :: 0 <= k < |items| ==> Shaped(items[k]) && KeyOf(items[k]) in before
    requires KeyOf(items[i]) in after
        && after == Written(before, items[..i], coerce)[KeyOf(items[i]) := after[KeyOf(items[i])]]
    ensures ChangedOnly(before, after, items, i + 1)
  {
    WrittenFacts(before, items[..i], coerce);
    forall k | k in before && (forall j :: 0 <= j < i + 1 ==> KeyOf(items[j]) != k) ensures after[k] == before[k] {
      assert forall x :: x in items[..i] ==> KeyOf(x) != k;
    }
  }

  /** _restore: writes the captured values of the first `count` items back. */
  method Restore<V>(m: Native<V>, items: seq<Item<V>>, originals: seq<V>, count: nat, ghost before: map<Key, V>)
    requires count <= |items| == |originals|
    requires forall i :: 0 <= i < |items| ==>
        Shaped(items[i]) && KeyOf(items[i]) in before && originals[i] == before[KeyOf(items[i])]
    requires ChangedOnly(before, m.store, items, count)
    modifies m
    ensures m.store == before
  {
    for i := 0 to count
      invariant ChangedOnly(before, m.store, items, count)
      invariant forall k :: 0 <= k < i ==> m.store[KeyOf(items[k])] == before[KeyOf(items[k])]
    {
      m.WriteBack(KeyOf(items[i]), originals[i]);
    }
    forall k | k in before ensures m.store[k] == before[k] {
      if !forall i :: 0 <= i < count ==> KeyOf(items[i]) != k {
        var i :| 0 <= i < count && KeyOf(items[i]) == k;
      }
    }
  }
}
