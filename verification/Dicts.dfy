/** Python dicts as lists of items in insertion order. */
module Dicts {
  import opened Text

  // Assignment to a key: a known key keeps its place.
  function Put<K(==), V>(d: seq<(K, V)>, key: K, value: V): seq<(K, V)> {
    if d == [] then [(key, value)]
    else if d[0].0 == key then [(key, value)] + d[1..]
    else [d[0]] + Put(d[1..], key, value)
  }

  function PutAll<K(==), V>(d: seq<(K, V)>, items: seq<(K, V)>): seq<(K, V)>
    decreases |items|
  {
    if items == [] then d else PutAll(Put(d, items[0].0, items[0].1), items[1..])
  }

  function Get<K(==), V>(d: seq<(K, V)>, key: K): Option<V> {
    if d == [] then None else if d[0].0 == key then Some(d[0].1) else Get(d[1..], key)
  }

  ghost predicate DistinctKeys<K, V>(d: seq<(K, V)>) {
    forall i, j | 0 <= i < j < |d| :: d[i].0 != d[j].0
  }

  lemma {:induction false} PutNew<K, V>(d: seq<(K, V)>, key: K, value: V)
    requires forall item | item in d :: item.0 != key
    ensures Put(d, key, value) == d + [(key, value)]
  {
    if d != [] {
      assert d == [d[0]] + d[1..];
      PutNew(d[1..], key, value);
    }
  }

  ghost predicate Without<K, V>(d: seq<(K, V)>, k: K) { forall i | 0 <= i < |d| :: d[i].0 != k }

  lemma {:induction false} PutWithout<K, V>(d: seq<(K, V)>, key: K, value: V, k: K)
    requires k != key && Without(d, k)
    ensures Without(Put(d, key, value), k)
  {
    if d != [] && d[0].0 != key {
      PutWithout(d[1..], key, value, k);
    }
  }

  lemma {:induction false} PutDistinct<K, V>(d: seq<(K, V)>, key: K, value: V)
    requires DistinctKeys(d)
    ensures DistinctKeys(Put(d, key, value))
  {
    if d != [] && d[0].0 != key {
      PutDistinct(d[1..], key, value);
      assert Without(d[1..], d[0].0);
      PutWithout(d[1..], key, value, d[0].0);
    }
  }

  lemma {:induction false} GetPut<K, V>(d: seq<(K, V)>, key: K, value: V, k: K)
    ensures Get(Put(d, key, value), k) == if k == key then Some(value) else Get(d, k)
  {
    if d != [] { GetPut(d[1..], key, value, k); }
  }

  lemma {:induction false} PutAllAppend<K, V>(d: seq<(K, V)>, items: seq<(K, V)>, item: (K, V))
    ensures PutAll(d, items + [item]) == Put(PutAll(d, items), item.0, item.1)
    decreases |items|
  {
    if items == [] {
      assert items + [item] == [item];
      assert [item][1..] == [];
    } else {
      assert (items + [item])[1..] == items[1..] + [item];
      PutAllAppend(Put(d, items[0].0, items[0].1), items[1..], item);
    }
  }

  // Items with new, distinct keys are simply appended.
  lemma {:induction false} PutAllFresh<K, V>(d: seq<(K, V)>, items: seq<(K, V)>)
    requires DistinctKeys(d + items)
    ensures PutAll(d, items) == d + items
    decreases |items|
  {
    if items == [] {
      assert d + items == d;
    } else {
      forall item | item in d ensures item.0 != items[0].0 {
        var i :| 0 <= i < |d| && d[i] == item;
        assert (d + items)[i].0 != (d + items)[|d|].0;
      }
      PutNew(d, items[0].0, items[0].1);
      assert d + [items[0]] + items[1..] == d + items;
      assert [(items[0].0, items[0].1)] == [items[0]];
      PutAllFresh(d + [items[0]], items[1..]);
    }
  }

  // The value of the last item with a key.
  ghost function LastValue<K, V>(items: seq<(K, V)>, key: K): Option<V> {
    if items == [] then None
    else if items[|items| - 1].0 == key then Some(items[|items| - 1].1)
    else LastValue(items[..|items| - 1], key)
  }

  // After any run of assignments each key holds the value assigned to it last, and occurs once.
  lemma {:induction false} LastAssignmentWins<K, V>(items: seq<(K, V)>, key: K)
    ensures Get(PutAll([], items), key) == LastValue(items, key)
    ensures DistinctKeys(PutAll([], items))
    decreases |items|
  {
    if items != [] {
      var init, last := items[..|items| - 1], items[|items| - 1];
      assert items == init + [last];
      LastAssignmentWins(init, key);
      PutAllAppend([], init, last);
      GetPut(PutAll([], init), last.0, last.1, key);
      PutDistinct(PutAll([], init), last.0, last.1);
    }
  }
}
