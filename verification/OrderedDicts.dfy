// Python dictionaries: a key keeps the place of its first insertion and the value of its last.

module OrderedDicts {
  import opened Common

  datatype Dict<K(!new,==), V> = Dict(keys: seq<K>, items: map<K, V>) {
    ghost predicate Valid() {
      && (forall i, j | 0 <= i < j < |keys| :: keys[i] != keys[j])
      && (forall k :: k in keys <==> k in items)
    }
  }

  function Empty<K(==,!new), V>(): (r: Dict<K, V>)
    ensures r.Valid()
  {
    Dict([], map[])
  }

  function Put<K(==,!new), V>(d: Dict<K, V>, key: K, value: V): (r: Dict<K, V>)
    requires d.Valid()
    ensures r.Valid()
  {
    Dict(if key in d.items then d.keys else d.keys + [key], d.items[key := value])
  }

  function Get<K(==,!new), V>(d: Dict<K, V>, key: K): Option<V> {
    if key in d.items then Some(d.items[key]) else None
  }

  function Values<K(==,!new), V>(d: Dict<K, V>): (r: seq<V>)
    requires d.Valid()
    ensures |r| == |d.keys|
    ensures forall i | 0 <= i < |r| :: r[i] == d.items[d.keys[i]]
  {
    seq(|d.keys|, i requires 0 <= i < |d.keys| => d.items[d.keys[i]])
  }

  /** Inserting values one by one under the keys `key` gives them. */
  function Build<K(==,!new), V>(values: seq<V>, key: V -> K): (r: Dict<K, V>)
    ensures r.Valid()
  {
    if values == [] then Empty()
    else Put(Build(values[..|values| - 1], key), key(values[|values| - 1]), values[|values| - 1])
  }

  // -------------------------------------------------- first and last insertions

  function FirstAt<K(==,!new), V>(values: seq<V>, key: V -> K, k: K): (r: nat)
    ensures r <= |values|
    ensures forall i | 0 <= i < r :: key(values[i]) != k
    ensures r < |values| ==> key(values[r]) == k
  {
    if values == [] then 0
    else if key(values[0]) == k then 0
    else
      var r := FirstAt(values[1..], key, k);
      assert forall i | 1 <= i < r + 1 :: values[i] == values[1..][i - 1];
      r + 1
  }

  function LastOf<K(==,!new), V>(values: seq<V>, key: V -> K, k: K): Option<V> {
    if values == [] then None
    else if key(values[|values| - 1]) == k then Some(values[|values| - 1])
    else LastOf(values[..|values| - 1], key, k)
  }

  /** A key holds the value inserted last under it. */
  lemma {:induction false} LastValueWins<K(!new), V>(values: seq<V>, key: V -> K, k: K)
    ensures Get(Build(values, key), k) == LastOf(values, key, k)
  {
    if values != [] { LastValueWins(values[..|values| - 1], key, k); }
  }

  /** A value with no later one of the same key. */
  ghost predicate IsLast<K(!new), V(!new)>(values: seq<V>, key: V -> K, k: K, v: V) {
    exists i :: 0 <= i < |values| && values[i] == v && forall j | i < j < |values| :: key(values[j]) != k
  }

  lemma StillLast<K(!new), V(!new)>(front: seq<V>, last: V, key: V -> K, k: K, v: V)
    requires IsLast(front, key, k, v) && key(last) != k
    ensures IsLast(front + [last], key, k, v)
  {
    var i :| 0 <= i < |front| && front[i] == v && forall j | i < j < |front| :: key(front[j]) != k;
    assert (front + [last])[i] == v;
  }

  lemma {:induction false} LastOfIs<K(!new), V(!new)>(values: seq<V>, key: V -> K, k: K)
    ensures LastOf(values, key, k).None? <==> forall i | 0 <= i < |values| :: key(values[i]) != k
    ensures LastOf(values, key, k).Some? ==>
      var v := LastOf(values, key, k).value;
      v in values && key(v) == k && IsLast(values, key, k, v)
  {
    if values != [] {
      var front, last := values[..|values| - 1], values[|values| - 1];
      assert values == front + [last];
      if key(last) == k {
        assert values[|front|] == last;
      } else {
        LastOfIs(front, key, k);
        if LastOf(front, key, k).Some? { StillLast(front, last, key, k, LastOf(front, key, k).value); }
      }
    }
  }

  lemma FirstAtSnoc<K(!new), V>(front: seq<V>, last: V, key: V -> K, k: K)
    ensures FirstAt(front + [last], key, k) ==
      if FirstAt(front, key, k) < |front| then FirstAt(front, key, k) else if key(last) == k then |front| else |front| + 1
  {
    var r, values := FirstAt(front + [last], key, k), front + [last];
    assert forall i | 0 <= i < |front| :: values[i] == front[i];
    assert values[|front|] == last;
  }

  lemma {:induction false} KeysAreSeen<K(!new), V>(values: seq<V>, key: V -> K, k: K)
    ensures k in Build(values, key).keys <==> FirstAt(values, key, k) < |values|
  {
    if values != [] {
      var front, last := values[..|values| - 1], values[|values| - 1];
      assert values == front + [last];
      KeysAreSeen(front, key, k);
      FirstAtSnoc(front, last, key, k);
    }
  }

  ghost predicate InFirstOrder<K(!new), V(!new)>(keys: seq<K>, values: seq<V>, key: V -> K) {
    forall i, j | 0 <= i < j < |keys| :: FirstAt(values, key, keys[i]) < FirstAt(values, key, keys[j])
  }

  lemma StillBefore<K(!new), V(!new)>(front: seq<V>, last: V, key: V -> K, k: K, l: K)
    requires FirstAt(front, key, k) < FirstAt(front, key, l)
    ensures FirstAt(front + [last], key, k) < FirstAt(front + [last], key, l)
  {
    FirstAtSnoc(front, last, key, k);
    FirstAtSnoc(front, last, key, l);
  }

  lemma NewKeyIsLast<K(!new), V(!new)>(keys: seq<K>, front: seq<V>, key: V -> K, k: K)
    requires InFirstOrder(keys, front, key) && forall l | l in keys :: FirstAt(front, key, l) < |front|
    requires FirstAt(front, key, k) == |front|
    ensures InFirstOrder(keys + [k], front, key)
  {
  }

  lemma AllStillBefore<K(!new), V(!new)>(keys: seq<K>, front: seq<V>, last: V, key: V -> K)
    requires InFirstOrder(keys, front, key)
    ensures InFirstOrder(keys, front + [last], key)
  {
    forall i, j | 0 <= i < j < |keys|
      ensures FirstAt(front + [last], key, keys[i]) < FirstAt(front + [last], key, keys[j])
    {
      StillBefore(front, last, key, keys[i], keys[j]);
    }
  }

  lemma StillInFirstOrder<K(!new), V(!new)>(keys: seq<K>, front: seq<V>, last: V, key: V -> K)
    requires InFirstOrder(keys, front, key) && forall k :: k in keys <==> FirstAt(front, key, k) < |front|
    ensures InFirstOrder(if key(last) in keys then keys else keys + [key(last)], front + [last], key)
  {
    if key(last) in keys {
      AllStillBefore(keys, front, last, key);
    } else {
      NewKeyIsLast(keys, front, key, key(last));
      AllStillBefore(keys + [key(last)], front, last, key);
    }
  }

  /** Keys are in the order in which they were first inserted. */
  lemma {:induction false} FirstInsertionOrders<K(!new), V(!new)>(values: seq<V>, key: V -> K)
    ensures InFirstOrder(Build(values, key).keys, values, key)
  {
    if values != [] {
      var front, last := values[..|values| - 1], values[|values| - 1];
      assert values == front + [last];
      FirstInsertionOrders(front, key);
      forall k ensures k in Build(front, key).keys <==> FirstAt(front, key, k) < |front| {
        KeysAreSeen(front, key, k);
      }
      StillInFirstOrder(Build(front, key).keys, front, last, key);
      assert key(last) in Build(front, key).keys <==> key(last) in Build(front, key).items;
    }
  }

  // ------------------------------------------------------------- merging dicts

  function PutAll<K(==,!new), V>(d: Dict<K, V>, values: seq<V>, key: V -> K): (r: Dict<K, V>)
    requires d.Valid()
    ensures r.Valid()
  {
    if values == [] then d
    else Put(PutAll(d, values[..|values| - 1], key), key(values[|values| - 1]), values[|values| - 1])
  }

  lemma {:induction false} BuildIsPutAll<K(!new), V>(values: seq<V>, key: V -> K)
    ensures Build(values, key) == PutAll(Empty(), values, key)
  {
    if values != [] { BuildIsPutAll(values[..|values| - 1], key); }
  }

  lemma {:induction false} PutAllAppend<K(!new), V>(d: Dict<K, V>, a: seq<V>, b: seq<V>, key: V -> K)
    requires d.Valid()
    ensures PutAll(d, a + b, key) == PutAll(PutAll(d, a, key), b, key)
  {
    if b == [] {
      assert a + b == a;
    } else {
      assert (a + b)[..|a + b| - 1] == a + b[..|b| - 1];
      PutAllAppend(d, a, b[..|b| - 1], key);
    }
  }

  lemma PutAllSnoc<K(!new), V>(d: Dict<K, V>, front: seq<V>, last: V, key: V -> K)
    requires d.Valid()
    ensures PutAll(d, front + [last], key) == Put(PutAll(d, front, key), key(last), last)
  {
    assert (front + [last])[..|front|] == front;
  }

  lemma PutsCommute<K(!new), V>(d: Dict<K, V>, k: K, v: V, k': K, v': V)
    requires d.Valid() && k in d.items && k != k'
    ensures Put(Put(d, k, v), k', v') == Put(Put(d, k', v'), k, v)
  {
    assert d.items[k := v][k' := v'] == d.items[k' := v'][k := v];
  }

  lemma OverwritingPut<K(!new), V>(d: Dict<K, V>, k: K, v: V, v': V)
    requires d.Valid()
    ensures Put(Put(d, k, v), k, v') == Put(d, k, v')
  {
    assert d.items[k := v][k := v'] == d.items[k := v'];
  }

  lemma {:induction false} PutAllHolds<K(!new), V>(d: Dict<K, V>, values: seq<V>, i: nat, key: V -> K)
    requires d.Valid() && i < |values|
    ensures key(values[i]) in PutAll(d, values, key).items
  {
    var n := |values| - 1;
    if i < n {
      PutAllHolds(d, values[..n], i, key);
    }
  }

  lemma ReplaceLast<K(!new), V>(d: Dict<K, V>, front: seq<V>, last: V, v: V, key: V -> K)
    requires d.Valid() && key(last) == key(v)
    ensures PutAll(d, front + [v], key) == Put(PutAll(d, front + [last], key), key(v), v)
  {
    PutAllSnoc(d, front, v, key);
    PutAllSnoc(d, front, last, key);
    OverwritingPut(PutAll(d, front, key), key(v), last, v);
  }

  lemma ReplaceEarlier<K(!new), V>(d: Dict<K, V>, front: seq<V>, front': seq<V>, last: V, v: V, key: V -> K)
    requires d.Valid() && key(last) != key(v) && key(v) in PutAll(d, front, key).items
    requires PutAll(d, front', key) == Put(PutAll(d, front, key), key(v), v)
    ensures PutAll(d, front' + [last], key) == Put(PutAll(d, front + [last], key), key(v), v)
  {
    PutAllSnoc(d, front', last, key);
    PutAllSnoc(d, front, last, key);
    PutsCommute(PutAll(d, front, key), key(v), v, key(last), last);
  }

  /** Overwriting a key's last value in the list is inserting the new value at the end. */
  lemma {:induction false} ReplaceIsPut<K(!new), V>(d: Dict<K, V>, values: seq<V>, i: nat, v: V, key: V -> K)
    requires d.Valid() && i < |values| && key(values[i]) == key(v)
    requires forall j | i < j < |values| :: key(values[j]) != key(v)
    ensures PutAll(d, values[i := v], key) == Put(PutAll(d, values, key), key(v), v)
  {
    var front, last := values[..|values| - 1], values[|values| - 1];
    assert values == front + [last];
    if i == |front| {
      assert values[i := v] == front + [v];
      ReplaceLast(d, front, last, v, key);
    } else {
      ReplaceIsPut(d, front, i, v, key);
      PutAllHolds(d, front, i, key);
      assert values[i := v] == front[i := v] + [last];
      ReplaceEarlier(d, front, front[i := v], last, v, key);
    }
  }

  lemma {:induction false} BuildKeysFit<K(!new), V>(values: seq<V>, key: V -> K)
    ensures forall k | k in Build(values, key).items :: key(Build(values, key).items[k]) == k
  {
    if values != [] { BuildKeysFit(values[..|values| - 1], key); }
  }

  lemma ValuesAfterPut<K(!new), V>(d: Dict<K, V>, k: K, v: V, i: nat)
    requires d.Valid()
    requires if k in d.items then i < |d.keys| && d.keys[i] == k else i == |d.keys|
    ensures Values(Put(d, k, v)) == if k in d.items then Values(d)[i := v] else Values(d) + [v]
  {
  }

  lemma PutReplayed<K(!new), V>(d: Dict<K, V>, before: Dict<K, V>, last: V, key: V -> K)
    requires d.Valid() && before.Valid() && forall k | k in before.items :: key(before.items[k]) == k
    ensures PutAll(d, Values(Put(before, key(last), last)), key) ==
      Put(PutAll(d, Values(before), key), key(last), last)
  {
    var k := key(last);
    if k in before.items {
      var i :| 0 <= i < |before.keys| && before.keys[i] == k;
      ValuesAfterPut(before, k, last, i);
      assert forall j | 0 <= j < |before.keys| :: key(Values(before)[j]) == before.keys[j];
      ReplaceIsPut(d, Values(before), i, last, key);
    } else {
      ValuesAfterPut(before, k, last, |before.keys|);
      PutAllSnoc(d, Values(before), last, key);
    }
  }

  /** Inserting what a dictionary holds is inserting everything it was built from. */
  lemma {:induction false} RebuildingIsBuilding<K(!new), V>(d: Dict<K, V>, values: seq<V>, key: V -> K)
    requires d.Valid()
    ensures PutAll(d, Values(Build(values, key)), key) == PutAll(d, values, key)
  {
    if values != [] {
      var front, last := values[..|values| - 1], values[|values| - 1];
      RebuildingIsBuilding(d, front, key);
      BuildKeysFit(front, key);
      PutReplayed(d, Build(front, key), last, key);
    }
  }
}
