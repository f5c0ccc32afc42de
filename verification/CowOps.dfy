// What each operation of internal/cache/cow.go does to the map it holds, as one indivisible step.
module CowOps {

  datatype Op<+K, +V> =
    | Set(key: K, value: V)
    | Add(key: K, value: V)
    | Delete(key: K)
    | DeleteAll
    | DeleteFunc(keep: set<K>)   // the keys for which the callback answered false

  predicate Full<K, V>(m: map<K, V>, capacity: int) {
    capacity > 0 && |m| >= capacity
  }

  // The new map and the reported result.
  function Outcome<K, V>(op: Op<K, V>, m: map<K, V>, capacity: int): (map<K, V>, bool) {
    match op
    case Set(k, v) => if Full(m, capacity) && k !in m then (m, false) else (m[k := v], true)
    case Add(k, v) => if Full(m, capacity) || k in m then (m, false) else (m[k := v], true)
    case Delete(k) => (m - {k}, k in m)
    case DeleteAll => (map[], true)
    case DeleteFunc(keep) => (map k | k in m && k in keep :: m[k], true)
  }

  ghost predicate WithinCapacity<K, V>(m: map<K, V>, capacity: int) {
    capacity > 0 ==> |m| <= capacity
  }

  lemma InsertSize<K, V>(m: map<K, V>, k: K, v: V)
    ensures |m[k := v]| == if k in m then |m| else |m| + 1
  {
    assert m[k := v].Keys == m.Keys + {k};
    assert k in m ==> m[k := v].Keys == m.Keys;
  }

  lemma OutcomeWithinCapacity<K, V>(op: Op<K, V>, m: map<K, V>, capacity: int)
    requires WithinCapacity(m, capacity)
    ensures WithinCapacity(Outcome(op, m, capacity).0, capacity)
  {
    match op
    case Set(k, v) => InsertSize(m, k, v);
    case Add(k, v) => InsertSize(m, k, v);
    case Delete(k) => KeysBound(m - {k}, m);
    case DeleteAll =>
    case DeleteFunc(keep) => KeysBound(map k | k in m && k in keep :: m[k], m);
  }

  lemma KeysBound<K, V>(a: map<K, V>, b: map<K, V>)
    requires a.Keys <= b.Keys
    ensures |a| <= |b|
  {
    var rest := b.Keys - a.Keys;
    assert b.Keys == a.Keys + rest;
    assert |b.Keys| == |a.Keys| + |rest|;
  }

  // A full Cow still replaces the value of a key it holds, refuses every other key, and accepts
  // again after a deletion.
  lemma FullCow<K, V>(m: map<K, V>, capacity: int, k: K, v': V)
    requires capacity > 0 && |m| == capacity && k in m
    ensures Outcome(Set(k, v'), m, capacity) == (m[k := v'], true)
    ensures forall j: K, v: V :: j !in m ==>
        Outcome(Set(j, v), m, capacity) == (m, false) == Outcome(Add(j, v), m, capacity)
    ensures forall j: K, v: V :: j !in m ==> Outcome(Add(j, v), Outcome(Delete(k), m, capacity).0, capacity).1
  {
    assert (m - {k}).Keys == m.Keys - {k};
  }

  // Deleting what a successful Add stored restores the map.
  lemma DeleteUndoesAdd<K, V>(m: map<K, V>, capacity: int, k: K, v: V)
    requires Outcome(Add(k, v), m, capacity).1
    ensures Outcome(Delete(k), Outcome(Add(k, v), m, capacity).0, capacity) == (m, true)
  {
    assert m[k := v] - {k} == m;
  }
}
