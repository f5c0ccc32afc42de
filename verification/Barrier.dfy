// The Barrier type of internal/cache/barrier.go: the two sections that run under its mutex.
// BarrierProtocol runs these sections, and the per-key mutexes, from many goroutines.
module BarrierClass {
  import opened Wrappers
  import opened BarrierProtocol

  // The type `barrier`: a mutex (held or not) and the number of goroutines using it.
  class LockCell {
    var held: bool
    var n: nat

    constructor ()
      ensures !held && n == 0
    {
      held, n := false, 0;
    }
  }

  class Barrier<K(==)> {
    var keys: map<K, LockCell>

    // Each key has its own object.
    ghost predicate Valid()
      reads this
    {
      forall j, k :: j in keys && k in keys && keys[j] == keys[k] ==> j == k
    }

    // How many goroutines use each key.
    ghost function Counts(): map<K, nat>
      reads this, keys.Values
    {
      map k | k in keys :: keys[k].n
    }

    constructor ()
      ensures Valid() && keys == map[]
    {
      keys := map[];
    }

    method Add(key: K) returns (m: LockCell)
      requires Valid()
      modifies this, if key in keys then {keys[key]} else {}
      ensures Valid()
      ensures Counts() == AddCount(old(Counts()), key)
      ensures key in keys && keys[key] == m
      ensures if key in old(keys) then keys == old(keys) && m.held == old(keys[key].held)
              else keys == old(keys)[key := m] && fresh(m) && !m.held
    {
      if key in keys {
        m := keys[key];
      } else {
        m := new LockCell();
        keys := keys[key := m];
      }
      m.n := Incremented(m.n);
    }

    // None is the panic for a key that nobody locked; nothing changes then.
    method Remove(key: K) returns (m: Option<LockCell>)
      requires Valid()
      modifies this, if key in keys then {keys[key]} else {}
      ensures Valid()
      ensures m == if key in old(keys) then Some(old(keys)[key]) else None
      ensures match RemoveCount(old(Counts()), key)
              case None => keys == old(keys) && Counts() == old(Counts())
              case Some(counts) => Counts() == counts
      ensures m.Some? ==> m.value.held == old(keys[key].held)
      ensures forall k :: k in keys ==> k in old(keys) && keys[k] == old(keys)[k]
    {
      if key !in keys {
        return None;
      }
      var cell := keys[key];
      cell.n := Decremented(cell.n);
      if cell.n == 0 {
        keys := keys - {key};
      }
      m := Some(cell);
    }
  }
}
