// The Cow type of internal/cache/cow.go as a class: `ptr` refers to a map object on the heap. Every
// update builds a new map object and swaps the pointer, so no method ever changes a map object that
// a reader may have loaded (the modifies clauses name the pointer only).
module CowClass {
  import opened Wrappers
  import opened CowOps

  class GoMap<K(==), V> {
    var m: map<K, V>

    constructor ()
      ensures m == map[]
    {
      m := map[];
    }
  }

  // `for k, v := range r { w[k] = v }` in whatever order the map yields its keys.
  method CopyInto<K, V>(r: map<K, V>, w: GoMap<K, V>)
    requires w.m == map[]
    modifies w
    ensures w.m == r
  {
    var todo := r.Keys;
    while todo != {}
      invariant todo <= r.Keys
      invariant w.m == map k | k in r && k !in todo :: r[k]
    {
      var k :| k in todo;
      w.m := w.m[k := r[k]];
      todo := todo - {k};
    }
  }

  class Cow<K(==), V> {
    var ptr: GoMap?<K, V>
    const capacity: int

    // The map readers see; a nil pointer is an empty map.
    ghost function Contents(): map<K, V>
      reads this, ptr
    {
      if ptr == null then map[] else ptr.m
    }

    ghost predicate Valid()
      reads this, ptr
    {
      WithinCapacity(Contents(), capacity)
    }

    // The zero Cow.
    constructor Zero()
      ensures Valid() && Contents() == map[] && capacity == 0 && ptr == null
    {
      ptr, capacity := null, 0;
    }

    constructor New(capacity: int)
      ensures Valid() && Contents() == map[] && this.capacity == capacity && ptr != null && fresh(ptr)
    {
      this.capacity := capacity;
      var w := new GoMap<K, V>();
      ptr := w;
    }

    // The copy made by Clone: a map object of its own.
    constructor Copy(r: map<K, V>, capacity: int)
      requires WithinCapacity(r, capacity)
      ensures Valid() && Contents() == r && this.capacity == capacity && ptr != null && fresh(ptr)
    {
      this.capacity := capacity;
      var w := new GoMap<K, V>();
      CopyInto(r, w);
      ptr := w;
    }

    constructor Nil(capacity: int)
      ensures Valid() && Contents() == map[] && this.capacity == capacity && ptr == null
    {
      this.capacity := capacity;
      ptr := null;
    }

    method Get(key: K) returns (r: Option<V>)
      ensures r == if key in Contents() then Some(Contents()[key]) else None
    {
      var p := ptr;
      if p == null || key !in p.m {
        return None;
      }
      r := Some(p.m[key]);
    }

    method Set(key: K, value: V) returns (stored: bool)
      requires Valid()
      modifies this`ptr
      ensures Valid()
      ensures (Contents(), stored) == Outcome(Op.Set(key, value), old(Contents()), capacity)
      ensures if stored then ptr != null && fresh(ptr) else ptr == old(ptr)
    {
      OutcomeWithinCapacity(Op.Set(key, value), Contents(), capacity);
      var w := new GoMap<K, V>();
      if ptr == null {
        w.m := map[key := value];
        ptr := w;
        return true;
      }
      var r := ptr.m;
      if capacity > 0 && |r| >= capacity && key !in r {
        return false;
      }
      CopyInto(r, w);
      w.m := w.m[key := value];
      ptr := w;
      stored := true;
    }

    method Add(key: K, value: V) returns (added: bool)
      requires Valid()
      modifies this`ptr
      ensures Valid()
      ensures (Contents(), added) == Outcome(Op.Add(key, value), old(Contents()), capacity)
      ensures if added then ptr != null && fresh(ptr) else ptr == old(ptr)
    {
      OutcomeWithinCapacity(Op.Add(key, value), Contents(), capacity);
      var w := new GoMap<K, V>();
      if ptr == null {
        w.m := map[key := value];
        ptr := w;
        return true;
      }
      var r := ptr.m;
      if capacity > 0 && |r| >= capacity {
        return false;
      }
      if key in r {
        return false;
      }
      CopyInto(r, w);
      w.m := w.m[key := value];
      ptr := w;
      added := true;
    }

    method Delete(key: K) returns (removed: bool)
      requires Valid()
      modifies this`ptr
      ensures Valid()
      ensures (Contents(), removed) == Outcome(Op.Delete(key), old(Contents()), capacity)
      ensures if removed then ptr != null && fresh(ptr) else ptr == old(ptr)
    {
      OutcomeWithinCapacity(Op.Delete(key), Contents(), capacity);
      assert key !in Contents() ==> Contents() - {key} == Contents();
      if ptr == null {
        return false;
      }
      var r := ptr.m;
      if |r| == 0 {
        return false;
      }
      if key !in r {
        return false;
      }
      var w := new GoMap<K, V>();
      CopyInto(r, w);
      w.m := w.m - {key};
      ptr := w;
      removed := true;
    }

    method DeleteAll()
      modifies this`ptr
      ensures Valid() && Contents() == map[]
      ensures if old(ptr) == null then ptr == null else ptr != null && fresh(ptr)
    {
      if ptr != null {
        var w := new GoMap<K, V>();
        ptr := w;
      }
    }

    method DeleteFunc(f: (K, V) -> bool)
      requires Valid()
      modifies this`ptr
      ensures Valid()
      ensures Contents() == map k | k in old(Contents()) && !f(k, old(Contents())[k]) :: old(Contents())[k]
      ensures if old(ptr) == null then ptr == null else ptr != null && fresh(ptr)
    {
      if ptr == null {
        return;
      }
      var r := ptr.m;
      var w := new GoMap<K, V>();
      var todo := r.Keys;
      while todo != {}
        invariant todo <= r.Keys
        invariant w.m == map k | k in r && k !in todo && !f(k, r[k]) :: r[k]
      {
        var k :| k in todo;
        if !f(k, r[k]) {
          w.m := w.m[k := r[k]];
        }
        todo := todo - {k};
      }
      KeysBound(w.m, r);
      ptr := w;
    }

    // The copy shares no map object with the original, so each evolves alone: no method of one
    // modifies anything that the other one's Contents reads.
    method Clone() returns (cc: Cow<K, V>)
      requires Valid()
      ensures fresh(cc) && cc.Valid() && cc.capacity == capacity && cc.Contents() == Contents()
      ensures if ptr == null then cc.ptr == null else cc.ptr != null && fresh(cc.ptr)
    {
      if ptr == null {
        cc := new Cow<K, V>.Nil(capacity);
      } else {
        cc := new Cow<K, V>.Copy(ptr.m, capacity);
      }
    }

    // Every key once, in some order.
    method Keys() returns (keys: seq<K>)
      ensures multiset(keys) == multiset(Contents().Keys)
    {
      keys := [];
      if ptr == null || |ptr.m| == 0 {
        return;
      }
      var todo := ptr.m.Keys;
      while todo != {}
        invariant todo <= ptr.m.Keys
        invariant multiset(keys) == multiset(ptr.m.Keys - todo)
      {
        var k :| k in todo;
        keys := keys + [k];
        assert ptr.m.Keys - (todo - {k}) == (ptr.m.Keys - todo) + {k};
        todo := todo - {k};
      }
      assert ptr.m.Keys - {} == ptr.m.Keys;
    }
  }
}
