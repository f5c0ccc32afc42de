// The keyCache type of keystore.go as a class: what each call and each tick of a collector does when
// it runs alone. KeyCache and the modules on it run their atomic actions concurrently.
module KeyCacheClass {
  import opened Wrappers
  import opened KeyTypes
  import opened BarrierClass
  import opened CowClass
  import C = KeyCache
  import Codec = KeyCacheCodec
  import V = KeyVersions

  type Name = C.Name

  datatype CreateError = NotEncodable | KeyExists | StoreDown

  class CacheEntry {
    const key: KeyVersion
    var used: bool

    constructor (key: KeyVersion)
      ensures this.key == key && used
    {
      this.key, used := key, true;
    }
  }

  // What reading a name from the store and parsing it yields, without any cache.
  function Read(c: C.Config, store: map<Name, Bytes>, name: Name, down: bool): Result<KeyVersion, C.Error> {
    if down then Err(C.Unavailable)
    else if name !in store then Err(C.NotFound)
    else match c.parse(store[name]) case Some(k) => Ok(k) case None => Err(C.Malformed)
  }

  function KeysOf(m: map<Name, CacheEntry>): map<Name, KeyVersion> { map n | n in m :: m[n].key }

  // Every cached key is what the store holds.
  predicate Agree(c: C.Config, store: map<Name, Bytes>, keys: map<Name, KeyVersion>) {
    forall n :: n in keys ==> Read(c, store, n, false) == Ok(keys[n])
  }

  // Each name has an entry of its own.
  ghost predicate Injective(m: map<Name, CacheEntry>) {
    forall a, b :: a in m && b in m && m[a] == m[b] ==> a == b
  }

  lemma EntryAdded(m: map<Name, CacheEntry>, n: Name, e: CacheEntry)
    requires Injective(m) && e !in m.Values
    ensures Injective(m[n := e]) && KeysOf(m[n := e]) == KeysOf(m)[n := e.key]
  {
    forall a | a in m ensures m[a] != e {
      assert m[a] in m.Values;
    }
  }

  lemma EntryRemoved(m: map<Name, CacheEntry>, n: Name)
    requires Injective(m)
    ensures Injective(m - {n}) && KeysOf(m - {n}) == KeysOf(m) - {n}
  {}

  // The loop of DeleteFunc with the callback of the Unused collector, which unmarks what it keeps.
  method Sweep(r: map<Name, CacheEntry>, w: GoMap<Name, CacheEntry>)
    requires Injective(r) && w.m == map[]
    modifies w, r.Values
    ensures w.m == map n | n in r && old(r[n].used) :: r[n]
    ensures forall n :: n in r ==> !r[n].used
  {
    var todo := r.Keys;
    while todo != {}
      invariant todo <= r.Keys
      invariant forall n :: n in todo ==> r[n].used == old(r[n].used)
      invariant forall n :: n in r && n !in todo ==> !r[n].used
      invariant w.m == map n | n in r && n !in todo && old(r[n].used) :: r[n]
    {
      var n :| n in todo;
      var e := r[n];
      // !e.Used.CompareAndSwap(true, false)
      if e.used {
        e.used := false;
        w.m := w.m[n := e];
      }
      todo := todo - {n};
    }
  }

  lemma KeptEntries(r: map<Name, CacheEntry>, marked: set<Name>, kept: map<Name, CacheEntry>)
    requires Injective(r) && kept == map n | n in r && n in marked :: r[n]
    ensures Injective(kept) && KeysOf(kept) == map n | n in KeysOf(r) && n in marked :: KeysOf(r)[n]
  {}

  class KeyCache {
    const conf: C.Config
    var store: map<Name, Bytes>
    const cache: Cow<Name, CacheEntry>
    const barrier: Barrier<Name>
    var offline: bool

    ghost predicate CacheOk()
      reads this, cache, cache.ptr
    {
      cache.capacity == 0 && Injective(cache.Contents()) && Agree(conf, store, Keys())
    }

    // Between calls nobody is in the barrier.
    ghost predicate Valid()
      reads this, cache, cache.ptr, barrier
    {
      CacheOk() && barrier.Valid() && barrier.keys == map[]
    }

    ghost function Keys(): map<Name, KeyVersion>
      reads this, cache, cache.ptr
    {
      KeysOf(cache.Contents())
    }

    // The name is cached with an entry that is marked as used.
    ghost predicate Marked(n: Name)
      reads this, cache, cache.ptr, cache.Contents().Values
    {
      n in cache.Contents() && cache.Contents()[n].used
    }

    constructor (conf: C.Config, store: map<Name, Bytes>)
      ensures Valid() && Keys() == map[] && !offline
      ensures this.conf == conf && this.store == store
      ensures fresh(cache) && fresh(barrier)
    {
      this.conf, this.store, offline := conf, store, false;
      cache := new Cow.Zero();
      barrier := new Barrier();
    }

    // A hit marks the entry as used.
    method Hit(name: Name) returns (r: Option<KeyVersion>)
      requires CacheOk()
      modifies cache.Contents().Values
      ensures CacheOk() && Keys() == old(Keys())
      ensures r == if name in Keys() then Some(Keys()[name]) else None
      ensures forall n :: Marked(n) <==> (r.Some? && n == name) || old(Marked(n))
    {
      var entry := cache.Get(name);
      if entry.None? {
        return None;
      }
      entry.value.used := true;
      return Some(entry.value.key);
    }

    // The part of Get that runs inside the barrier: it checks the cache again, and then reads the
    // store and caches what it read.
    method GetLocked(name: Name, down: bool) returns (r: Result<KeyVersion, C.Error>)
      requires CacheOk()
      modifies cache`ptr, cache.Contents().Values
      ensures CacheOk()
      ensures r == if name in old(Keys()) then Ok(old(Keys())[name]) else Read(conf, store, name, down)
      ensures Keys() == if r.Ok? then old(Keys())[name := r.value] else old(Keys())
      ensures forall n :: Marked(n) <==> (r.Ok? && n == name) || old(Marked(n))
    {
      var hit := Hit(name);
      if hit.Some? {
        return Ok(hit.value);
      }
      if down {
        return Err(C.Unavailable);
      }
      if name !in store {
        return Err(C.NotFound);
      }
      var k := conf.parse(store[name]);
      if k.None? {
        return Err(C.Malformed);
      }
      var entry := new CacheEntry(k.value);
      EntryAdded(cache.Contents(), name, entry);
      var _ := cache.Set(name, entry);
      return Ok(entry.key);
    }

    // barrier.Lock and barrier.Unlock, when nobody else uses the barrier.
    method Enter(name: Name) returns (m: LockCell)
      requires barrier.Valid() && barrier.keys == map[]
      modifies barrier
      ensures barrier.Valid() && barrier.keys == map[name := m] && fresh(m) && m.n == 1 && m.held
    {
      m := barrier.Add(name);
      assert barrier.Counts()[name] == 1;
      m.held := true;
    }

    method Leave(name: Name, m: LockCell)
      requires barrier.Valid() && barrier.keys == map[name := m] && m.n == 1 && m.held
      modifies barrier, m
      ensures barrier.Valid() && barrier.keys == map[] && !m.held
    {
      var cell := barrier.Remove(name);
      assert name !in barrier.Counts();
      m.held := false;
    }

    // The part of Get that follows a miss.
    method GetMissed(name: Name, down: bool) returns (r: Result<KeyVersion, C.Error>)
      requires Valid()
      modifies cache`ptr, barrier, cache.Contents().Values
      ensures Valid()
      ensures r == if name in old(Keys()) then Ok(old(Keys())[name]) else Read(conf, store, name, down)
      ensures Keys() == if r.Ok? then old(Keys())[name := r.value] else old(Keys())
      ensures forall n :: Marked(n) <==> (r.Ok? && n == name) || old(Marked(n))
    {
      var m := Enter(name);
      assert Keys() == old(Keys()) && forall n :: Marked(n) <==> old(Marked(n));
      r := GetLocked(name, down);
      Leave(name, m);
    }

    // The cache is transparent: while the store answers, Get returns what reading the store would.
    method Get(name: Name, down: bool) returns (r: Result<KeyVersion, C.Error>)
      requires Valid()
      modifies cache`ptr, barrier, cache.Contents().Values
      ensures Valid()
      ensures r == if name in old(Keys()) then Ok(old(Keys())[name]) else Read(conf, store, name, down)
      ensures !down ==> r == Read(conf, store, name, false)
      ensures Keys() == if r.Ok? then old(Keys())[name := r.value] else old(Keys())
      ensures forall n :: Marked(n) <==> (r.Ok? && n == name) || old(Marked(n))
    {
      var hit := Hit(name);
      if hit.Some? {
        return Ok(hit.value);
      }
      r := GetMissed(name, down);
    }

    // A key that was created is read back, with its time in UTC.
    method Create(name: Name, key: KeyVersion, down: bool, ghost json: V.Json) returns (r: Result<(), CreateError>)
      requires Valid() && Codec.Codec(conf, json) && V.Typed(key)
      modifies this`store
      ensures Valid() && Keys() == old(Keys())
      ensures r == if !V.Encodable(key) then Err(NotEncodable) else if down then Err(StoreDown)
                   else if name in old(store) then Err(KeyExists) else Ok(())
      ensures r.Err? ==> store == old(store)
      ensures r.Ok? ==> store.Keys == old(store).Keys + {name} && Read(conf, store, name, false) == Ok(V.InUTC(key))
      ensures r.Ok? ==> forall n :: n in old(store) ==> store[n] == old(store)[n]
    {
      V.EncodesExactlyEncodable(key);
      var b := V.EncodeKeyVersion(key);
      if b.Err? {
        return Err(NotEncodable);
      }
      if down {
        return Err(StoreDown);
      }
      if name in store {
        return Err(KeyExists);
      }
      V.ParseUndoesEncode(json, key);
      assert Codec.UsesCodec(conf, json, b.value);
      store := store[name := b.value];
      return Ok(());
    }

    // The cache is touched only when the store reports no error; a lenient one reports none for a key
    // that it does not hold.
    method Delete(name: Name, down: bool, lenient: bool) returns (ok: bool)
      requires Valid()
      modifies this`store, cache`ptr
      ensures Valid() && ok == (!down && (name in old(store) || lenient))
      ensures store == if ok then old(store) - {name} else old(store)
      ensures Keys() == if ok then old(Keys()) - {name} else old(Keys())
    {
      if down || (name !in store && !lenient) {
        return false;
      }
      EntryRemoved(cache.Contents(), name);
      store := store - {name};
      var _ := cache.Delete(name);
      return true;
    }

    // A tick of the General or of the Offline collector.
    method DropAllTick(who: C.Collector)
      requires Valid() && !who.Unused?
      modifies cache`ptr
      ensures Valid()
      ensures Keys() == if C.Collects(conf, who, offline) then map[] else old(Keys())
    {
      if C.Collects(conf, who, offline) {
        cache.DeleteAll();
      }
    }

    method SweepCache()
      requires CacheOk()
      modifies cache`ptr, cache.Contents().Values
      ensures CacheOk()
      ensures Keys() == map n | n in old(Keys()) && old(Marked(n)) :: old(Keys())[n]
      ensures forall n :: !Marked(n)
    {
      if cache.ptr == null {
        return;
      }
      var r := cache.ptr.m;
      var w := new GoMap<Name, CacheEntry>();
      ghost var marked := set n | n in r && r[n].used;
      Sweep(r, w);
      KeptEntries(r, marked, w.m);
      cache.ptr := w;
    }

    // A tick of the Unused collector keeps the entries used since the last one and unmarks them.
    method UnusedTick()
      requires Valid()
      modifies cache`ptr, cache.Contents().Values
      ensures Valid()
      ensures !C.Collects(conf, C.Unused, offline) ==>
        Keys() == old(Keys()) && forall n :: Marked(n) <==> old(Marked(n))
      ensures C.Collects(conf, C.Unused, offline) ==>
        && Keys() == (map n | n in old(Keys()) && old(Marked(n)) :: old(Keys())[n])
        && forall n :: !Marked(n)
    {
      if !C.Collects(conf, C.Unused, offline) {
        return;
      }
      SweepCache();
    }

    method StatusTick(down: bool)
      modifies this`offline
      ensures offline == down
    {
      offline := down;
    }
  }
}
