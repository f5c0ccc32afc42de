// The key cache together with the codec it stores keys with: what a Get returns is a key that some
// Create was given.
module KeyCacheCodec {
  import opened Wrappers
  import opened KeyTypes
  import opened KeyCache
  import opened KeyCacheCoherence
  import opened KeyCacheStaleness
  import V = KeyVersions

  // crypto.ParseKeyVersion as the cache uses it.
  function Parse(json: V.Json, b: Bytes): Option<KeyVersion> {
    match V.ParseKeyVersion(json, b) case Ok(k) => Some(k) case Err(_) => None
  }

  predicate UsesCodec(c: Config, json: V.Json, b: Bytes) { c.parse(b) == Parse(json, b) }

  ghost predicate Codec(c: Config, json: V.Json) {
    V.Lawful(json) && forall b :: UsesCodec(c, json, b)
  }

  predicate EncodesTo(k: KeyVersion, blob: Bytes) {
    V.Typed(k) && V.Encodable(k) && V.EncodeKeyVersion(k) == Ok(blob)
  }

  // keyCache.Create hands the store nothing but encoded keys: it fails before when encoding fails.
  ghost predicate CreatesKeys(steps: seq<Step>) {
    forall i :: 0 <= i < |steps| && steps[i].CreateStart? ==> exists k :: EncodesTo(k, steps[i].blob)
  }

  // The i-th step is a Create that succeeds.
  predicate Creates(run: seq<State>, steps: seq<Step>, i: nat, n: Name)
    requires i < |steps| && i < |run|
  {
    steps[i].CreateStart? && steps[i].name == n && !steps[i].down && n !in run[i].store
  }

  // A value in the store was there at the beginning or was put there by a Create.
  lemma {:induction false} StoredWasCreated(c: Config, run: seq<State>, steps: seq<Step>, j: nat, n: Name)
    requires IsPath(c, run, steps) && j < |run| && n in run[j].store
    ensures (n in run[0].store && run[0].store[n] == run[j].store[n])
            || exists i :: 0 <= i < j && Creates(run, steps, i, n) && steps[i].blob == run[j].store[n]
  {
    if j > 0 {
      var s, step := run[j - 1], steps[j - 1];
      assert StepAt(c, run, steps, j - 1);
      if n in s.store {
        StoredWasCreated(c, run, steps, j - 1, n);
      } else {
        assert Creates(run, steps, j - 1, n);
      }
    }
  }

  // Every key that a Get returns under a name, in any run, is the one that was in the store at the
  // beginning or one that a Create of that name was given, with its time in UTC.
  lemma ReturnedWasCreated(c: Config, json: V.Json, run: seq<State>, steps: seq<Step>, i: nat,
                           t: Thread, n: Name, key: KeyVersion)
    requires Codec(c, json) && IsRun(c, run, steps) && CreatesKeys(steps) && i < |run|
    requires t in run[i].pcs && run[i].pcs[t] == Idle(Got(n, Ok(key)))
    ensures (n in run[0].store && Parse(json, run[0].store[n]) == Some(key))
            || exists j, k :: 0 <= j < i && Creates(run, steps, j, n) && EncodesTo(k, steps[j].blob) &&
                key == V.InUTC(k)
  {
    ReturnedWasStored(c, run, steps, i);
    assert WasStored(c, run, i, n, key);
    var m: nat :| m <= i && n in run[m].store && c.parse(run[m].store[n]) == Some(key);
    assert UsesCodec(c, json, run[m].store[n]);
    StoredWasCreated(c, run, steps, m, n);
    if !(n in run[0].store && run[0].store[n] == run[m].store[n]) {
      var j :| 0 <= j < m && Creates(run, steps, j, n) && steps[j].blob == run[m].store[n];
      var k :| EncodesTo(k, steps[j].blob);
      V.ParseUndoesEncode(json, k);
      assert key == V.InUTC(k);
    }
  }

  // ---------- one key per name ----------

  predicate NeverDeleted(run: seq<State>, steps: seq<Step>, n: Name)
    requires |run| > |steps|
  {
    forall i :: 0 <= i < |steps| && DeletesFromStore(run[i], steps[i]) ==> steps[i].name != n
  }

  lemma {:induction false} StoreKeeps(c: Config, run: seq<State>, steps: seq<Step>, j: nat, i: nat, n: Name)
    requires IsPath(c, run, steps) && NeverDeleted(run, steps, n) && j <= i < |run| && n in run[j].store
    ensures n in run[i].store && run[i].store[n] == run[j].store[n]
  {
    if j < i {
      StoreKeeps(c, run, steps, j, i - 1, n);
      assert StepAt(c, run, steps, i - 1);
    }
  }

  // In a run that never deletes a name, all Gets of it that return a key return the same one, in
  // every interleaving and whatever the collectors evict in between.
  lemma OneKeyPerName(c: Config, run: seq<State>, steps: seq<Step>, i: nat, j: nat,
                      t: Thread, u: Thread, n: Name, k: KeyVersion, l: KeyVersion)
    requires IsRun(c, run, steps) && NeverDeleted(run, steps, n) && i < |run| && j < |run|
    requires t in run[i].pcs && run[i].pcs[t] == Idle(Got(n, Ok(k)))
    requires u in run[j].pcs && run[j].pcs[u] == Idle(Got(n, Ok(l)))
    ensures k == l
  {
    ReturnedWasStored(c, run, steps, i);
    ReturnedWasStored(c, run, steps, j);
    assert WasStored(c, run, i, n, k) && WasStored(c, run, j, n, l);
    var a: nat :| a <= i && n in run[a].store && c.parse(run[a].store[n]) == Some(k);
    var b: nat :| b <= j && n in run[b].store && c.parse(run[b].store[n]) == Some(l);
    StoreKeeps(c, run, steps, a, |steps|, n);
    StoreKeeps(c, run, steps, b, |steps|, n);
  }
}
