// What a single Get may return, in runs whose deletes keep the cache coherent.
module KeyCacheFreshness {
  import opened Wrappers
  import opened KeyTypes
  import opened KeyCache
  import opened KeyCacheCoherence
  import opened KeyCacheRemovals

  // Between its start at step i and step j, goroutine t runs one call.
  ghost predicate InCall(run: seq<State>, t: Thread, i: nat, j: nat)
    requires j < |run|
  {
    forall k :: i < k < j ==> t in run[k].pcs && !run[k].pcs[t].Idle?
  }

  // In state m, the store holds key under n, or a Delete that has removed this very key from the store
  // is still to drop it from the cache.
  ghost predicate Current(c: Config, run: seq<State>, steps: seq<Step>, m: nat, n: Name, key: KeyVersion)
    requires |run| == |steps| + 1 && m < |run|
  {
    Stores(c, run[m], n, key) || exists d: nat :: RemovedAt(c, run, steps, d, m, n, key)
  }

  // So it is in some state from i to j.
  ghost predicate CurrentBetween(c: Config, run: seq<State>, steps: seq<Step>, i: nat, j: nat, n: Name, key: KeyVersion)
    requires |run| == |steps| + 1 && j < |run|
  {
    exists m :: i <= m <= j && Current(c, run, steps, m, n, key)
  }

  lemma AccountedIsCurrent(c: Config, run: seq<State>, steps: seq<Step>, m: nat, n: Name, key: KeyVersion)
    requires IsRun(c, run, steps) && m < |run| && Accounted(c, run[m], HistoryAfter(c, run, steps, m), n, key)
    ensures Current(c, run, steps, m, n, key)
  {
    if !Stores(c, run[m], n, key) {
      var t :| t in run[m].pcs && Removes(run[m], HistoryAfter(c, run, steps, m), t, n, key);
      var d := HistoryMeans(c, run, steps, m, t, n, key);
    }
  }

  // The key that a goroutine is going to return from a Get of n, once that is settled.
  function Settled(s: State, pc: PC, n: Name): Option<KeyVersion> {
    match pc
    case GetHit(m, e, _) => if m == n && e in s.entries then Some(s.entries[e].key) else None
    case GetLeave(m, Ok(key)) => if m == n then Some(key) else None
    case Idle(Got(m, Ok(key))) => if m == n then Some(key) else None
    case Writing(PutEntry(m, e), _) => if m == n && e in s.entries then Some(s.entries[e].key) else None
    case _ => None
  }

  lemma HitIsAccounted(c: Config, s: State, h: History, n: Name, locked: bool)
    requires CachedOk(s) && CachedAccounted(c, s, h)
    ensures var k := Settled(s, AfterHit(s, n, locked), n); k.Some? ==> Accounted(c, s, h, n, k.value)
  {
  }

  lemma FetchIsStored(c: Config, s: State, step: Step, n: Name)
    requires Enabled(c, s, step) && step.Fetch?
    ensures var s' := Apply(c, s, step); var k := Settled(s', s'.pcs[step.t], n);
      k.Some? ==> Stores(c, s, n, k.value)
  {
  }

  // Any other step of the goroutine within the call keeps what is settled.
  lemma OwnStepKeepsSettled(c: Config, s: State, step: Step, n: Name)
    requires Enabled(c, s, step) && ThreadIn(s, step.t) && !s.pcs[step.t].Idle? && !step.Fetch? && !step.GetAgain?
    ensures var s' := Apply(c, s, step); var k := Settled(s', s'.pcs[step.t], n);
      k.Some? ==> Settled(s, s.pcs[step.t], n) == k
  {
    var pc := s.pcs[step.t];
    if pc.GetHit? { KeysStay(c, s, step, pc.e); }
    if pc.Writing? && pc.op.PutEntry? { KeysStay(c, s, step, pc.op.e); }
  }

  predicate ThreadIn(s: State, t: Thread) { t in s.pcs && t in s.bar.phases && ThreadOk(s, t) }

  lemma OthersKeepSettled(c: Config, s: State, step: Step, t: Thread, n: Name)
    requires Enabled(c, s, step) && ThreadIn(s, t) && step.t != t
    ensures var s' := Apply(c, s, step); t in s'.pcs && s'.pcs[t] == s.pcs[t]
    ensures var s' := Apply(c, s, step); Settled(s', s.pcs[t], n) == Settled(s, s.pcs[t], n)
  {
    var pc := s.pcs[t];
    if pc.GetHit? { KeysStay(c, s, step, pc.e); }
    if pc.Writing? && pc.op.PutEntry? { KeysStay(c, s, step, pc.op.e); }
  }

  lemma AgainIsAccounted(c: Config, s: State, h: History, step: Step, n: Name)
    requires Enabled(c, s, step) && step.GetAgain? && CachedOk(s) && CachedAccounted(c, s, h)
    ensures var s' := Apply(c, s, step); var k := Settled(s', s'.pcs[step.t], n);
      k.Some? ==> Accounted(c, s, h, n, k.value)
  {
    HitIsAccounted(c, s, h, s.pcs[step.t].name, true);
  }

  // One step by anybody: the key that is settled after it was so before, or is accounted for now.
  lemma SettledStep(c: Config, s: State, h: History, step: Step, t: Thread, n: Name)
    requires Inv(s) && CachedAccounted(c, s, h) && Enabled(c, s, step) && t in s.pcs
    requires step.t == t && s.pcs[t].Idle? ==> step == GetStart(t, n)
    ensures var s' := Apply(c, s, step);
      && t in s'.pcs
      && var k := Settled(s', s'.pcs[t], n);
         k.Some? ==> Accounted(c, s, h, n, k.value) || (step != GetStart(t, n) && Settled(s, s.pcs[t], n) == k)
  {
    assert ThreadIn(s, t);
    if step.t != t {
      OthersKeepSettled(c, s, step, t, n);
    } else if step.GetStart? {
      HitIsAccounted(c, s, h, n, false);
    } else if step.GetAgain? {
      AgainIsAccounted(c, s, h, step, n);
    } else if step.Fetch? {
      FetchIsStored(c, s, step, n);
    } else {
      OwnStepKeepsSettled(c, s, step, n);
    }
  }

  lemma CachedIsAccounted(c: Config, run: seq<State>, steps: seq<Step>, j: nat)
    requires IsRun(c, run, steps) && CleanPath(run, steps) && j < |run|
    ensures CachedAccounted(c, run[j], HistoryAfter(c, run, steps, j))
  {
    CleanRunAccounts(c, run, steps, j);
  }

  lemma StepAtSettles(c: Config, run: seq<State>, steps: seq<Step>, h: History, t: Thread, j: nat, n: Name)
    requires j < |steps| && |run| == |steps| + 1 && StepAt(c, run, steps, j) && t in run[j].pcs
    requires Inv(run[j]) && CachedAccounted(c, run[j], h)
    requires run[j].pcs[t].Idle? && steps[j].t == t ==> steps[j] == GetStart(t, n)
    ensures t in run[j + 1].pcs
    ensures var k := Settled(run[j + 1], run[j + 1].pcs[t], n);
      k.Some? ==> Accounted(c, run[j], h, n, k.value) ||
                  (steps[j] != GetStart(t, n) && Settled(run[j], run[j].pcs[t], n) == k)
  {
    SettledStep(c, run[j], h, steps[j], t, n);
  }

  lemma RunStepSettles(c: Config, run: seq<State>, steps: seq<Step>, t: Thread, j: nat, n: Name)
    requires IsRun(c, run, steps) && CleanPath(run, steps) && j < |steps| && t in run[j].pcs
    requires run[j].pcs[t].Idle? ==> steps[j] == GetStart(t, n)
    ensures t in run[j + 1].pcs
    ensures var k := Settled(run[j + 1], run[j + 1].pcs[t], n);
      k.Some? ==> Current(c, run, steps, j, n, k.value) ||
                  (steps[j] != GetStart(t, n) && Settled(run[j], run[j].pcs[t], n) == k)
  {
    RunKeepsInv(c, run, steps, j);
    CachedIsAccounted(c, run, steps, j);
    assert StepAt(c, run, steps, j);
    var h := HistoryAfter(c, run, steps, j);
    StepAtSettles(c, run, steps, h, t, j, n);
    var k := Settled(run[j + 1], run[j + 1].pcs[t], n);
    if k.Some? && Accounted(c, run[j], h, n, k.value) {
      AccountedIsCurrent(c, run, steps, j, n, k.value);
    }
  }

  lemma StarterIsThere(c: Config, run: seq<State>, steps: seq<Step>, t: Thread, i: nat, n: Name)
    requires IsPath(c, run, steps) && i < |steps| && steps[i] == GetStart(t, n)
    ensures t in run[i].pcs
  {
    assert StepAt(c, run, steps, i);
  }

  lemma {:induction false} SettledIsCurrent(c: Config, run: seq<State>, steps: seq<Step>, t: Thread, i: nat, j: nat,
                                            n: Name)
    requires IsRun(c, run, steps) && CleanPath(run, steps)
    requires i < j < |run| && steps[i] == GetStart(t, n) && InCall(run, t, i, j)
    ensures t in run[j].pcs
    ensures var k := Settled(run[j], run[j].pcs[t], n); k.Some? ==> CurrentBetween(c, run, steps, i, j, n, k.value)
  {
    if j == i + 1 {
      StarterIsThere(c, run, steps, t, i, n);
    } else {
      SettledIsCurrent(c, run, steps, t, i, j - 1, n);
      assert !run[j - 1].pcs[t].Idle?;
    }
    RunStepSettles(c, run, steps, t, j - 1, n);
  }

  // In a clean run, a Get that returns a key returns one that was current at some moment of the call:
  // the store held it, or a Delete that had removed it was not finished.
  lemma GetIsFresh(c: Config, run: seq<State>, steps: seq<Step>, t: Thread, i: nat, j: nat, n: Name, key: KeyVersion)
    requires IsRun(c, run, steps) && CleanPath(run, steps)
    requires i < j < |run| && steps[i] == GetStart(t, n) && InCall(run, t, i, j)
    requires t in run[j].pcs && run[j].pcs[t] == Idle(Got(n, Ok(key)))
    ensures CurrentBetween(c, run, steps, i, j, n, key)
  {
    SettledIsCurrent(c, run, steps, t, i, j, n);
  }

  // ---------- after a Create ----------

  lemma {:induction false} StoreKeepsValue(c: Config, run: seq<State>, steps: seq<Step>, i: nat, j: nat, n: Name)
    requires IsPath(c, run, steps) && i <= j < |run| && n in run[i].store
    requires forall k :: i <= k < j && DeletesFromStore(run[k], steps[k]) ==> steps[k].name != n
    ensures n in run[j].store && run[j].store[n] == run[i].store[n]
  {
    if i < j {
      StoreKeepsValue(c, run, steps, i, j - 1, n);
      assert StepAt(c, run, steps, j - 1);
    }
  }

  lemma CurrentOrPending(c: Config, run: seq<State>, steps: seq<Step>, m: nat, n: Name, key: KeyVersion)
    requires |run| == |steps| + 1 && m < |run| && Current(c, run, steps, m, n, key)
    ensures Stores(c, run[m], n, key) || DropPending(run[m], n)
  {
    if !Stores(c, run[m], n, key) {
      var d: nat :| RemovedAt(c, run, steps, d, m, n, key);
      assert Dropping(run[m].pcs[steps[d].t], n);
    }
  }

  // In a clean run, a Get that follows a successful Create, with no Delete of the name in between and
  // none pending while it runs, returns the key that was created.
  lemma GetReturnsCreated(c: Config, run: seq<State>, steps: seq<Step>, u: Thread, blob: Bytes, a: nat,
                          t: Thread, i: nat, j: nat, n: Name, key: KeyVersion)
    requires IsRun(c, run, steps) && CleanPath(run, steps) && a < i < j < |run|
    requires steps[a] == CreateStart(u, n, blob, false) && n !in run[a].store
    requires forall k :: a < k < j && DeletesFromStore(run[k], steps[k]) ==> steps[k].name != n
    requires forall k :: i <= k <= j ==> !DropPending(run[k], n)
    requires steps[i] == GetStart(t, n) && InCall(run, t, i, j)
    requires t in run[j].pcs && run[j].pcs[t] == Idle(Got(n, Ok(key)))
    ensures c.parse(blob) == Some(key)
  {
    GetIsFresh(c, run, steps, t, i, j, n, key);
    var m :| i <= m <= j && Current(c, run, steps, m, n, key);
    assert StepAt(c, run, steps, a);
    StoreKeepsValue(c, run, steps, a + 1, m, n);
    CurrentOrPending(c, run, steps, m, n, key);
  }

  lemma DeleteThenCreate(c: Config, s: State, n: Name, t: Thread, u: Thread, blob: Bytes) returns (s1: State, s2: State)
    requires n in s.store && t != u && t in s.pcs && s.pcs[t].Idle? && u in s.pcs && s.pcs[u].Idle?
    requires t in s.bar.phases && u in s.bar.phases
    ensures Enabled(c, s, DeleteStart(t, n, false, false)) && s1 == Apply(c, s, DeleteStart(t, n, false, false))
    ensures Enabled(c, s1, CreateStart(u, n, blob, false)) && s2 == Apply(c, s1, CreateStart(u, n, blob, false))
    ensures n !in s1.store && n in s2.store && s2.store[n] == blob
    ensures s2.ptr == s.ptr && s2.entries == s.entries && s2.bar == s.bar && u in s2.pcs && s2.pcs[u].Idle?
  {
    s1 := Apply(c, s, DeleteStart(t, n, false, false));
    s2 := Apply(c, s1, CreateStart(u, n, blob, false));
  }

  lemma GetHits(c: Config, s: State, n: Name, u: Thread) returns (s1: State, s2: State)
    requires u in s.pcs && s.pcs[u].Idle? && u in s.bar.phases && n in Cached(s) && Cached(s)[n] in s.entries
    ensures Enabled(c, s, GetStart(u, n)) && s1 == Apply(c, s, GetStart(u, n))
    ensures Enabled(c, s1, MarkUsed(u)) && s2 == Apply(c, s1, MarkUsed(u))
    ensures u in s2.pcs && s2.pcs[u] == Idle(Got(n, Ok(s.entries[Cached(s)[n]].key)))
  {
    s1 := Apply(c, s, GetStart(u, n));
    s2 := Apply(c, s1, MarkUsed(u));
  }

  // Without the last condition it need not: a Get may return the key that was deleted before the
  // Create, by steps that all are clean, as long as that Delete has not dropped it from the cache.
  lemma GetReturnsDeleted(c: Config, s: State, n: Name, t: Thread, u: Thread, blob: Bytes)
    returns (run: seq<State>, steps: seq<Step>)
    requires Inv(s) && n in Cached(s) && n in s.store && t != u
    requires t in s.pcs && s.pcs[t].Idle? && u in s.pcs && s.pcs[u].Idle?
    requires forall v :: v in s.pcs ==> !Fetched(s.pcs[v], n)
    ensures IsPath(c, run, steps) && CleanPath(run, steps) && run[0] == s
    ensures steps == [DeleteStart(t, n, false, false), CreateStart(u, n, blob, false), GetStart(u, n), MarkUsed(u)]
    ensures n !in run[1].store && n in run[2].store && run[2].store[n] == blob
    ensures Cached(s)[n] in s.entries && u in run[4].pcs
    ensures run[4].pcs[u] == Idle(Got(n, Ok(s.entries[Cached(s)[n]].key)))
  {
    steps := [DeleteStart(t, n, false, false), CreateStart(u, n, blob, false), GetStart(u, n), MarkUsed(u)];
    var s1, s2 := DeleteThenCreate(c, s, n, t, u, blob);
    var s3, s4 := GetHits(c, s2, n, u);
    run := [s, s1, s2, s3, s4];
    assert StepAt(c, run, steps, 0) && StepAt(c, run, steps, 1) && StepAt(c, run, steps, 2) && StepAt(c, run, steps, 3);
  }

  // ---------- after a Delete ----------

  // Neither the store nor the cache holds n, and nobody is about to cache it.
  predicate Gone(s: State, n: Name) {
    && n !in s.store && n !in Cached(s)
    && forall t :: t in s.pcs ==> !Putting(s.pcs[t], n)
  }

  predicate Putting(pc: PC, n: Name) {
    pc.Writing? && pc.op.PutEntry? && pc.op.name == n && PrePublish(pc.stage)
  }

  lemma GoneWhenDeleted(c: Config, s: State, n: Name)
    requires Inv(s) && CoherenceInv(c, s) && n !in s.store && !DropPending(s, n)
    ensures Gone(s, n)
  {
    forall t | t in s.pcs ensures !Putting(s.pcs[t], n) {
      assert SetterOk(c, s, s.pcs[t]);
    }
  }

  predicate StoresKey(s: State, step: Step, n: Name) {
    step.CreateStart? && step.name == n && !step.down
  }

  lemma NobodyStartsPutting(c: Config, s: State, step: Step, n: Name)
    requires Enabled(c, s, step) && Gone(s, n)
    ensures var s' := Apply(c, s, step); forall t :: t in s'.pcs ==> !Putting(s'.pcs[t], n)
  {
    var s' := Apply(c, s, step);
    assert !Putting(s.pcs[step.t], n);
    forall t | t in s'.pcs ensures !Putting(s'.pcs[t], n) {
      assert !Putting(s.pcs[t], n);
    }
  }

  lemma NobodyCaches(c: Config, s: State, step: Step, n: Name)
    requires Enabled(c, s, step) && Gone(s, n) && ThreadIn(s, step.t)
    ensures n !in Cached(Apply(c, s, step))
  {
    assert !Putting(s.pcs[step.t], n);
  }

  lemma GoneStays(c: Config, s: State, step: Step, n: Name)
    requires Inv(s) && Enabled(c, s, step) && Gone(s, n) && !StoresKey(s, step, n)
    ensures Gone(Apply(c, s, step), n)
  {
    assert ThreadIn(s, step.t);
    NobodyStartsPutting(c, s, step, n);
    NobodyCaches(c, s, step, n);
  }

  lemma RunStepStaysGone(c: Config, run: seq<State>, steps: seq<Step>, j: nat, n: Name)
    requires IsPath(c, run, steps) && Inv(run[0]) && j < |steps| && Gone(run[j], n) && !StoresKey(run[j], steps[j], n)
    ensures Gone(run[j + 1], n)
  {
    PathKeepsInv(c, run, steps, j);
    assert StepAt(c, run, steps, j);
    GoneStays(c, run[j], steps[j], n);
  }

  lemma {:induction false} GoneUntil(c: Config, run: seq<State>, steps: seq<Step>, i: nat, j: nat, n: Name)
    requires IsPath(c, run, steps) && Inv(run[0]) && i <= j < |run| && Gone(run[i], n)
    requires forall k :: i <= k < j ==> !StoresKey(run[k], steps[k], n)
    ensures Gone(run[j], n)
  {
    if i < j {
      GoneUntil(c, run, steps, i, j - 1, n);
      assert !StoresKey(run[j - 1], steps[j - 1], n);
      RunStepStaysGone(c, run, steps, j - 1, n);
    }
  }

  lemma FetchFindsNothing(c: Config, s: State, step: Step, n: Name)
    requires Enabled(c, s, step) && (step.Fetch? || step.GetAgain? || step.GetStart?) && Gone(s, n)
    ensures var s' := Apply(c, s, step); Settled(s', s'.pcs[step.t], n).None?
  {
  }

  lemma NothingToSettle(c: Config, s: State, step: Step, t: Thread, n: Name)
    requires Enabled(c, s, step) && Gone(s, n) && ThreadIn(s, t)
    requires step == GetStart(t, n) || (!s.pcs[t].Idle? && Settled(s, s.pcs[t], n).None?)
    ensures var s' := Apply(c, s, step); t in s'.pcs && Settled(s', s'.pcs[t], n).None?
  {
    if step.t != t {
      OthersKeepSettled(c, s, step, t, n);
    } else if step.GetStart? || step.GetAgain? || step.Fetch? {
      FetchFindsNothing(c, s, step, n);
    } else {
      OwnStepKeepsSettled(c, s, step, n);
    }
  }

  lemma RunStepSettlesNothing(c: Config, run: seq<State>, steps: seq<Step>, t: Thread, i: nat, j: nat, n: Name)
    requires IsPath(c, run, steps) && Inv(run[0]) && i <= j < |steps| && Gone(run[j], n) && t in run[j].pcs
    requires steps[i] == GetStart(t, n) && InCall(run, t, i, j + 1)
    requires j > i ==> Settled(run[j], run[j].pcs[t], n).None?
    ensures t in run[j + 1].pcs && Settled(run[j + 1], run[j + 1].pcs[t], n).None?
  {
    PathKeepsInv(c, run, steps, j);
    assert StepAt(c, run, steps, j) && ThreadIn(run[j], t);
    NothingToSettle(c, run[j], steps[j], t, n);
  }

  lemma {:induction false} NeverSettled(c: Config, run: seq<State>, steps: seq<Step>, t: Thread, i: nat, j: nat,
                                        n: Name)
    requires IsPath(c, run, steps) && Inv(run[0]) && i < j < |run| && Gone(run[i], n)
    requires steps[i] == GetStart(t, n) && InCall(run, t, i, j)
    requires forall k :: i <= k < j ==> !StoresKey(run[k], steps[k], n)
    ensures t in run[j].pcs && Settled(run[j], run[j].pcs[t], n).None?
  {
    GoneUntil(c, run, steps, i, j - 1, n);
    if j == i + 1 { StarterIsThere(c, run, steps, t, i, n); } else { NeverSettled(c, run, steps, t, i, j - 1, n); }
    RunStepSettlesNothing(c, run, steps, t, i, j - 1, n);
  }

  // In a clean run, once the store does not hold n and no Delete of n is under way, a Get of n that
  // starts before the next Create of n never returns a key.
  lemma NoKeyAfterDelete(c: Config, run: seq<State>, steps: seq<Step>, d: nat, t: Thread, i: nat, j: nat, n: Name,
                         key: KeyVersion)
    requires IsRun(c, run, steps) && CleanPath(run, steps) && d <= i < j < |run|
    requires n !in run[d].store && !DropPending(run[d], n)
    requires steps[i] == GetStart(t, n) && InCall(run, t, i, j)
    requires forall k :: d <= k < j ==> !StoresKey(run[k], steps[k], n)
    ensures t in run[j].pcs && run[j].pcs[t] != Idle(Got(n, Ok(key)))
  {
    InitInv(run[0]);
    CleanPathKeepsCoherence(c, run, steps, d);
    GoneWhenDeleted(c, run[d], n);
    GoneUntil(c, run, steps, d, i, n);
    NeverSettled(c, run, steps, t, i, j, n);
  }
}
