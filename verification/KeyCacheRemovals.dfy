// Which key a Delete under way has removed from the store, and that a cached key which the store no
// longer holds is such a key.
module KeyCacheRemovals {
  import opened Wrappers
  import opened KeyTypes
  import opened KeyCache
  import opened KeyCacheCoherence

  // For each goroutine, the key that its last Delete removed from the store, if it removed one.
  type History = map<Thread, Option<KeyVersion>>

  function HistoryNext(c: Config, s: State, h: History, step: Step): History {
    if !step.DeleteStart? then h
    else h[step.t := if DeletesFromStore(s, step) then c.parse(s.store[step.name]) else None]
  }

  ghost function HistoryAfter(c: Config, run: seq<State>, steps: seq<Step>, i: nat): History
    requires i <= |steps| <= |run|
  {
    if i == 0 then map[] else HistoryNext(c, run[i - 1], HistoryAfter(c, run, steps, i - 1), steps[i - 1])
  }

  predicate Stores(c: Config, s: State, n: Name, key: KeyVersion) {
    n in s.store && c.parse(s.store[n]) == Some(key)
  }

  predicate Removes(s: State, h: History, t: Thread, n: Name, key: KeyVersion) {
    t in s.pcs && Dropping(s.pcs[t], n) && t in h && h[t] == Some(key)
  }

  // A Delete that removed this very key is between its store and cache steps.
  predicate Removing(s: State, h: History, n: Name, key: KeyVersion) {
    exists t :: t in s.pcs && Removes(s, h, t, n, key)
  }

  predicate Accounted(c: Config, s: State, h: History, n: Name, key: KeyVersion) {
    Stores(c, s, n, key) || Removing(s, h, n, key)
  }

  predicate CachedAccounted(c: Config, s: State, h: History) {
    forall n :: n in Cached(s) && Cached(s)[n] in s.entries ==> Accounted(c, s, h, n, s.entries[Cached(s)[n]].key)
  }

  predicate SetterAccounted(c: Config, s: State, h: History, pc: PC) {
    pc.Writing? && pc.op.PutEntry? && PrePublish(pc.stage) && pc.op.e in s.entries ==>
      var key := s.entries[pc.op.e].key;
      Stores(c, s, pc.op.name, key) || (!pc.stage.Want? && Removing(s, h, pc.op.name, key))
  }

  predicate RemovalInv(c: Config, s: State, h: History) {
    CachedAccounted(c, s, h) && forall t :: t in s.pcs ==> SetterAccounted(c, s, h, s.pcs[t])
  }

  lemma KeysStay(c: Config, s: State, step: Step, e: EntryId)
    requires Enabled(c, s, step) && e in s.entries
    ensures e in Apply(c, s, step).entries && Apply(c, s, step).entries[e].key == s.entries[e].key
  {
  }

  lemma StoresStays(c: Config, s: State, step: Step, n: Name, key: KeyVersion)
    requires Enabled(c, s, step) && Stores(c, s, n, key) && (DeletesFromStore(s, step) ==> step.name != n)
    ensures Stores(c, Apply(c, s, step), n, key)
  {
  }

  lemma DeleteRemoves(c: Config, s: State, h: History, step: Step, key: KeyVersion)
    requires Enabled(c, s, step) && DeletesFromStore(s, step) && Stores(c, s, step.name, key)
    ensures Removing(Apply(c, s, step), HistoryNext(c, s, h, step), step.name, key)
  {
    assert Removes(Apply(c, s, step), HistoryNext(c, s, h, step), step.t, step.name, key);
  }

  lemma RemovingStays(c: Config, s: State, h: History, step: Step, n: Name, key: KeyVersion)
    requires Enabled(c, s, step) && Removing(s, h, n, key)
    requires Dropping(s.pcs[step.t], n) ==> !step.CowStore? && (step.CowLoad? ==> n in Cached(s))
    ensures Removing(Apply(c, s, step), HistoryNext(c, s, h, step), n, key)
  {
    var t :| t in s.pcs && Removes(s, h, t, n, key);
    assert Removes(Apply(c, s, step), HistoryNext(c, s, h, step), t, n, key);
  }

  // A key that was accounted for still is, unless this step takes it out of the cache.
  lemma AccountedStays(c: Config, s: State, h: History, step: Step, n: Name, key: KeyVersion)
    requires Enabled(c, s, step) && Accounted(c, s, h, n, key)
    requires Dropping(s.pcs[step.t], n) ==> !step.CowStore? && (step.CowLoad? ==> n in Cached(s))
    ensures Accounted(c, Apply(c, s, step), HistoryNext(c, s, h, step), n, key)
  {
    if Removing(s, h, n, key) {
      RemovingStays(c, s, h, step, n, key);
    } else if DeletesFromStore(s, step) && step.name == n {
      DeleteRemoves(c, s, h, step, key);
    } else {
      StoresStays(c, s, step, n, key);
    }
  }

  lemma CachedStaysAccounted(c: Config, s: State, h: History, step: Step, n: Name)
    requires Inv(s) && RemovalInv(c, s, h) && Enabled(c, s, step) && n in Cached(Apply(c, s, step))
    ensures var s', h' := Apply(c, s, step), HistoryNext(c, s, h, step); var e := Cached(s')[n];
      e in s'.entries && Accounted(c, s', h', n, s'.entries[e].key)
  {
    var s' := Apply(c, s, step);
    var e, pc := Cached(s')[n], s.pcs[step.t];
    assert ThreadOk(s, step.t);
    if step.CowStore? && pc.op.PutEntry? && pc.op.name == n {
      assert SetterAccounted(c, s, h, pc);
    } else {
      assert n in Cached(s) && Cached(s)[n] == e;
    }
    KeysStay(c, s, step, e);
    AccountedStays(c, s, h, step, n, s.entries[e].key);
  }

  lemma SetterStaysAccounted(c: Config, s: State, h: History, step: Step, u: Thread)
    requires Inv(s) && RemovalInv(c, s, h) && Enabled(c, s, step) && Clean(s, step) && u in s.pcs
    ensures var s', h' := Apply(c, s, step), HistoryNext(c, s, h, step); SetterAccounted(c, s', h', s'.pcs[u])
  {
    var s' := Apply(c, s, step);
    var pc, pc' := s.pcs[u], s'.pcs[u];
    assert ThreadOk(s, u) && ThreadOk(s, step.t);
    if pc'.Writing? && pc'.op.PutEntry? && PrePublish(pc'.stage) && !(step.Fetch? && u == step.t) {
      assert SetterAccounted(c, s, h, pc);
      KeysStay(c, s, step, pc.op.e);
      if pc'.stage.Want? {
        assert Fetched(pc, pc.op.name);
        StoresStays(c, s, step, pc.op.name, s.entries[pc.op.e].key);
      } else {
        assert step.t != u ==> s.mu == Some(u);
        AccountedStays(c, s, h, step, pc.op.name, s.entries[pc.op.e].key);
      }
    }
  }

  lemma CleanStepKeepsRemovals(c: Config, s: State, h: History, step: Step)
    requires Inv(s) && RemovalInv(c, s, h) && Enabled(c, s, step) && Clean(s, step)
    ensures RemovalInv(c, Apply(c, s, step), HistoryNext(c, s, h, step))
  {
    var s', h' := Apply(c, s, step), HistoryNext(c, s, h, step);
    forall n | n in Cached(s') && Cached(s')[n] in s'.entries
      ensures Accounted(c, s', h', n, s'.entries[Cached(s')[n]].key)
    {
      CachedStaysAccounted(c, s, h, step, n);
    }
    forall u | u in s'.pcs ensures SetterAccounted(c, s', h', s'.pcs[u]) {
      SetterStaysAccounted(c, s, h, step, u);
    }
  }

  lemma CleanRunStep(c: Config, run: seq<State>, steps: seq<Step>, i: nat)
    requires IsRun(c, run, steps) && CleanPath(run, steps) && i < |steps|
    requires RemovalInv(c, run[i], HistoryAfter(c, run, steps, i))
    ensures RemovalInv(c, run[i + 1], HistoryAfter(c, run, steps, i + 1))
  {
    RunKeepsInv(c, run, steps, i);
    assert StepAt(c, run, steps, i) && Clean(run[i], steps[i]);
    CleanStepKeepsRemovals(c, run[i], HistoryAfter(c, run, steps, i), steps[i]);
  }

  // In every clean run, each cached key is what the store holds, or a Delete that removed this very
  // key from the store has not dropped it from the cache yet.
  lemma {:induction false} CleanRunAccounts(c: Config, run: seq<State>, steps: seq<Step>, i: nat)
    requires IsRun(c, run, steps) && CleanPath(run, steps) && i < |run|
    ensures RemovalInv(c, run[i], HistoryAfter(c, run, steps, i))
  {
    if i > 0 {
      CleanRunAccounts(c, run, steps, i - 1);
      CleanRunStep(c, run, steps, i - 1);
    }
  }

  // ---------- what the history stands for ----------

  // Step d removed key from the store, and its goroutine has not dropped it from the cache since.
  ghost predicate RemovedAt(c: Config, run: seq<State>, steps: seq<Step>, d: nat, m: nat, n: Name, key: KeyVersion)
    requires |run| == |steps| + 1 && m < |run|
  {
    && d < m && DeletesFromStore(run[d], steps[d]) && steps[d].name == n && Stores(c, run[d], n, key)
    && forall q :: d < q <= m ==> steps[d].t in run[q].pcs && Dropping(run[q].pcs[steps[d].t], n)
  }

  lemma {:induction false} HistoryMeans(c: Config, run: seq<State>, steps: seq<Step>, m: nat, t: Thread, n: Name,
                                        key: KeyVersion)
    returns (d: nat)
    requires IsRun(c, run, steps) && m < |run| && Removes(run[m], HistoryAfter(c, run, steps, m), t, n, key)
    ensures RemovedAt(c, run, steps, d, m, n, key) && steps[d].t == t
  {
    assert m > 0 && StepAt(c, run, steps, m - 1);
    if t in run[m - 1].pcs && Dropping(run[m - 1].pcs[t], n) {
      d := HistoryMeans(c, run, steps, m - 1, t, n, key);
    } else {
      d := m - 1;
    }
  }
}
