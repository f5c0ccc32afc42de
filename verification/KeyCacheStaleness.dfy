// The converse of KeyCacheCoherence: a store delete that lands between another goroutine's read of
// the name and its cache Set can always end in a stale entry. And what holds without any condition.
module KeyCacheStaleness {
  import opened Wrappers
  import opened KeyTypes
  import opened KeyCache
  import opened KeyCacheCoherence
  import Barrier = BarrierProtocol

  // s' follows s by clean steps.
  ghost predicate Reaches(c: Config, s: State, s': State) {
    exists run: seq<State>, steps: seq<Step> ::
      IsPath(c, run, steps) && CleanPath(run, steps) && run[0] == s && run[|steps|] == s'
  }

  lemma ReachesSelf(c: Config, s: State)
    ensures Reaches(c, s, s)
  {
    var run, steps: seq<Step> := [s], [];
    assert IsPath(c, run, steps) && CleanPath(run, steps);
  }

  lemma ReachesAfter(c: Config, s: State, step: Step, s': State)
    requires Enabled(c, s, step) && Clean(s, step) && Reaches(c, Apply(c, s, step), s')
    ensures Reaches(c, s, s')
  {
    var run: seq<State>, steps: seq<Step> :|
      IsPath(c, run, steps) && CleanPath(run, steps) && run[0] == Apply(c, s, step) && run[|steps|] == s';
    var run', steps' := [s] + run, [step] + steps;
    forall i | 0 <= i < |steps'|
      ensures StepAt(c, run', steps', i) && Clean(run'[i], steps'[i])
    {
      if i > 0 {
        assert StepAt(c, run, steps, i - 1);
        assert run'[i] == run[i - 1] && steps'[i] == steps[i - 1] && run'[i + 1] == run[i];
      }
    }
    assert IsPath(c, run', steps') && CleanPath(run', steps');
  }

  lemma {:induction false} ReachesTransitive(c: Config, s: State, mid: State, s': State)
    requires Reaches(c, s, mid) && Reaches(c, mid, s')
    ensures Reaches(c, s, s')
  {
    var run: seq<State>, steps: seq<Step> :|
      IsPath(c, run, steps) && CleanPath(run, steps) && run[0] == s && run[|steps|] == mid;
    Prefixed(c, run, steps, s', |steps|);
  }

  lemma {:induction false} Prefixed(c: Config, run: seq<State>, steps: seq<Step>, s': State, n: nat)
    requires IsPath(c, run, steps) && CleanPath(run, steps) && Reaches(c, run[|steps|], s') && n <= |steps|
    ensures Reaches(c, run[|steps| - n], s')
  {
    if n > 0 {
      Prefixed(c, run, steps, s', n - 1);
      assert StepAt(c, run, steps, |steps| - n);
      ReachesAfter(c, run[|steps| - n], steps[|steps| - n], s');
    }
  }

  // What steps of one writer leave alone.
  ghost predicate OnlyMoved(s: State, s': State, t: Thread) {
    && s'.store == s.store && s'.pcs.Keys == s.pcs.Keys
    && (forall u :: u in s.pcs && u != t ==> s'.pcs[u] == s.pcs[u])
    && (forall e :: e in s.entries ==> e in s'.entries && s'.entries[e].key == s.entries[e].key)
  }

  lemma OnlyMovedTransitive(s: State, mid: State, s': State, t: Thread)
    requires OnlyMoved(s, mid, t) && OnlyMoved(mid, s', t)
    ensures OnlyMoved(s, s', t)
  {
  }

  function Rank(stage: Stage): nat {
    match stage
    case Want => 5
    case Holding => 4
    case Sweeping(_, _) => 3
    case Ready(_) => 2
    case Finishing => 1
  }

  // The next step of a writer that can step.
  lemma WriterStep(c: Config, s: State, t: Thread) returns (step: Step)
    requires Inv(s) && t in s.pcs && s.pcs[t].Writing? && (s.pcs[t].stage.Want? ==> s.mu.None?)
    ensures Enabled(c, s, step) && step.t == t && (step.CowUnlock? <==> s.pcs[t].stage.Finishing?)
    ensures step.CowLock? || step.CowLoad? || step.CowStore? || step.CowCas? || step.CowUnlock?
  {
    assert ThreadOk(s, t);
    match s.pcs[t].stage
    case Want => step := CowLock(t);
    case Holding => step := CowLoad(t);
    case Ready(_) => step := CowStore(t);
    case Sweeping(todo, _) =>
      if todo == {} {
        step := CowStore(t);
      } else {
        var n :| n in todo;
        assert n in Cached(s);
        step := CowCas(t, n);
      }
    case Finishing => step := CowUnlock(t);
  }

  lemma WriterProgress(c: Config, s: State, step: Step)
    requires Enabled(c, s, step) && ThreadOk(s, step.t)
    requires step.CowLock? || step.CowLoad? || step.CowStore? || step.CowCas?
    ensures var pc, pc' := s.pcs[step.t], Apply(c, s, step).pcs[step.t];
      && pc'.Writing? && pc'.op == pc.op && !pc'.stage.Want?
      && (Rank(pc'.stage) < Rank(pc.stage) ||
          (pc'.stage.Sweeping? && pc.stage.Sweeping? && pc'.stage.todo < pc.stage.todo))
  {
    if step.CowCas? { assert step.name in s.pcs[step.t].stage.todo; }
  }

  lemma WriterFrame(c: Config, s: State, step: Step)
    requires Enabled(c, s, step)
    requires step.CowLock? || step.CowLoad? || step.CowStore? || step.CowCas? || step.CowUnlock?
    ensures var s' := Apply(c, s, step);
      && OnlyMoved(s, s', step.t) && Clean(s, step)
      && (step.CowUnlock? ==> s'.mu.None? && !s'.pcs[step.t].Writing?)
  {
  }

  // A writer that has, or can take, the cache mutex can run to its unlock.
  lemma {:induction false} FinishWriter(c: Config, s: State, t: Thread) returns (s': State)
    requires Inv(s) && t in s.pcs && s.pcs[t].Writing? && (s.pcs[t].stage.Want? ==> s.mu.None?)
    ensures Reaches(c, s, s') && Inv(s') && OnlyMoved(s, s', t) && s'.mu.None?
    ensures t in s'.pcs && !s'.pcs[t].Writing?
    decreases Rank(s.pcs[t].stage), if s.pcs[t].stage.Sweeping? then s.pcs[t].stage.todo else {}
  {
    var step := WriterStep(c, s, t);
    var s1 := Apply(c, s, step);
    assert ThreadOk(s, t);
    StepKeepsInv(c, s, step);
    WriterFrame(c, s, step);
    if step.CowUnlock? {
      s' := s1;
      ReachesSelf(c, s');
    } else {
      WriterProgress(c, s, step);
      s' := FinishWriter(c, s1, t);
      OnlyMovedTransitive(s, s1, s', t);
    }
    ReachesAfter(c, s, step, s');
  }

  lemma FreeMutex(c: Config, s: State, n: Name) returns (s': State)
    requires Inv(s)
    ensures Reaches(c, s, s') && Inv(s') && s'.mu.None? && s'.store == s.store && s'.pcs.Keys == s.pcs.Keys
    ensures forall u :: u in s.pcs && s.mu != Some(u) ==> s'.pcs[u] == s.pcs[u]
    ensures forall e :: e in s.entries ==> e in s'.entries && s'.entries[e].key == s.entries[e].key
    ensures Droppers(s', n) <= Droppers(s, n)
  {
    if s.mu.None? {
      s' := s;
      ReachesSelf(c, s);
    } else {
      assert ThreadOk(s, s.mu.value);
      s' := FinishWriter(c, s, s.mu.value);
    }
  }

  function Droppers(s: State, n: Name): set<Thread> {
    set t | t in s.pcs && Dropping(s.pcs[t], n)
  }

  lemma FinishDropper(c: Config, s: State, n: Name, d: Thread) returns (s': State)
    requires Inv(s) && s.mu.None? && d in Droppers(s, n)
    ensures Reaches(c, s, s') && Inv(s') && s'.mu.None? && s'.store == s.store && s'.pcs.Keys == s.pcs.Keys
    ensures forall u :: u in s.pcs && u != d ==> s'.pcs[u] == s.pcs[u]
    ensures Droppers(s', n) < Droppers(s, n)
  {
    s' := FinishWriter(c, s, d);
    assert d !in Droppers(s', n);
  }

  // All pending deletes of n can finish while goroutine f waits.
  lemma {:induction false} FinishDroppers(c: Config, s: State, n: Name, f: Thread) returns (s': State)
    requires Inv(s) && s.mu.None? && f in s.pcs && Fetched(s.pcs[f], n)
    ensures Reaches(c, s, s') && Inv(s') && s'.mu.None? && s'.store == s.store && Droppers(s', n) == {}
    ensures f in s'.pcs && s'.pcs[f] == s.pcs[f]
    decreases Droppers(s, n)
  {
    if Droppers(s, n) == {} {
      s' := s;
      ReachesSelf(c, s);
    } else {
      var d :| d in Droppers(s, n);
      var s1 := FinishDropper(c, s, n, d);
      s' := FinishDroppers(c, s1, n, f);
      ReachesTransitive(c, s, s1, s');
    }
  }

  // The waiting Set now locks, loads and stores.
  lemma PublishFetched(c: Config, s: State, n: Name, f: Thread) returns (s': State)
    requires s.mu.None? && f in s.pcs && f in s.bar.phases && Fetched(s.pcs[f], n) && Droppers(s, n) == {}
    ensures Reaches(c, s, s') && s'.store == s.store && n in Cached(s') && !DropPending(s', n)
  {
    var s1 := Apply(c, s, CowLock(f));
    var s2 := Apply(c, s1, CowLoad(f));
    s' := Apply(c, s2, CowStore(f));
    ReachesSelf(c, s');
    ReachesAfter(c, s2, CowStore(f), s');
    ReachesAfter(c, s1, CowLoad(f), s');
    ReachesAfter(c, s, CowLock(f), s');
    forall t | t in s'.pcs ensures !Dropping(s'.pcs[t], n) {
      assert t !in Droppers(s, n);
    }
  }

  // After such a delete, a state can be reached in which the fetched value is cached, the name is gone
  // from the store, and nobody is about to drop it from the cache.
  lemma UncleanDeleteGoesStale(c: Config, s: State, step: Step, f: Thread) returns (s': State)
    requires Inv(s) && Enabled(c, s, step) && DeletesFromStore(s, step)
    requires f in s.pcs && Fetched(s.pcs[f], step.name)
    ensures Reaches(c, Apply(c, s, step), s')
    ensures step.name in Cached(s') && step.name !in s'.store && !DropPending(s', step.name)
  {
    var n := step.name;
    StepKeepsInv(c, s, step);
    var s1 := Apply(c, s, step);
    assert ThreadOk(s1, f);
    var s2 := FreeMutex(c, s1, n);
    var s3 := FinishDroppers(c, s2, n, f);
    s' := PublishFetched(c, s3, n, f);
    ReachesTransitive(c, s1, s2, s3);
    ReachesTransitive(c, s1, s3, s');
  }

  // The exact condition. From any state that is reached cleanly, a step keeps every clean
  // continuation coherent if and only if no goroutine waits to cache the name the step deletes.
  lemma CoherentExactlyWhenClean(c: Config, s: State, step: Step)
    requires Inv(s) && CoherenceInv(c, s) && Enabled(c, s, step)
    ensures Clean(s, step) <==> forall s' :: Reaches(c, Apply(c, s, step), s') ==> Coherent(c, s')
  {
    StepKeepsInv(c, s, step);
    var s1 := Apply(c, s, step);
    if Clean(s, step) {
      CleanStepKeepsCoherence(c, s, step);
      forall s' | Reaches(c, s1, s') ensures Coherent(c, s') {
        var run: seq<State>, steps: seq<Step> :|
          IsPath(c, run, steps) && CleanPath(run, steps) && run[0] == s1 && run[|steps|] == s';
        CleanPathKeepsCoherence(c, run, steps, |steps|);
      }
    } else {
      var f :| f in s.pcs && Fetched(s.pcs[f], step.name);
      var s' := UncleanDeleteGoesStale(c, s, step, f);
      assert !Coherent(c, s');
    }
  }

  // A fresh cache over a store that holds n, used by goroutines 0 and 1.
  function FreshCache(n: Name, blob: Bytes): State {
    State(map[n := blob], Barrier.State(map[], map[], map[0 := Barrier.Out, 1 := Barrier.Out]), None, None, map[],
          false,
          map[0 := Idle(Nothing), 1 := Idle(Nothing)])
  }

  // The same after goroutine 0 has missed and passed the barrier.
  function EnteredCache(n: Name, blob: Bytes): State {
    FreshCache(n, blob).(
      bar := Barrier.State(map[n := 0], map[0 := Barrier.LockObj(Some(0), 1)],
                           map[0 := Barrier.Inside(n, 0), 1 := Barrier.Out]),
      pcs := map[0 := GetEnter(n), 1 := Idle(Nothing)])
  }

  function WaitingCache(n: Name, blob: Bytes): State {
    FreshCache(n, blob).(
      bar := Barrier.State(map[n := 0], map[0 := Barrier.LockObj(None, 1)],
                           map[0 := Barrier.Waiting(n, 0), 1 := Barrier.Out]),
      pcs := map[0 := GetEnter(n), 1 := Idle(Nothing)])
  }

  lemma WaitRun(c: Config, n: Name, blob: Bytes)
    ensures Reaches(c, FreshCache(n, blob), WaitingCache(n, blob))
  {
    var s0, s2 := FreshCache(n, blob), WaitingCache(n, blob);
    var add := BarrierStep(0, Barrier.Add(0, n, 0));
    var s1 := Apply(c, s0, GetStart(0, n));
    assert s1 == s0.(pcs := map[0 := GetEnter(n), 1 := Idle(Nothing)]);
    assert Apply(c, s1, add) == s2;
    ReachesSelf(c, s2);
    ReachesAfter(c, s1, add, s2);
    ReachesAfter(c, s0, GetStart(0, n), s2);
  }

  lemma EnterRun(c: Config, n: Name, blob: Bytes)
    ensures Reaches(c, FreshCache(n, blob), EnteredCache(n, blob))
  {
    var s, s' := WaitingCache(n, blob), EnteredCache(n, blob);
    var acquire := BarrierStep(0, Barrier.Acquire(0));
    assert Apply(c, s, acquire).bar == s'.bar;
    assert Apply(c, s, acquire).pcs == s'.pcs;
    ReachesSelf(c, s');
    ReachesAfter(c, s, acquire, s');
    WaitRun(c, n, blob);
    ReachesTransitive(c, FreshCache(n, blob), s, s');
  }

  // Goroutine 0 misses again and reads the store.
  lemma FetchRun(c: Config, n: Name, blob: Bytes) returns (s: State)
    requires c.parse(blob).Some?
    ensures Reaches(c, EnteredCache(n, blob), s)
    ensures 0 in s.pcs && Fetched(s.pcs[0], n) && Enabled(c, s, DeleteStart(1, n, false, false)) && n in s.store
  {
    var s0 := EnteredCache(n, blob);
    var s1 := s0.(pcs := map[0 := GetFetch(n), 1 := Idle(Nothing)]);
    assert Apply(c, s0, GetAgain(0)) == s1;
    s := Apply(c, s1, Fetch(0, 0, false));
    ReachesSelf(c, s);
    ReachesAfter(c, s1, Fetch(0, 0, false), s);
    ReachesAfter(c, s0, GetAgain(0), s);
  }

  // Such a delete can happen: from a fresh cache over a store that holds the name to a stale entry.
  lemma StaleRunExists(c: Config, n: Name, blob: Bytes) returns (mid: State, s': State)
    requires c.parse(blob).Some?
    ensures Init(FreshCache(n, blob)) && Reaches(c, FreshCache(n, blob), mid)
    ensures Enabled(c, mid, DeleteStart(1, n, false, false)) &&
        Reaches(c, Apply(c, mid, DeleteStart(1, n, false, false)), s')
    ensures n in Cached(s') && n !in s'.store && !DropPending(s', n)
  {
    assert FreshCache(n, blob).bar.phases.Keys == {0, 1};
    InitInv(FreshCache(n, blob));
    EnterRun(c, n, blob);
    mid := FetchRun(c, n, blob);
    ReachesTransitive(c, FreshCache(n, blob), EnteredCache(n, blob), mid);
    ReachedInv(c, FreshCache(n, blob), mid);
    s' := UncleanDeleteGoesStale(c, mid, DeleteStart(1, n, false, false), 0);
  }

  lemma ReachedInv(c: Config, s: State, s': State)
    requires Inv(s) && Reaches(c, s, s')
    ensures Inv(s')
  {
    var run: seq<State>, steps: seq<Step> :|
      IsPath(c, run, steps) && CleanPath(run, steps) && run[0] == s && run[|steps|] == s';
    PathKeepsInv(c, run, steps, |steps|);
  }

  // ---------- without any condition ----------

  // The store held a value under n, at some state up to the i-th, that decodes to key.
  ghost predicate WasStored(c: Config, run: seq<State>, i: nat, n: Name, key: KeyVersion)
    requires i < |run|
  {
    exists j {:trigger run[j]} :: 0 <= j <= i && n in run[j].store && c.parse(run[j].store[n]) == Some(key)
  }

  ghost predicate AllWereStored(c: Config, run: seq<State>, i: nat)
    requires i < |run|
  {
    && (forall e :: e in run[i].entries ==> WasStored(c, run, i, run[i].entries[e].name, run[i].entries[e].key))
    && (forall t, n, key :: t in run[i].pcs && run[i].pcs[t] == GetLeave(n, Ok(key)) ==> WasStored(c, run, i, n, key))
    && (forall t, n, key :: t in run[i].pcs && run[i].pcs[t] == Idle(Got(n, Ok(key))) ==> WasStored(c, run, i, n, key))
  }

  lemma StillWasStored(c: Config, run: seq<State>, i: nat, n: Name, key: KeyVersion)
    requires i + 1 < |run| && WasStored(c, run, i, n, key)
    ensures WasStored(c, run, i + 1, n, key)
  {
    var j :| 0 <= j <= i && n in run[j].store && c.parse(run[j].store[n]) == Some(key);
    assert 0 <= j <= i + 1 && n in run[j].store;
  }

  lemma EntryWasStored(c: Config, run: seq<State>, steps: seq<Step>, i: nat, e: EntryId)
    requires IsPath(c, run, steps) && i + 1 < |run| && e in run[i + 1].entries
    requires forall e :: e in run[i].entries ==> WasStored(c, run, i, run[i].entries[e].name, run[i].entries[e].key)
    ensures WasStored(c, run, i + 1, run[i + 1].entries[e].name, run[i + 1].entries[e].key)
  {
    var s, s' := run[i], run[i + 1];
    assert StepAt(c, run, steps, i);
    if e in s.entries {
      StillWasStored(c, run, i, s.entries[e].name, s.entries[e].key);
    } else {
      assert s'.entries[e].name in run[i].store;
    }
  }

  // Where the result of a finished Get comes from.
  lemma ResultFromEntry(c: Config, s: State, step: Step, n: Name, key: KeyVersion)
    requires Enabled(c, s, step) && ThreadOk(s, step.t)
    requires var pc' := Apply(c, s, step).pcs[step.t]; pc' == GetLeave(n, Ok(key)) || pc' == Idle(Got(n, Ok(key)))
    ensures s.pcs[step.t] == GetLeave(n, Ok(key)) ||
            exists e :: e in s.entries && s.entries[e].name == n && s.entries[e].key == key
  {
    if !s.pcs[step.t].GetLeave? {
      var e := if step.MarkUsed? then s.pcs[step.t].e else s.pcs[step.t].op.e;
      assert e in s.entries;
    }
  }

  lemma ResultWasStored(c: Config, run: seq<State>, steps: seq<Step>, i: nat, t: Thread, n: Name, key: KeyVersion)
    requires IsPath(c, run, steps) && i + 1 < |run| && AllWereStored(c, run, i) && CacheInv(run[i])
    requires t in run[i + 1].pcs
    requires run[i + 1].pcs[t] == GetLeave(n, Ok(key)) || run[i + 1].pcs[t] == Idle(Got(n, Ok(key)))
    ensures WasStored(c, run, i + 1, n, key)
  {
    var s, step := run[i], steps[i];
    assert StepAt(c, run, steps, i);
    assert ThreadOk(s, step.t);
    if t == step.t { ResultFromEntry(c, s, step, n, key); }
    assert WasStored(c, run, i, n, key);
    StillWasStored(c, run, i, n, key);
  }

  // Every key that a Get returns was held by the store, under that name, at this or an earlier step.
  lemma {:induction false} ReturnedWasStored(c: Config, run: seq<State>, steps: seq<Step>, i: nat)
    requires IsRun(c, run, steps) && i < |run|
    ensures AllWereStored(c, run, i)
  {
    if i > 0 {
      ReturnedWasStored(c, run, steps, i - 1);
      RunKeepsInv(c, run, steps, i - 1);
      forall e | e in run[i].entries ensures WasStored(c, run, i, run[i].entries[e].name, run[i].entries[e].key) {
        EntryWasStored(c, run, steps, i - 1, e);
      }
      forall t, n, key | t in run[i].pcs &&
          (run[i].pcs[t] == GetLeave(n, Ok(key)) || run[i].pcs[t] == Idle(Got(n, Ok(key))))
        ensures WasStored(c, run, i, n, key)
      {
        ResultWasStored(c, run, steps, i - 1, t, n, key);
      }
    }
  }
}
