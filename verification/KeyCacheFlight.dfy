// Single flight, conservation of cache entries, and progress.
module KeyCacheFlight {
  import opened Wrappers
  import opened KeyTypes
  import opened KeyCache
  import Barrier = BarrierProtocol

  // A Get is past its second miss of n and has not yet left the barrier with an error or a value.
  predicate Flying(pc: PC, n: Name) {
    (pc.GetFetch? && pc.name == n) || (pc.Writing? && pc.op.PutEntry? && pc.op.name == n)
  }

  // At most one goroutine reads a given name from the store, or is about to cache what it read.
  lemma SingleFlight(c: Config, run: seq<State>, steps: seq<Step>, i: nat, t: Thread, u: Thread, n: Name)
    requires IsRun(c, run, steps) && i < |run|
    requires t in run[i].pcs && u in run[i].pcs && Flying(run[i].pcs[t], n) && Flying(run[i].pcs[u], n)
    ensures t == u
  {
    RunKeepsInv(c, run, steps, i);
    assert ThreadOk(run[i], t) && ThreadOk(run[i], u);
    OneInside(run[i], t, u, n);
  }

  // ---------- conservation ----------

  predicate IsSet(s: State, step: Step, n: Name) {
    step.CowStore? && step.t in s.pcs && s.pcs[step.t].Writing? && s.pcs[step.t].op.PutEntry? &&
        s.pcs[step.t].op.name == n
  }

  predicate IsRemoval(s: State, s': State, n: Name) {
    n in Cached(s) && n !in Cached(s')
  }

  // A Set always adds: it never replaces an entry. Nothing else adds a name to the cache.
  lemma SetAddsAndOnlySet(c: Config, s: State, step: Step, n: Name)
    requires Inv(s) && Enabled(c, s, step)
    ensures var s' := Apply(c, s, step);
      if IsSet(s, step, n) then n !in Cached(s) && n in Cached(s')
      else n in Cached(s') ==> n in Cached(s) && Cached(s')[n] == Cached(s)[n]
  {
    assert ThreadOk(s, step.t);
  }

  ghost function Sets(run: seq<State>, steps: seq<Step>, n: Name, k: nat): nat
    requires |run| == |steps| + 1 && k <= |steps|
  {
    if k == 0 then 0 else Sets(run, steps, n, k - 1) + if IsSet(run[k - 1], steps[k - 1], n) then 1 else 0
  }

  ghost function Removals(run: seq<State>, n: Name, k: nat): nat
    requires k < |run|
  {
    if k == 0 then 0 else Removals(run, n, k - 1) + if IsRemoval(run[k - 1], run[k], n) then 1 else 0
  }

  // Sets minus removals, by Delete or by any collector, is the presence of the name in the cache.
  lemma {:induction false} Conservation(c: Config, run: seq<State>, steps: seq<Step>, n: Name, k: nat)
    requires IsRun(c, run, steps) && k <= |steps|
    ensures Sets(run, steps, n, k) - Removals(run, n, k) == if n in Cached(run[k]) then 1 else 0
  {
    if k > 0 {
      Conservation(c, run, steps, n, k - 1);
      RunKeepsInv(c, run, steps, k - 1);
      assert StepAt(c, run, steps, k - 1);
      SetAddsAndOnlySet(c, run[k - 1], steps[k - 1], n);
    }
  }

  // ---------- progress ----------

  lemma UnusedId(ids: set<nat>) returns (x: nat)
    ensures x !in ids && forall i :: i in ids ==> i < x
  {
    if ids == {} {
      x := 0;
    } else {
      var i :| i in ids;
      var y := UnusedId(ids - {i});
      x := if i < y then y else i + 1;
      forall j | j in ids ensures j < x {
        assert j == i || j in ids - {i};
      }
    }
  }

  // The goroutine that t waits for: the owner of the lock of its name, or of the cache mutex.
  function WaitsFor(s: State, t: Thread): Option<Thread>
    requires t in s.pcs && t in s.bar.phases
  {
    var phase := s.bar.phases[t];
    if s.pcs[t].GetEnter? && phase.Waiting? then Barrier.Obj(s.bar, phase.lock).owner
    else if s.pcs[t].Writing? && s.pcs[t].stage.Want? then s.mu
    else None
  }

  // A goroutine that waits for nobody and is in the middle of a call can step.
  lemma CanStep(c: Config, s: State, t: Thread) returns (step: Step)
    requires Inv(s) && t in s.pcs && t in s.bar.phases && !s.pcs[t].Idle? && WaitsFor(s, t).None?
    ensures step.t == t && Enabled(c, s, step)
  {
    assert ThreadOk(s, t);
    match s.pcs[t]
    case GetHit(_, _, _) => step := MarkUsed(t);
    case GetEnter(n) =>
      if s.bar.phases[t].Out? {
        var id := UnusedId(s.bar.locks.Keys);
        step := BarrierStep(t, Barrier.Add(t, n, id));
      } else if s.bar.phases[t].Waiting? {
        step := BarrierStep(t, Barrier.Acquire(t));
      } else {
        step := GetAgain(t);
      }
    case GetFetch(_) =>
      var id := UnusedId(s.entries.Keys);
      step := Fetch(t, id, false);
    case GetLeave(_, _) =>
      step := if s.bar.phases[t].Out? then GetReturn(t)
              else if s.bar.phases[t].Inside? then BarrierStep(t, Barrier.Remove(t))
              else BarrierStep(t, Barrier.Unlock(t));
    case Writing(_, stage) =>
      match stage {
        case Want => step := CowLock(t);
        case Holding => step := CowLoad(t);
        case Ready(_) => step := CowStore(t);
        case Sweeping(todo, _) =>
          if todo == {} {
            step := CowStore(t);
          } else {
            var n :| n in todo;
            assert n in Cached(s);
            step := CowCas(t, n);
          }
        case Finishing => step := CowUnlock(t);
      }
  }

  // The owner of the cache mutex waits for nobody.
  lemma MutexOwnerRuns(s: State, t: Thread)
    requires Inv(s) && t in s.pcs && t in s.bar.phases && s.mu == Some(t)
    ensures !s.pcs[t].Idle? && WaitsFor(s, t).None?
  {
    assert ThreadOk(s, t);
  }

  // The owner of a name's lock is in the middle of a Get and at most waits for the cache mutex.
  lemma LockOwnerRuns(s: State, t: Thread, u: Thread)
    requires Inv(s) && t in s.pcs && t in s.bar.phases && s.pcs[t].GetEnter? && WaitsFor(s, t) == Some(u)
    ensures u in s.pcs && u in s.bar.phases && !s.pcs[u].Idle?
    ensures WaitsFor(s, u).None? || WaitsFor(s, u) == s.mu
  {
    assert ThreadOk(s, t);
    var l := s.bar.phases[t].lock;
    assert l in s.bar.locks && s.bar.locks[l].owner == Some(u);
    assert Barrier.Holds(s.bar.phases[u], l);
    assert ThreadOk(s, u);
  }

  // Nobody is stuck: follow at most two waits from any goroutine in the middle of a call, and there
  // is one that can step.
  lemma NobodyIsStuck(c: Config, run: seq<State>, steps: seq<Step>, i: nat, t: Thread) returns (step: Step)
    requires IsRun(c, run, steps) && i < |run| && t in run[i].pcs && !run[i].pcs[t].Idle?
    ensures Enabled(c, run[i], step) && t in run[i].bar.phases
    ensures var s := run[i];
      || step.t == t
      || WaitsFor(s, t) == Some(step.t)
      || (exists u :: u in s.pcs && u in s.bar.phases && WaitsFor(s, t) == Some(u) && WaitsFor(s, u) == Some(step.t))
  {
    RunKeepsInv(c, run, steps, i);
    var s := run[i];
    assert ThreadOk(s, t);
    match WaitsFor(s, t)
    case None => step := CanStep(c, s, t);
    case Some(u) =>
      if s.pcs[t].GetEnter? {
        LockOwnerRuns(s, t, u);
        if WaitsFor(s, u).Some? {
          var v := WaitsFor(s, u).value;
          MutexOwnerRuns(s, v);
          step := CanStep(c, s, v);
        } else {
          step := CanStep(c, s, u);
        }
      } else {
        MutexOwnerRuns(s, u);
        step := CanStep(c, s, u);
      }
  }
}
