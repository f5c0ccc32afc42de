// The per-key lock of internal/cache/barrier.go, run by any number of goroutines.
//
// A step is one atomic action: a section under Barrier.mu (add or remove), or the acquisition or
// release of the mutex inside one barrier object. Goroutines are well behaved: each calls Lock and
// Unlock of a key in turn. Lock objects are named by identity, so that two objects for one key are
// distinguishable.
module BarrierProtocol {
  import opened Wrappers

  type Thread = nat
  type LockId = nat

  // The counter N of a barrier object is a 64-bit uint.
  const UINT_RANGE: nat := 0x1_0000_0000_0000_0000

  datatype LockObj = LockObj(owner: Option<Thread>, users: nat)

  datatype Phase<+K> =
    | Out
    | Waiting(key: K, lock: LockId)   // after add, before the mutex is acquired
    | Inside(key: K, lock: LockId)    // Lock(key) has returned
    | Unlocking(lock: LockId)         // remove has returned this object, its mutex is still held
    | Panicked

  datatype State<K> = State(
    keys: map<K, LockId>,
    locks: map<LockId, LockObj>,
    phases: map<Thread, Phase<K>>
  )

  datatype Step<+K> =
    | Add(t: Thread, key: K, newId: LockId)
    | Acquire(t: Thread)
    | Remove(t: Thread)
    | Unlock(t: Thread)

  // ---------- the sections under mu, on counters (shared with the Barrier class) ----------

  function Incremented(n: nat): nat { (n + 1) % UINT_RANGE }

  function Decremented(n: nat): nat { (n + UINT_RANGE - 1) % UINT_RANGE }

  // What add does to the key -> N view of a Barrier.
  function AddCount<K>(counts: map<K, nat>, key: K): map<K, nat> {
    counts[key := Incremented(if key in counts then counts[key] else 0)]
  }

  // What remove does to it; None is the panic.
  function RemoveCount<K>(counts: map<K, nat>, key: K): Option<map<K, nat>> {
    if key !in counts then None
    else
      var n := Decremented(counts[key]);
      Some(if n == 0 then counts - {key} else counts[key := n])
  }

  ghost predicate PositiveCounts<K(!new)>(counts: map<K, nat>) {
    forall k :: k in counts ==> 0 < counts[k] < UINT_RANGE
  }

  // Unlock undoes Lock on the counters, short of a wrap-around of N.
  lemma RemoveUndoesAdd<K(!new)>(counts: map<K, nat>, key: K)
    requires PositiveCounts(counts)
    requires key in counts ==> counts[key] + 1 < UINT_RANGE
    ensures RemoveCount(AddCount(counts, key), key) == Some(counts)
  {
    if key in counts {
      assert counts[key := counts[key] + 1][key := counts[key]] == counts;
    } else {
      assert counts[key := 1] - {key} == counts;
    }
  }

  // ---------- the transition system ----------

  function Obj<K>(s: State<K>, l: LockId): LockObj {
    if l in s.locks then s.locks[l] else LockObj(None, 0)
  }

  predicate Enabled<K>(s: State<K>, step: Step<K>) {
    step.t in s.phases &&
    match step
    case Add(t, key, newId) => s.phases[t].Out? && newId !in s.locks
    case Acquire(t) => s.phases[t].Waiting? && Obj(s, s.phases[t].lock).owner.None?
    case Remove(t) => s.phases[t].Inside?
    case Unlock(t) => s.phases[t].Unlocking?
  }

  function Apply<K>(s: State<K>, step: Step<K>): State<K>
    requires Enabled(s, step)
  {
    match step
    case Add(t, key, newId) =>
      if key in s.keys then
        var l := s.keys[key];
        var m := Obj(s, l);
        State(s.keys, s.locks[l := m.(users := Incremented(m.users))], s.phases[t := Waiting(key, l)])
      else
        State(s.keys[key := newId], s.locks[newId := LockObj(None, 1)], s.phases[t := Waiting(key, newId)])
    case Acquire(t) =>
      var p := s.phases[t];
      var m := Obj(s, p.lock);
      State(s.keys, s.locks[p.lock := m.(owner := Some(t))], s.phases[t := Inside(p.key, p.lock)])
    case Remove(t) =>
      var key := s.phases[t].key;
      if key !in s.keys then
        s.(phases := s.phases[t := Panicked])   // unlock of an unlocked key
      else
        var l := s.keys[key];
        var m := Obj(s, l);
        var n := Decremented(m.users);
        State(if n == 0 then s.keys - {key} else s.keys, s.locks[l := m.(users := n)],
              s.phases[t := Unlocking(l)])
    case Unlock(t) =>
      var l := s.phases[t].lock;
      var m := Obj(s, l);
      if m.owner.None? then
        s.(phases := s.phases[t := Panicked])   // unlock of an unlocked sync.Mutex
      else
        State(s.keys, s.locks[l := m.(owner := None)], s.phases[t := Out])
  }

  // ---------- the invariant ----------

  predicate Uses<K(==)>(p: Phase<K>, key: K) {
    (p.Waiting? || p.Inside?) && p.key == key
  }

  // The goroutines between add(key) and remove(key).
  function Users<K(==)>(s: State<K>, key: K): set<Thread> {
    set t | t in s.phases && Uses(s.phases[t], key)
  }

  predicate InsideFor<K(==)>(p: Phase<K>, key: K) { p.Inside? && p.key == key }

  predicate Holds<K>(p: Phase<K>, l: LockId) {
    (p.Inside? || p.Unlocking?) && p.lock == l
  }

  ghost predicate SameObject<K(!new)>(s: State<K>) {
    forall t :: t in s.phases && (s.phases[t].Waiting? || s.phases[t].Inside?) ==>
      s.phases[t].key in s.keys && s.keys[s.phases[t].key] == s.phases[t].lock
  }

  ghost predicate OwnersAgree<K(!new)>(s: State<K>) {
    && (forall t, l {:trigger Holds(s.phases[t], l)} ::
          t in s.phases && Holds(s.phases[t], l) ==> l in s.locks && s.locks[l].owner == Some(t))
    && (forall l :: l in s.locks && s.locks[l].owner.Some? ==>
          s.locks[l].owner.value in s.phases && Holds(s.phases[s.locks[l].owner.value], l))
  }

  ghost predicate CountsAgree<K(!new)>(s: State<K>) {
    forall k :: k in s.keys ==>
      s.keys[k] in s.locks && Users(s, k) != {} && s.locks[s.keys[k]].users == |Users(s, k)|
  }

  ghost predicate KeysInjective<K(!new)>(s: State<K>) {
    forall j, k :: j in s.keys && k in s.keys && s.keys[j] == s.keys[k] ==> j == k
  }

  ghost predicate NoPanic<K(!new)>(s: State<K>) {
    forall t :: t in s.phases ==> !s.phases[t].Panicked?
  }

  ghost predicate Inv<K(!new)>(s: State<K>) {
    && |s.phases| < UINT_RANGE
    && SameObject(s) && OwnersAgree(s) && CountsAgree(s) && KeysInjective(s) && NoPanic(s)
  }

  predicate Init<K>(s: State<K>) {
    && |s.phases| < UINT_RANGE
    && s.keys == map[] && s.locks == map[]
    && forall t :: t in s.phases ==> s.phases[t] == Out
  }

  lemma UsersBounded<K(!new)>(s: State<K>, key: K)
    ensures |Users(s, key)| <= |s.phases|
  {
    SubsetCardinality(Users(s, key), s.phases.Keys);
  }

  // How the users of each key change when goroutine t enters or leaves the set of key's users.
  lemma AddUsers<K(!new)>(s: State<K>, step: Step<K>, k: K)
    requires Enabled(s, step) && step.Add?
    ensures Users(Apply(s, step), k) == if k == step.key then Users(s, k) + {step.t} else Users(s, k)
    ensures step.t !in Users(s, k)
  {
  }

  lemma AddKeepsCounts<K(!new)>(s: State<K>, step: Step<K>)
    requires Inv(s) && Enabled(s, step) && step.Add?
    ensures CountsAgree(Apply(s, step))
  {
    var s' := Apply(s, step);
    assert s'.phases.Keys == s.phases.Keys;
    forall k | k in s'.keys
      ensures s'.keys[k] in s'.locks && Users(s', k) != {} && s'.locks[s'.keys[k]].users == |Users(s', k)|
    {
      AddUsers(s, step, k);
      UsersBounded(s', k);
      assert k !in s.keys ==> Users(s, k) == {};
    }
  }

  lemma AddKeepsOwners<K(!new)>(s: State<K>, step: Step<K>)
    requires Inv(s) && Enabled(s, step) && step.Add?
    ensures OwnersAgree(Apply(s, step))
  {
    var s' := Apply(s, step);
    forall u, l | u in s'.phases && Holds(s'.phases[u], l) ensures l in s'.locks && s'.locks[l].owner == Some(u) {
      assert u != step.t && Holds(s.phases[u], l);
    }
  }

  lemma AddKeepsKeys<K(!new)>(s: State<K>, step: Step<K>)
    requires SameObject(s) && CountsAgree(s) && KeysInjective(s) && Enabled(s, step) && step.Add?
    ensures var s' := Apply(s, step); SameObject(s') && KeysInjective(s') && s'.phases.Keys == s.phases.Keys
  {
  }

  lemma AddKeepsInv<K(!new)>(s: State<K>, step: Step<K>)
    requires Inv(s) && Enabled(s, step) && step.Add?
    ensures Inv(Apply(s, step))
  {
    AddKeepsCounts(s, step);
    AddKeepsOwners(s, step);
    AddKeepsKeys(s, step);
  }

  lemma AcquireKeepsInv<K(!new)>(s: State<K>, step: Step<K>)
    requires Inv(s) && Enabled(s, step) && step.Acquire?
    ensures Inv(Apply(s, step))
  {
    var s' := Apply(s, step);
    assert s'.phases.Keys == s.phases.Keys;
    forall k | k in s.keys ensures Users(s', k) == Users(s, k) {}
  }

  lemma RemoveUsers<K(!new)>(s: State<K>, step: Step<K>, k: K)
    requires SameObject(s) && Enabled(s, step) && step.Remove?
    ensures Users(Apply(s, step), k) == if k == s.phases[step.t].key then Users(s, k) - {step.t} else Users(s, k)
    ensures k == s.phases[step.t].key ==> step.t in Users(s, k)
  {
  }

  lemma RemoveKeepsCounts<K(!new)>(s: State<K>, step: Step<K>)
    requires Inv(s) && Enabled(s, step) && step.Remove?
    ensures CountsAgree(Apply(s, step))
    ensures var key := s.phases[step.t].key; key !in Apply(s, step).keys ==> Users(Apply(s, step), key) == {}
  {
    var s', key := Apply(s, step), s.phases[step.t].key;
    RemoveUsers(s, step, key);
    UsersBounded(s, key);
    assert Decremented(|Users(s, key)|) == |Users(s', key)|;
    forall k | k in s'.keys
      ensures s'.keys[k] in s'.locks && Users(s', k) != {} && s'.locks[s'.keys[k]].users == |Users(s', k)|
    {
      RemoveUsers(s, step, k);
    }
  }

  lemma RemoveKeepsOwners<K(!new)>(s: State<K>, step: Step<K>)
    requires SameObject(s) && OwnersAgree(s) && Enabled(s, step) && step.Remove?
    ensures var s' := Apply(s, step); OwnersAgree(s') && s'.phases.Keys == s.phases.Keys
    ensures Apply(s, step).phases[step.t] == Unlocking(s.phases[step.t].lock)
  {
    var s' := Apply(s, step);
    assert Holds(s.phases[step.t], s.phases[step.t].lock);
    forall u, l | u in s'.phases && Holds(s'.phases[u], l) ensures l in s'.locks && s'.locks[l].owner == Some(u) {
      assert Holds(s.phases[u], l);
    }
  }

  lemma RemoveKeepsInv<K(!new)>(s: State<K>, step: Step<K>)
    requires Inv(s) && Enabled(s, step) && step.Remove?
    ensures Inv(Apply(s, step))
    ensures Apply(s, step).phases[step.t] == Unlocking(s.phases[step.t].lock)
  {
    RemoveKeepsCounts(s, step);
    RemoveKeepsOwners(s, step);
    var s' := Apply(s, step);
    forall u | u in s'.phases && (s'.phases[u].Waiting? || s'.phases[u].Inside?)
      ensures s'.phases[u].key in s'.keys
    {
      assert u in Users(s', s'.phases[u].key);
    }
  }

  lemma UnlockKeepsInv<K(!new)>(s: State<K>, step: Step<K>)
    requires Inv(s) && Enabled(s, step) && step.Unlock?
    ensures Inv(Apply(s, step))
    ensures Apply(s, step).phases[step.t] == Out
  {
    var s' := Apply(s, step);
    assert Holds(s.phases[step.t], s.phases[step.t].lock);
    assert s'.phases.Keys == s.phases.Keys;
    forall k | k in s.keys ensures Users(s', k) == Users(s, k) {}
  }

  lemma StepKeepsInv<K(!new)>(s: State<K>, step: Step<K>)
    requires Inv(s) && Enabled(s, step)
    ensures Inv(Apply(s, step))
  {
    match step
    case Add(_, _, _) => AddKeepsInv(s, step);
    case Acquire(_) => AcquireKeepsInv(s, step);
    case Remove(_) => RemoveKeepsInv(s, step);
    case Unlock(_) => UnlockKeepsInv(s, step);
  }

  // How far a step takes its goroutine; nobody else moves.
  lemma StepPhases<K(!new)>(s: State<K>, step: Step<K>)
    requires Inv(s) && Enabled(s, step)
    ensures var s', t, p := Apply(s, step), step.t, s.phases[step.t];
      && s'.phases.Keys == s.phases.Keys
      && (forall u :: u in s.phases && u != t ==> s'.phases[u] == s.phases[u])
      && match step
         case Add(_, key, _) => Uses(s'.phases[t], key)
         case Acquire(_) => Uses(p, p.key) && InsideFor(s'.phases[t], p.key)
         case Remove(_) => s'.phases[t].Unlocking?
         case Unlock(_) => s'.phases[t].Out?
  {
    if step.Remove? { RemoveKeepsInv(s, step); }
    if step.Unlock? { UnlockKeepsInv(s, step); }
  }

  // The reference counts of a state, as the Barrier class reports them.
  function CountsOf<K>(s: State<K>): map<K, nat> {
    map k | k in s.keys :: Obj(s, s.keys[k]).users
  }

  // The steps add and remove change the counts as the methods of the Barrier class do, and the
  // mutex steps leave them alone.
  lemma AddMatchesClass<K(!new)>(s: State<K>, step: Step<K>)
    requires Inv(s) && Enabled(s, step) && step.Add?
    ensures CountsOf(Apply(s, step)) == AddCount(CountsOf(s), step.key)
  {
  }

  lemma RemovedCounts<K(!new)>(s: State<K>, step: Step<K>)
    requires KeysInjective(s) && (forall k :: k in s.keys ==> s.keys[k] in s.locks)
    requires Enabled(s, step) && step.Remove? && s.phases[step.t].key in s.keys
    requires s.phases[step.t].lock == s.keys[s.phases[step.t].key]
    ensures RemoveCount(CountsOf(s), s.phases[step.t].key) == Some(CountsOf(Apply(s, step)))
  {
    var key := s.phases[step.t].key;
    var l := s.keys[key];
    var n := Decremented(s.locks[l].users);
    var s' := Apply(s, step);
    assert CountsOf(s)[key] == s.locks[l].users;
    assert forall k :: k in s'.keys && k != key ==> s.keys[k] != l;
    if n == 0 {
      assert CountsOf(s') == CountsOf(s) - {key};
    } else {
      assert CountsOf(s') == CountsOf(s)[key := n];
    }
  }

  lemma RemoveMatchesClass<K(!new)>(s: State<K>, step: Step<K>)
    requires Inv(s) && Enabled(s, step) && step.Remove?
    ensures RemoveCount(CountsOf(s), s.phases[step.t].key) == Some(CountsOf(Apply(s, step)))
  {
    assert s.phases[step.t].key in s.keys;
    RemovedCounts(s, step);
  }

  lemma MutexStepsKeepCounts<K(!new)>(s: State<K>, step: Step<K>)
    requires Inv(s) && Enabled(s, step) && (step.Acquire? || step.Unlock?)
    ensures CountsOf(Apply(s, step)) == CountsOf(s)
  {
  }

  // So the protocol, seen by its counts, does nothing but call the class's methods.
  lemma StepMatchesClass<K(!new)>(s: State<K>, step: Step<K>)
    requires Inv(s) && Enabled(s, step)
    ensures Some(CountsOf(Apply(s, step))) ==
      match step
      case Add(_, key, _) => Some(AddCount(CountsOf(s), key))
      case Remove(t) => RemoveCount(CountsOf(s), s.phases[t].key)
      case _ => Some(CountsOf(s))
  {
    match step
    case Add(_, _, _) => AddMatchesClass(s, step);
    case Remove(_) => RemoveMatchesClass(s, step);
    case _ => MutexStepsKeepCounts(s, step);
  }

  // ---------- whole runs ----------

  ghost predicate IsRun<K(!new)>(run: seq<State<K>>, steps: seq<Step<K>>) {
    && |run| == |steps| + 1 && Init(run[0])
    && forall i :: 0 <= i < |steps| ==> Enabled(run[i], steps[i]) && run[i + 1] == Apply(run[i], steps[i])
  }

  lemma {:induction false} RunKeepsInv<K(!new)>(run: seq<State<K>>, steps: seq<Step<K>>, i: nat)
    requires IsRun(run, steps) && i < |run|
    ensures Inv(run[i])
  {
    if i > 0 {
      RunKeepsInv(run, steps, i - 1);
      StepKeepsInv(run[i - 1], steps[i - 1]);
    }
  }

  // Mutual exclusion per key, one shared lock object per key, exact reference counts, no panic and
  // no counter underflow, and no entry for a key that nobody uses: in every state of every run.
  lemma MutualExclusion<K(!new)>(run: seq<State<K>>, steps: seq<Step<K>>, i: nat, key: K)
    requires IsRun(run, steps) && i < |run|
    ensures var s := run[i];
      && (forall t, u :: t in s.phases && u in s.phases && InsideFor(s.phases[t], key) && InsideFor(s.phases[u], key)
            ==> t == u)
      && (forall t :: t in Users(s, key) ==> key in s.keys && s.phases[t].lock == s.keys[key])
      && (key in s.keys <==> Users(s, key) != {})
      && (key in s.keys ==> Obj(s, s.keys[key]).users == |Users(s, key)| < UINT_RANGE)
      && (forall t :: t in s.phases ==> !s.phases[t].Panicked?)
  {
    RunKeepsInv(run, steps, i);
    var s := run[i];
    UsersBounded(s, key);
    forall t, u | t in s.phases && u in s.phases && InsideFor(s.phases[t], key) && InsideFor(s.phases[u], key)
      ensures t == u
    {
      assert Holds(s.phases[t], s.phases[t].lock) && Holds(s.phases[u], s.phases[u].lock);
    }
    if Users(s, key) != {} {
      var t :| t in Users(s, key);
      assert s.phases[t].key in s.keys;
    }
  }

  lemma MapEmptyWhenUnused<K(!new)>(run: seq<State<K>>, steps: seq<Step<K>>, i: nat)
    requires IsRun(run, steps) && i < |run|
    requires forall t :: t in run[i].phases ==> run[i].phases[t] == Out
    ensures run[i].keys == map[]
  {
    forall key | key in run[i].keys ensures false {
      MutualExclusion(run, steps, i, key);
    }
  }

  // A goroutine blocked in Lock is waiting for one other goroutine, which holds the same object,
  // is past its own acquisition, and can step now.
  lemma WaiterHasLiveOwner<K(!new)>(run: seq<State<K>>, steps: seq<Step<K>>, i: nat, t: Thread) returns (u: Thread)
    requires IsRun(run, steps) && i < |run|
    requires t in run[i].phases && run[i].phases[t].Waiting? && !Enabled(run[i], Acquire(t))
    ensures u in run[i].phases && u != t && Holds(run[i].phases[u], run[i].phases[t].lock)
    ensures run[i].phases[u].Inside? ==> run[i].phases[u].key == run[i].phases[t].key && Enabled(run[i], Remove(u))
    ensures run[i].phases[u].Unlocking? ==> Enabled(run[i], Unlock(u))
  {
    RunKeepsInv(run, steps, i);
    u := run[i].locks[run[i].phases[t].lock].owner.value;
  }
}
