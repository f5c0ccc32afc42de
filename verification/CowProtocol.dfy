// internal/cache/cow.go under any interleaving of any number of goroutines.
//
// Map objects live on a heap and are named by identity. A step is one atomic action: a load or
// store of the pointer, locking or unlocking mu, or copying one entry into a map object under
// construction. Readers take no lock: they load the pointer and look keys up at any later time.
module CowProtocol {
  import opened Wrappers
  import opened CowOps

  type Thread = nat
  type MapId = nat

  datatype Phase<K, V> =
    | Idle
    | Reading(p: Option<MapId>, seen: map<K, V>)   // seen is history: the map when p was loaded
    | Waiting(op: Op<K, V>)
    | Locked(op: Op<K, V>)
    | Copying(op: Op<K, V>, dst: MapId, todo: set<K>)
    | Releasing(op: Op<K, V>, result: bool)

  datatype State<K, V> = State(
    capacity: int,
    heap: map<MapId, map<K, V>>,
    ptr: Option<MapId>,
    mu: Option<Thread>,
    published: set<MapId>,   // history: every identity that ptr ever held
    phases: map<Thread, Phase<K, V>>
  )

  datatype Step<K, V> =
    | Load(t: Thread)
    | Forget(t: Thread)
    | Call(t: Thread, op: Op<K, V>)
    | Lock(t: Thread)
    | Begin(t: Thread, dst: MapId)
    | CopyOne(t: Thread, k: K)
    | Publish(t: Thread)
    | Unlock(t: Thread)

  function MapAt<K, V>(s: State<K, V>, p: Option<MapId>): map<K, V> {
    if p.Some? && p.value in s.heap then s.heap[p.value] else map[]
  }

  // The map that the Cow holds.
  function Abs<K, V>(s: State<K, V>): map<K, V> { MapAt(s, s.ptr) }

  // What a reader that has loaded the pointer finds under k, now.
  function LookUp<K, V>(s: State<K, V>, t: Thread, k: K): Option<V>
    requires t in s.phases && s.phases[t].Reading?
  {
    var m := MapAt(s, s.phases[t].p);
    if k in m then Some(m[k]) else None
  }

  // The early returns of the writers: the result, or None when a new map is built.
  function EarlyExit<K, V>(op: Op<K, V>, ptr: Option<MapId>, r: map<K, V>, capacity: int): Option<bool> {
    match op
    case Set(k, _) => if ptr.Some? && capacity > 0 && |r| >= capacity && k !in r then Some(false) else None
    case Add(k, _) => if ptr.Some? && ((capacity > 0 && |r| >= capacity) || k in r) then Some(false) else None
    case Delete(k) => if ptr.None? || |r| == 0 || k !in r then Some(false) else None
    case DeleteAll => if ptr.None? then Some(true) else None
    case DeleteFunc(_) => if ptr.None? then Some(true) else None
  }

  // The entries the copy loop transfers, and the update made after it.
  function Copied<K, V>(op: Op<K, V>, r: map<K, V>): map<K, V> {
    match op
    case Set(_, _) => r
    case Add(_, _) => r
    case Delete(_) => r
    case DeleteAll => map[]
    case DeleteFunc(keep) => map k | k in r && k in keep :: r[k]
  }

  function Finished<K, V>(op: Op<K, V>, w: map<K, V>): map<K, V> {
    match op
    case Set(k, v) => w[k := v]
    case Add(k, v) => w[k := v]
    case Delete(k) => w - {k}
    case DeleteAll => w
    case DeleteFunc(_) => w
  }

  predicate Enabled<K(==), V>(s: State<K, V>, step: Step<K, V>) {
    step.t in s.phases &&
    var p := s.phases[step.t];
    match step
    case Load(_) => p.Idle?
    case Forget(_) => p.Reading?
    case Call(_, _) => p.Idle?
    case Lock(_) => p.Waiting? && s.mu.None?
    case Begin(_, dst) => p.Locked? && dst !in s.heap
    case CopyOne(_, k) => p.Copying? && k in p.todo && k in Abs(s)
    case Publish(_) => p.Copying? && p.todo == {}
    case Unlock(_) => p.Releasing?
  }

  function Apply<K, V>(s: State<K, V>, step: Step<K, V>): State<K, V>
    requires Enabled(s, step)
  {
    var t, p := step.t, s.phases[step.t];
    match step
    case Load(_) => s.(phases := s.phases[t := Reading(s.ptr, Abs(s))])
    case Forget(_) => s.(phases := s.phases[t := Idle])
    case Call(_, op) => s.(phases := s.phases[t := Waiting(op)])
    case Lock(_) => s.(mu := Some(t), phases := s.phases[t := Locked(p.op)])
    case Begin(_, dst) =>
      (match EarlyExit(p.op, s.ptr, Abs(s), s.capacity)
       case Some(result) => s.(phases := s.phases[t := Releasing(p.op, result)])
       case None => s.(heap := s.heap[dst := map[]],
                       phases := s.phases[t := Copying(p.op, dst, Copied(p.op, Abs(s)).Keys)]))
    case CopyOne(_, k) =>
      var w := MapAt(s, Some(p.dst));
      s.(heap := s.heap[p.dst := w[k := Abs(s)[k]]],
         phases := s.phases[t := Copying(p.op, p.dst, p.todo - {k})])
    case Publish(_) =>
      var w := MapAt(s, Some(p.dst));
      s.(heap := s.heap[p.dst := Finished(p.op, w)], ptr := Some(p.dst),
         published := s.published + {p.dst}, phases := s.phases[t := Releasing(p.op, true)])
    case Unlock(_) => s.(mu := None, phases := s.phases[t := Idle])
  }

  // ---------- the invariant ----------

  predicate HoldsMu<K, V>(p: Phase<K, V>) { p.Locked? || p.Copying? || p.Releasing? }

  ghost predicate OneWriter<K, V>(s: State<K, V>) {
    && (forall t :: t in s.phases && HoldsMu(s.phases[t]) ==> s.mu == Some(t))
    && (s.mu.Some? ==> s.mu.value in s.phases && HoldsMu(s.phases[s.mu.value]))
  }

  ghost predicate PublishedOk<K, V>(s: State<K, V>) {
    && (s.ptr.Some? ==> s.ptr.value in s.published)
    && (forall id :: id in s.published ==> id in s.heap)
  }

  // A reader's map is what it was when the reader loaded the pointer.
  ghost predicate ReaderOk<K, V>(s: State<K, V>, p: Phase<K, V>) {
    p.Reading? ==> MapAt(s, p.p) == p.seen && (p.p.Some? ==> p.p.value in s.published)
  }

  // A map object under construction is private and holds exactly what the loop has copied so far.
  ghost predicate BuilderOk<K, V>(s: State<K, V>, p: Phase<K, V>) {
    p.Copying? ==>
      && p.dst in s.heap && p.dst !in s.published
      && EarlyExit(p.op, s.ptr, Abs(s), s.capacity).None?
      && p.todo <= Copied(p.op, Abs(s)).Keys
      && s.heap[p.dst] == Copied(p.op, Abs(s)) - p.todo
  }

  ghost predicate Inv<K, V>(s: State<K, V>) {
    && OneWriter(s) && PublishedOk(s) && WithinCapacity(Abs(s), s.capacity)
    && forall t :: t in s.phases ==> ReaderOk(s, s.phases[t]) && BuilderOk(s, s.phases[t])
  }

  // A Cow before its first use: either the zero Cow or one made by NewCow.
  predicate Init<K, V>(s: State<K, V>) {
    && s.mu.None? && (forall t :: t in s.phases ==> s.phases[t] == Idle)
    && ((s.ptr.None? && s.published == {}) ||
        (s.ptr.Some? && s.published == {s.ptr.value} && s.ptr.value in s.heap && s.heap[s.ptr.value] == map[]))
  }

  lemma CopiedThenFinished<K, V>(op: Op<K, V>, ptr: Option<MapId>, r: map<K, V>, capacity: int)
    requires ptr.None? ==> r == map[]
    ensures match EarlyExit(op, ptr, r, capacity)
            case Some(b) => Outcome(op, r, capacity) == (r, b)
            case None => Outcome(op, r, capacity) == (Finished(op, Copied(op, r)), true)
  {
    if op.Delete? && op.key !in r { assert r - {op.key} == r; }
  }

  // Writers take effect at one step each: the pointer store, or the load of an early return.
  function Effect<K, V>(s: State<K, V>, step: Step<K, V>): Option<(Op<K, V>, bool)>
    requires Enabled(s, step)
  {
    var p := s.phases[step.t];
    match step
    case Publish(_) => Some((p.op, true))
    case Begin(_, _) =>
      (match EarlyExit(p.op, s.ptr, Abs(s), s.capacity) case Some(b) => Some((p.op, b)) case None => None)
    case _ => None
  }

  lemma EffectIsOutcome<K, V>(s: State<K, V>, step: Step<K, V>)
    requires Inv(s) && Enabled(s, step)
    ensures match Effect(s, step)
            case Some((op, result)) =>
              && Outcome(op, Abs(s), s.capacity) == (Abs(Apply(s, step)), result)
              && Apply(s, step).phases[step.t] == Releasing(op, result)
            case None => Abs(Apply(s, step)) == Abs(s)
  {
    var p := s.phases[step.t];
    if step.Publish? || step.Begin? {
      CopiedThenFinished(p.op, s.ptr, Abs(s), s.capacity);
    }
    if step.Publish? {
      assert Copied(p.op, Abs(s)) - {} == Copied(p.op, Abs(s));
    }
  }

  // No step changes a map object that was ever published.
  lemma PublishedIsFrozen<K, V>(s: State<K, V>, step: Step<K, V>)
    requires Inv(s) && Enabled(s, step)
    ensures var s' := Apply(s, step);
      s.published <= s'.published && forall id :: id in s.published ==> id in s'.heap && s'.heap[id] == s.heap[id]
  {
  }

  lemma OneWriterStays<K, V>(s: State<K, V>, step: Step<K, V>)
    requires OneWriter(s) && Enabled(s, step)
    ensures OneWriter(Apply(s, step)) && Apply(s, step).capacity == s.capacity
  {
  }

  lemma PublishedStays<K, V>(s: State<K, V>, step: Step<K, V>)
    requires PublishedOk(s) && Enabled(s, step) && BuilderOk(s, s.phases[step.t])
    ensures PublishedOk(Apply(s, step))
  {
  }

  lemma CapacityStays<K, V>(s: State<K, V>, step: Step<K, V>)
    requires Inv(s) && Enabled(s, step)
    ensures WithinCapacity(Abs(Apply(s, step)), s.capacity)
  {
    EffectIsOutcome(s, step);
    if Effect(s, step).Some? {
      OutcomeWithinCapacity(Effect(s, step).value.0, Abs(s), s.capacity);
    }
  }

  lemma ReaderStays<K, V>(s: State<K, V>, step: Step<K, V>, u: Thread)
    requires PublishedOk(s) && Enabled(s, step) && u in s.phases
    requires ReaderOk(s, s.phases[u]) && BuilderOk(s, s.phases[step.t])
    ensures var s' := Apply(s, step); u in s'.phases && ReaderOk(s', s'.phases[u])
  {
  }

  lemma BuilderStays<K, V>(s: State<K, V>, step: Step<K, V>, u: Thread)
    requires OneWriter(s) && PublishedOk(s) && Enabled(s, step) && u in s.phases
    requires BuilderOk(s, s.phases[u]) && BuilderOk(s, s.phases[step.t])
    ensures var s' := Apply(s, step); u in s'.phases && BuilderOk(s', s'.phases[u])
  {
    var p := s.phases[step.t];
    if u == step.t {
      match step
      case Begin(_, dst) =>
        var all := Copied(p.op, Abs(s));
        assert all - all.Keys == map[];
      case CopyOne(_, k) =>
        var all := Copied(p.op, Abs(s));
        assert (all - p.todo)[k := all[k]] == all - (p.todo - {k});
      case _ =>
    } else if s.phases[u].Copying? {
      assert s.mu == Some(u);
      assert !HoldsMu(s.phases[step.t]);
    }
  }

  lemma StepKeepsInv<K, V>(s: State<K, V>, step: Step<K, V>)
    requires Inv(s) && Enabled(s, step)
    ensures Inv(Apply(s, step)) && Apply(s, step).capacity == s.capacity
  {
    var s' := Apply(s, step);
    OneWriterStays(s, step);
    PublishedStays(s, step);
    CapacityStays(s, step);
    forall u | u in s'.phases ensures ReaderOk(s', s'.phases[u]) && BuilderOk(s', s'.phases[u]) {
      ReaderStays(s, step, u);
      BuilderStays(s, step, u);
    }
  }

  // ---------- whole runs ----------

  ghost predicate StepAt<K, V>(run: seq<State<K, V>>, steps: seq<Step<K, V>>, i: nat)
    requires i < |steps| && |run| == |steps| + 1
  {
    Enabled(run[i], steps[i]) && run[i + 1] == Apply(run[i], steps[i])
  }

  ghost predicate IsRun<K, V>(run: seq<State<K, V>>, steps: seq<Step<K, V>>) {
    && |run| == |steps| + 1 && Init(run[0])
    && forall i :: 0 <= i < |steps| ==> StepAt(run, steps, i)
  }

  lemma {:induction false} RunKeepsInv<K, V>(run: seq<State<K, V>>, steps: seq<Step<K, V>>, i: nat)
    requires IsRun(run, steps) && i < |run|
    ensures Inv(run[i]) && run[i].capacity == run[0].capacity
  {
    if i > 0 {
      RunKeepsInv(run, steps, i - 1);
      assert StepAt(run, steps, i - 1);
      StepKeepsInv(run[i - 1], steps[i - 1]);
    }
  }

  // The update that takes effect in the step, if one does.
  function Effects<K(==), V>(s: State<K, V>, step: Step<K, V>): seq<(Op<K, V>, bool)> {
    if !Enabled(s, step) then []
    else match Effect(s, step) case Some(e) => [e] case None => []
  }

  // The updates of a run's first n steps, in the order in which they take effect.
  ghost function History<K, V>(run: seq<State<K, V>>, steps: seq<Step<K, V>>, n: nat): seq<(Op<K, V>, bool)>
    requires n <= |steps| <= |run|
  {
    if n == 0 then [] else History(run, steps, n - 1) + Effects(run[n - 1], steps[n - 1])
  }

  // A plain map to which the updates are applied one after the other.
  function Replayed<K, V>(history: seq<(Op<K, V>, bool)>, capacity: int): map<K, V> {
    if history == [] then map[]
    else
      var n := |history| - 1;
      Outcome(history[n].0, Replayed(history[..n], capacity), capacity).0
  }

  // Each update reported what the plain map reports.
  ghost predicate ResultsAgree<K, V>(history: seq<(Op<K, V>, bool)>, capacity: int) {
    forall n {:trigger history[n]} :: 0 <= n < |history| ==>
      history[n].1 == Outcome(history[n].0, Replayed(history[..n], capacity), capacity).1
  }

  lemma ReplayOneMore<K, V>(history: seq<(Op<K, V>, bool)>, e: (Op<K, V>, bool), capacity: int)
    requires ResultsAgree(history, capacity)
    requires e.1 == Outcome(e.0, Replayed(history, capacity), capacity).1
    ensures Replayed(history + [e], capacity) == Outcome(e.0, Replayed(history, capacity), capacity).0
    ensures ResultsAgree(history + [e], capacity)
  {
    var h := history + [e];
    assert h[..|history|] == history;
    forall n {:trigger h[n]} | 0 <= n < |h| ensures h[n].1 == Outcome(h[n].0, Replayed(h[..n], capacity), capacity).1 {
      if n < |history| { assert h[..n] == history[..n]; }
    }
  }

  // The history leads a plain map of this capacity to m, with the results that were reported.
  ghost predicate Explains<K, V>(history: seq<(Op<K, V>, bool)>, m: map<K, V>, capacity: int) {
    Replayed(history, capacity) == m && ResultsAgree(history, capacity)
  }

  lemma ReplayStep<K, V>(s: State<K, V>, step: Step<K, V>, h: seq<(Op<K, V>, bool)>)
    requires Inv(s) && Enabled(s, step) && Explains(h, Abs(s), s.capacity)
    ensures Explains(h + Effects(s, step), Abs(Apply(s, step)), s.capacity)
  {
    EffectIsOutcome(s, step);
    match Effect(s, step)
    case Some(e) => ReplayOneMore(h, e, s.capacity);
    case None => assert h + [] == h;
  }

  lemma RunStepExplains<K, V>(run: seq<State<K, V>>, steps: seq<Step<K, V>>, n: nat)
    requires IsRun(run, steps) && 0 < n <= |steps|
    requires Explains(History(run, steps, n - 1), Abs(run[n - 1]), run[0].capacity)
    ensures Explains(History(run, steps, n), Abs(run[n]), run[0].capacity)
  {
    RunKeepsInv(run, steps, n - 1);
    assert StepAt(run, steps, n - 1);
    ReplayStep(run[n - 1], steps[n - 1], History(run, steps, n - 1));
  }

  lemma NothingYet<K, V>(run: seq<State<K, V>>, steps: seq<Step<K, V>>)
    requires IsRun(run, steps)
    ensures Explains(History(run, steps, 0), Abs(run[0]), run[0].capacity)
  {
  }

  lemma {:induction false} HistoryExplains<K, V>(run: seq<State<K, V>>, steps: seq<Step<K, V>>, n: nat)
    requires IsRun(run, steps) && n <= |steps|
    ensures Explains(History(run, steps, n), Abs(run[n]), run[0].capacity)
  {
    if n == 0 {
      NothingYet(run, steps);
    } else {
      HistoryExplains(run, steps, n - 1);
      RunStepExplains(run, steps, n);
    }
  }

  // Every run is a run of a plain map: same contents, same results, one effect at a time.
  lemma Linearisable<K, V>(run: seq<State<K, V>>, steps: seq<Step<K, V>>, n: nat)
    requires IsRun(run, steps) && n <= |steps|
    ensures Replayed(History(run, steps, n), run[0].capacity) == Abs(run[n])
    ensures ResultsAgree(History(run, steps, n), run[0].capacity)
    ensures WithinCapacity(Abs(run[n]), run[0].capacity)
  {
    HistoryExplains(run, steps, n);
    RunKeepsInv(run, steps, n);
  }

  lemma {:induction false} StillReading<K, V>(run: seq<State<K, V>>, steps: seq<Step<K, V>>, i: nat, j: nat, t: Thread)
    requires IsRun(run, steps) && i < j <= |steps| && steps[i] == Load(t)
    requires forall n :: i < n < j ==> steps[n].t != t
    ensures t in run[j].phases && run[j].phases[t] == Reading(run[i].ptr, Abs(run[i]))
  {
    assert StepAt(run, steps, j - 1);
    if j > i + 1 {
      StillReading(run, steps, i, j - 1, t);
      assert steps[j - 1].t != t;
    }
  }

  // From its load at step i on, a lock-free reader finds under every key what the Cow held there at
  // that step, whatever the writers do meanwhile.
  lemma ReaderSeesOnePublishedMap<K, V>(run: seq<State<K, V>>, steps: seq<Step<K, V>>, i: nat, j: nat, t: Thread, k: K)
    requires IsRun(run, steps) && i < j <= |steps| && steps[i] == Load(t)
    requires forall n :: i < n < j ==> steps[n].t != t
    ensures t in run[j].phases && run[j].phases[t] == Reading(run[i].ptr, Abs(run[i]))
    ensures LookUp(run[j], t, k) == if k in Abs(run[i]) then Some(Abs(run[i])[k]) else None
  {
    RunKeepsInv(run, steps, j);
    StillReading(run, steps, i, j, t);
    assert ReaderOk(run[j], run[j].phases[t]);
  }

  lemma PublishedOneStep<K, V>(run: seq<State<K, V>>, steps: seq<Step<K, V>>, j: nat, id: MapId)
    requires IsRun(run, steps) && 0 < j <= |steps|
    requires id in run[j - 1].published && id in run[j - 1].heap
    ensures id in run[j].published && id in run[j].heap && run[j].heap[id] == run[j - 1].heap[id]
  {
    RunKeepsInv(run, steps, j - 1);
    assert StepAt(run, steps, j - 1);
    PublishedIsFrozen(run[j - 1], steps[j - 1]);
  }

  // A published map object never changes again.
  lemma {:induction false} PublishedForever<K, V>(run: seq<State<K, V>>, steps: seq<Step<K, V>>, i: nat, j: nat)
    requires IsRun(run, steps) && i <= j <= |steps| && run[i].ptr.Some?
    ensures run[i].ptr.value in run[i].heap && run[i].ptr.value in run[j].published
    ensures run[i].ptr.value in run[j].heap && run[j].heap[run[i].ptr.value] == run[i].heap[run[i].ptr.value]
  {
    if j == i {
      RunKeepsInv(run, steps, i);
    } else {
      PublishedForever(run, steps, i, j - 1);
      PublishedOneStep(run, steps, j, run[i].ptr.value);
    }
  }
}
