// keyCache of keystore.go under any interleaving of any number of goroutines.
//
// A step is one atomic action: a load or store of the cache pointer, locking or unlocking the mutex
// of the Cow, a step of the per-key Barrier, one call of the key store, one access of an entry's
// Used flag, one access of the offline flag. Any goroutine may run Get, Create, Delete or a tick of
// any collector, one after the other. Copying a map for an update is private to its writer
// (CowProtocol), so an update is: lock, load, (compare-and-swap per entry for a sweep), store, unlock.
module KeyCache {
  import opened Wrappers
  import opened KeyTypes
  import CowOps
  import Barrier = BarrierProtocol

  type Thread = Barrier.Thread
  type Name = string
  type EntryId = nat

  // parse is crypto.ParseKeyVersion.
  datatype Config = Config(
    parse: Bytes -> Option<KeyVersion>,
    expiry: int, expiryUnused: int, expiryOffline: int
  )

  datatype Error = NotFound | Unavailable | Malformed

  datatype Entry = Entry(name: Name, key: KeyVersion, used: bool)

  // The collectors that newCache starts, but for the one that queries the store's status.
  datatype Collector = General | Unused | Offline

  datatype Update =
    | PutEntry(name: Name, e: EntryId)   // cache.Set at the end of Get
    | DropName(name: Name)               // cache.Delete at the end of Delete
    | DropAll(who: Collector)             // cache.DeleteAll
    | Sweep                              // cache.DeleteFunc of the Unused collector

  datatype Stage =
    | Want
    | Holding
    | Ready(next: map<Name, EntryId>)
    | Sweeping(todo: set<Name>, kept: map<Name, EntryId>)
    | Finishing

  datatype Output =
    | Nothing
    | Got(name: Name, result: Result<KeyVersion, Error>)
    | Created(ok: bool)
    | Deleted(ok: bool)

  datatype PC =
    | Idle(out: Output)
    | GetHit(name: Name, e: EntryId, locked: bool)
    | GetEnter(name: Name)
    | GetFetch(name: Name)
    | GetLeave(name: Name, result: Result<KeyVersion, Error>)
    | Writing(op: Update, stage: Stage)

  datatype State = State(
    store: map<Name, Bytes>,
    bar: Barrier.State<Name>,
    ptr: Option<map<Name, EntryId>>,
    mu: Option<Thread>,
    entries: map<EntryId, Entry>,
    offline: bool,
    pcs: map<Thread, PC>
  )

  datatype Step =
    | GetStart(t: Thread, name: Name)
    | MarkUsed(t: Thread)
    | BarrierStep(t: Thread, b: Barrier.Step<Name>)
    | GetAgain(t: Thread)
    | Fetch(t: Thread, newId: EntryId, down: bool)
    | GetReturn(t: Thread)
    | CreateStart(t: Thread, name: Name, blob: Bytes, down: bool)
    | DeleteStart(t: Thread, name: Name, down: bool, lenient: bool)   // lenient: no error for a missing name
    | Tick(t: Thread, who: Collector)
    | StatusTick(t: Thread, down: bool)
    | CowLock(t: Thread)
    | CowLoad(t: Thread)
    | CowCas(t: Thread, name: Name)
    | CowStore(t: Thread)
    | CowUnlock(t: Thread)

  // The map that lock-free readers of the cache see.
  function Cached(s: State): map<Name, EntryId> {
    if s.ptr.Some? then s.ptr.value else map[]
  }

  // gc does nothing for an interval that is not positive.
  predicate Ticks(c: Config, who: Collector) {
    match who
    case General => c.expiry > 0
    case Unused => c.expiryUnused / 2 > 0
    case Offline => c.expiryOffline > 0
  }

  // The test a collector makes on the offline flag before it touches the cache.
  predicate Collects(c: Config, who: Collector, offline: bool) {
    match who
    case Offline => offline && c.expiryOffline > 0
    case _ => !offline || c.expiryOffline <= 0
  }

  // The operation of the Cow that an update calls; a sweep is not one, as its callback has effects.
  function CowOp(op: Update): CowOps.Op<Name, EntryId>
    requires !op.Sweep?
  {
    match op
    case PutEntry(n, e) => CowOps.Set(n, e)
    case DropName(n) => CowOps.Delete(n)
    case DropAll(_) => CowOps.DeleteAll
  }

  predicate Enabled(c: Config, s: State, step: Step) {
    step.t in s.pcs && step.t in s.bar.phases &&
    var pc, phase := s.pcs[step.t], s.bar.phases[step.t];
    match step
    case GetStart(_, _) => pc.Idle?
    case MarkUsed(_) => pc.GetHit? && pc.e in s.entries
    case BarrierStep(t, b) =>
      && b.t == t && Barrier.Enabled(s.bar, b)
      && ((pc.GetEnter? && ((b.Add? && b.key == pc.name) || b.Acquire?)) ||
          (pc.GetLeave? && (b.Remove? || b.Unlock?)))
    case GetAgain(_) => pc.GetEnter? && phase.Inside?
    case Fetch(_, newId, _) => pc.GetFetch? && newId !in s.entries
    case GetReturn(_) => pc.GetLeave? && phase.Out?
    case CreateStart(_, _, _, _) => pc.Idle?
    case DeleteStart(_, _, _, _) => pc.Idle?
    case Tick(_, who) => pc.Idle? && Ticks(c, who)
    case StatusTick(_, _) => pc.Idle?
    case CowLock(_) => pc.Writing? && pc.stage.Want? && s.mu.None?
    case CowLoad(_) => pc.Writing? && pc.stage.Holding?
    case CowCas(_, n) => pc.Writing? && pc.stage.Sweeping? && n in pc.stage.todo && n in Cached(s) &&
        Cached(s)[n] in s.entries
    case CowStore(_) => pc.Writing? && (pc.stage.Ready? || (pc.stage.Sweeping? && pc.stage.todo == {}))
    case CowUnlock(_) => pc.Writing? && pc.stage.Finishing? && (pc.op.PutEntry? ==> pc.op.e in s.entries)
  }

  // What an update does once it holds mu and has loaded the pointer.
  function AfterLoad(ptr: Option<map<Name, EntryId>>, op: Update): Stage {
    var m := if ptr.Some? then ptr.value else map[];
    match op
    case PutEntry(n, e) => Ready(m[n := e])
    case DropName(n) => if n in m then Ready(m - {n}) else Finishing
    case DropAll(_) => if ptr.Some? then Ready(map[]) else Finishing
    case Sweep => if ptr.Some? then Sweeping(m.Keys, map[]) else Finishing
  }

  function AfterHit(s: State, name: Name, locked: bool): PC {
    if name in Cached(s) then GetHit(name, Cached(s)[name], locked)
    else if locked then GetFetch(name) else GetEnter(name)
  }

  // The next value of each part of the state; a step sets the program counter of its goroutine and
  // leaves alone what it does not mention.
  function NextStore(s: State, step: Step): map<Name, Bytes> {
    match step
    case CreateStart(_, name, blob, down) => if down || name in s.store then s.store else s.store[name := blob]
    case DeleteStart(_, name, down, _) => if down then s.store else s.store - {name}
    case _ => s.store
  }

  function NextBar(s: State, step: Step): Barrier.State<Name>
    requires step.BarrierStep? ==> Barrier.Enabled(s.bar, step.b)
  {
    if step.BarrierStep? then Barrier.Apply(s.bar, step.b) else s.bar
  }

  function NextPtr(s: State, step: Step): Option<map<Name, EntryId>>
    requires step.CowStore? ==> step.t in s.pcs && s.pcs[step.t].Writing?
  {
    if step.CowStore? then
      var stage := s.pcs[step.t].stage;
      Some(if stage.Ready? then stage.next else if stage.Sweeping? then stage.kept else map[])
    else s.ptr
  }

  function NextMu(s: State, step: Step): Option<Thread> {
    if step.CowLock? then Some(step.t) else if step.CowUnlock? then None else s.mu
  }

  function NextEntries(c: Config, s: State, step: Step): map<EntryId, Entry>
    requires Enabled(c, s, step)
  {
    match step
    case MarkUsed(t) =>
      var e := s.pcs[t].e;
      s.entries[e := s.entries[e].(used := true)]
    case Fetch(t, newId, down) =>
      var name := s.pcs[t].name;
      if !down && name in s.store && c.parse(s.store[name]).Some?
      then s.entries[newId := Entry(name, c.parse(s.store[name]).value, true)]
      else s.entries
    case CowCas(_, n) =>
      var e := Cached(s)[n];
      s.entries[e := s.entries[e].(used := false)]
    case _ => s.entries
  }

  function NextPC(c: Config, s: State, step: Step): PC
    requires Enabled(c, s, step)
  {
    var pc := s.pcs[step.t];
    match step
    case GetStart(_, name) => AfterHit(s, name, false)
    case MarkUsed(_) =>
      var key := s.entries[pc.e].key;
      if pc.locked then GetLeave(pc.name, Ok(key)) else Idle(Got(pc.name, Ok(key)))
    case BarrierStep(_, _) => pc
    case GetAgain(_) => AfterHit(s, pc.name, true)
    case Fetch(_, newId, down) =>
      if down then GetLeave(pc.name, Err(Unavailable))
      else if pc.name !in s.store then GetLeave(pc.name, Err(NotFound))
      else if c.parse(s.store[pc.name]).None? then GetLeave(pc.name, Err(Malformed))
      else Writing(PutEntry(pc.name, newId), Want)
    case GetReturn(_) => Idle(Got(pc.name, pc.result))
    case CreateStart(_, name, _, down) => Idle(Created(!down && name !in s.store))
    case DeleteStart(_, name, down, lenient) =>
      if down || (name !in s.store && !lenient) then Idle(Deleted(false)) else Writing(DropName(name), Want)
    case Tick(_, who) =>
      if !Collects(c, who, s.offline) then Idle(Nothing)
      else Writing(if who.Unused? then Sweep else DropAll(who), Want)
    case StatusTick(_, _) => Idle(Nothing)
    case CowLock(_) => Writing(pc.op, Holding)
    case CowLoad(_) => Writing(pc.op, AfterLoad(s.ptr, pc.op))
    case CowCas(_, n) =>
      var e := Cached(s)[n];
      // CompareAndSwap(true, false) succeeds exactly for a used entry, which stays.
      Writing(pc.op, Sweeping(pc.stage.todo - {n}, if s.entries[e].used then pc.stage.kept[n := e] else pc.stage.kept))
    case CowStore(_) => Writing(pc.op, Finishing)
    case CowUnlock(_) =>
      match pc.op
      case PutEntry(n, e) => GetLeave(n, Ok(s.entries[e].key))
      case DropName(_) => Idle(Deleted(true))
      case _ => Idle(Nothing)
  }

  function Apply(c: Config, s: State, step: Step): State
    requires Enabled(c, s, step)
  {
    State(
      NextStore(s, step), NextBar(s, step), NextPtr(s, step), NextMu(s, step), NextEntries(c, s, step),
      if step.StatusTick? then step.down else s.offline,
      s.pcs[step.t := NextPC(c, s, step)]
    )
  }

  // ---------- the invariant ----------

  predicate PrePublish(stage: Stage) { !stage.Finishing? }

  predicate StageOk(s: State, op: Update, stage: Stage) {
    match stage
    case Ready(next) => !op.Sweep? && next == CowOps.Outcome(CowOp(op), Cached(s), 0).0
    case Sweeping(todo, kept) =>
      && op.Sweep? && s.ptr.Some? && todo <= Cached(s).Keys && kept.Keys <= Cached(s).Keys - todo
      && forall n :: n in kept ==> kept[n] == Cached(s)[n]
    case _ => true
  }

  predicate PutOk(s: State, op: Update, stage: Stage) {
    op.PutEntry? ==>
      && op.e in s.entries && s.entries[op.e].name == op.name
      && (PrePublish(stage) ==> op.name !in Cached(s) && s.entries[op.e].used)
  }

  predicate PhaseOk(pc: PC, phase: Barrier.Phase<Name>) {
    match pc
    case Idle(_) => phase.Out?
    case GetHit(n, _, locked) => if locked then Barrier.InsideFor(phase, n) else phase.Out?
    case GetEnter(n) => phase.Out? || Barrier.Uses(phase, n)
    case GetFetch(n) => Barrier.InsideFor(phase, n)
    case GetLeave(n, _) => phase.Out? || phase.Unlocking? || Barrier.InsideFor(phase, n)
    case Writing(op, _) => if op.PutEntry? then Barrier.InsideFor(phase, op.name) else phase.Out?
  }

  predicate ThreadOk(s: State, t: Thread)
    requires t in s.pcs && t in s.bar.phases
  {
    var pc := s.pcs[t];
    && PhaseOk(pc, s.bar.phases[t])
    && (pc.GetHit? ==> pc.e in s.entries && s.entries[pc.e].name == pc.name)
    && (pc.GetFetch? ==> pc.name !in Cached(s))
    && (pc.Writing? ==> PutOk(s, pc.op, pc.stage) && StageOk(s, pc.op, pc.stage))
    && ((pc.Writing? && !pc.stage.Want?) <==> s.mu == Some(t))
  }

  predicate CachedOk(s: State) {
    forall n :: n in Cached(s) ==> Cached(s)[n] in s.entries && s.entries[Cached(s)[n]].name == n
  }

  ghost predicate CacheInv(s: State) {
    && s.bar.phases.Keys == s.pcs.Keys
    && CachedOk(s)
    && (s.mu.Some? ==> s.mu.value in s.pcs)
    && forall t :: t in s.pcs ==> ThreadOk(s, t)
  }

  ghost predicate Inv(s: State) {
    Barrier.Inv(s.bar) && CacheInv(s)
  }

  predicate Init(s: State) {
    && Barrier.Init(s.bar) && s.bar.phases.Keys == s.pcs.Keys
    && s.ptr.None? && s.mu.None? && s.entries == map[] && !s.offline
    && forall t :: t in s.pcs ==> s.pcs[t] == Idle(Nothing)
  }

  lemma InitInv(s: State)
    requires Init(s)
    ensures Inv(s)
  {
  }

  // Two goroutines are never inside the barrier for one name.
  lemma OneInside(s: State, t: Thread, u: Thread, n: Name)
    requires Inv(s) && t in s.bar.phases && u in s.bar.phases
    requires Barrier.InsideFor(s.bar.phases[t], n) && Barrier.InsideFor(s.bar.phases[u], n)
    ensures t == u
  {
    assert Barrier.Holds(s.bar.phases[t], s.bar.phases[t].lock);
    assert Barrier.Holds(s.bar.phases[u], s.bar.phases[u].lock);
  }

  lemma BarrierStepKeepsThread(c: Config, s: State, step: Step, u: Thread)
    requires Enabled(c, s, step) && step.BarrierStep?
    requires u in s.pcs && u in s.bar.phases && ThreadOk(s, u)
    requires var bar' := Barrier.Apply(s.bar, step.b);
      && bar'.phases.Keys == s.bar.phases.Keys
      && (u != step.t ==> bar'.phases[u] == s.bar.phases[u])
      && (u == step.t ==> PhaseOk(s.pcs[u], bar'.phases[u]))
    ensures ThreadOk(Apply(c, s, step), u)
  {
  }

  lemma BarrierStepPhase(c: Config, s: State, step: Step)
    requires Enabled(c, s, step) && step.BarrierStep? && Barrier.Inv(s.bar)
    requires PhaseOk(s.pcs[step.t], s.bar.phases[step.t])
    ensures var bar' := Barrier.Apply(s.bar, step.b);
      && bar'.phases.Keys == s.bar.phases.Keys && PhaseOk(s.pcs[step.t], bar'.phases[step.t])
      && forall u :: u in s.bar.phases && u != step.t ==> bar'.phases[u] == s.bar.phases[u]
  {
    Barrier.StepPhases(s.bar, step.b);
  }

  lemma BarrierStepKeepsInv(c: Config, s: State, step: Step)
    requires Inv(s) && Enabled(c, s, step) && step.BarrierStep?
    ensures Inv(Apply(c, s, step))
  {
    Barrier.StepKeepsInv(s.bar, step.b);
    BarrierStepPhase(c, s, step);
    BarrierStepKeepsCacheInv(c, s, step);
  }

  lemma BarrierStepKeepsCacheInv(c: Config, s: State, step: Step)
    requires CacheInv(s) && Enabled(c, s, step) && step.BarrierStep?
    requires var bar' := Barrier.Apply(s.bar, step.b);
      && bar'.phases.Keys == s.bar.phases.Keys && PhaseOk(s.pcs[step.t], bar'.phases[step.t])
      && forall u :: u in s.bar.phases && u != step.t ==> bar'.phases[u] == s.bar.phases[u]
    ensures CacheInv(Apply(c, s, step))
  {
    var s' := Apply(c, s, step);
    assert Cached(s') == Cached(s) && s'.entries == s.entries;
    forall u | u in s'.pcs ensures ThreadOk(s', u) {
      BarrierStepKeepsThread(c, s, step, u);
    }
  }

  lemma StoreKeepsBystander(c: Config, s: State, step: Step, u: Thread)
    requires Enabled(c, s, step) && step.CowStore? && u != step.t
    requires u in s.pcs && u in s.bar.phases && ThreadOk(s, u) && ThreadOk(s, step.t)
    requires forall n :: Barrier.InsideFor(s.bar.phases[step.t], n) ==> !Barrier.InsideFor(s.bar.phases[u], n)
    ensures ThreadOk(Apply(c, s, step), u)
  {
    assert s.mu == Some(step.t);
  }

  lemma StoreKeepsInv(c: Config, s: State, step: Step)
    requires CacheInv(s) && Enabled(c, s, step) && step.CowStore?
    requires forall u, n :: u in s.pcs && u != step.t && Barrier.InsideFor(s.bar.phases[step.t], n) ==>
      !Barrier.InsideFor(s.bar.phases[u], n)
    ensures CacheInv(Apply(c, s, step))
  {
    var s' := Apply(c, s, step);
    assert ThreadOk(s, step.t);
    forall u | u in s'.pcs ensures ThreadOk(s', u) {
      if u != step.t { StoreKeepsBystander(c, s, step, u); }
    }
  }

  lemma CasKeepsThread(c: Config, s: State, step: Step, u: Thread)
    requires Enabled(c, s, step) && step.CowCas? && CachedOk(s)
    requires u in s.pcs && u in s.bar.phases && ThreadOk(s, u) && ThreadOk(s, step.t)
    ensures ThreadOk(Apply(c, s, step), u)
  {
    assert s.mu == Some(step.t);
  }

  lemma CasKeepsCached(c: Config, s: State, step: Step)
    requires CachedOk(s) && Enabled(c, s, step) && step.CowCas?
    ensures CachedOk(Apply(c, s, step))
  {
    var s' := Apply(c, s, step);
    assert Cached(s') == Cached(s);
    forall n | n in Cached(s') ensures Cached(s')[n] in s'.entries && s'.entries[Cached(s')[n]].name == n {
      assert n in Cached(s);
    }
  }

  lemma CasKeepsInv(c: Config, s: State, step: Step)
    requires CacheInv(s) && Enabled(c, s, step) && step.CowCas?
    ensures CacheInv(Apply(c, s, step))
  {
    var s' := Apply(c, s, step);
    assert Cached(s') == Cached(s);
    CasKeepsCached(c, s, step);
    forall u | u in s'.pcs ensures ThreadOk(s', u) {
      assert ThreadOk(s, step.t);
      CasKeepsThread(c, s, step, u);
    }
  }

  // What the goroutine that does not step needs to keep its part of the invariant, when the step
  // neither stores the pointer nor moves the barrier.
  lemma BystanderOk(s: State, s': State, u: Thread)
    requires u in s.pcs && u in s.bar.phases && ThreadOk(s, u)
    requires u in s'.pcs && s'.pcs[u] == s.pcs[u] && s'.bar == s.bar && s'.ptr == s.ptr
    requires s'.mu == Some(u) <==> s.mu == Some(u)
    requires forall e :: e in s.entries ==>
      e in s'.entries && s'.entries[e].name == s.entries[e].name && (s.entries[e].used ==> s'.entries[e].used)
    ensures ThreadOk(s', u)
  {
  }

  lemma CallKeepsActor(c: Config, s: State, step: Step)
    requires Enabled(c, s, step) && ThreadOk(s, step.t) && CachedOk(s)
    requires !step.BarrierStep? && !step.CowStore? && !step.CowCas?
    requires !step.CowLock? && !step.CowLoad? && !step.CowUnlock?
    ensures ThreadOk(Apply(c, s, step), step.t)
  {
  }

  lemma UpdateKeepsActor(c: Config, s: State, step: Step)
    requires Enabled(c, s, step) && ThreadOk(s, step.t) && CachedOk(s)
    requires step.CowLock? || step.CowLoad? || step.CowUnlock?
    ensures ThreadOk(Apply(c, s, step), step.t)
  {
  }

  // Apart from a sweep, no step takes anything from the entries.
  lemma EntriesGrow(c: Config, s: State, step: Step)
    requires Enabled(c, s, step) && !step.CowCas?
    ensures forall e :: e in s.entries ==>
      && e in NextEntries(c, s, step) && NextEntries(c, s, step)[e].name == s.entries[e].name
      && (s.entries[e].used ==> NextEntries(c, s, step)[e].used)
  {
  }

  lemma OtherStepKeepsInv(c: Config, s: State, step: Step)
    requires CacheInv(s) && Enabled(c, s, step)
    requires !step.BarrierStep? && !step.CowStore? && !step.CowCas?
    ensures CacheInv(Apply(c, s, step))
  {
    var s' := Apply(c, s, step);
    EntriesGrow(c, s, step);
    assert ThreadOk(s, step.t);
    assert Cached(s') == Cached(s);
    forall u | u in s'.pcs ensures ThreadOk(s', u) {
      if u != step.t {
        BystanderOk(s, s', u);
      } else if step.CowLock? || step.CowLoad? || step.CowUnlock? {
        UpdateKeepsActor(c, s, step);
      } else {
        CallKeepsActor(c, s, step);
      }
    }
  }

  lemma PublishKeepsInv(c: Config, s: State, step: Step)
    requires Inv(s) && Enabled(c, s, step) && step.CowStore?
    ensures CacheInv(Apply(c, s, step))
  {
    forall u, n | u in s.pcs && u != step.t && Barrier.InsideFor(s.bar.phases[step.t], n)
      ensures !Barrier.InsideFor(s.bar.phases[u], n)
    {
      if Barrier.InsideFor(s.bar.phases[u], n) { OneInside(s, step.t, u, n); }
    }
    StoreKeepsInv(c, s, step);
  }

  lemma StepKeepsInv(c: Config, s: State, step: Step)
    requires Inv(s) && Enabled(c, s, step)
    ensures Inv(Apply(c, s, step))
  {
    if step.BarrierStep? {
      BarrierStepKeepsInv(c, s, step);
    } else {
      assert Apply(c, s, step).bar == s.bar;
      if step.CowStore? { PublishKeepsInv(c, s, step); }
      else if step.CowCas? { CasKeepsInv(c, s, step); }
      else { OtherStepKeepsInv(c, s, step); }
    }
  }

  // ---------- runs ----------

  ghost predicate StepAt(c: Config, run: seq<State>, steps: seq<Step>, i: nat)
    requires i < |steps| && |run| == |steps| + 1
  {
    Enabled(c, run[i], steps[i]) && run[i + 1] == Apply(c, run[i], steps[i])
  }

  // A run, or a part of one, starting in any state.
  ghost predicate IsPath(c: Config, run: seq<State>, steps: seq<Step>) {
    && |run| == |steps| + 1
    && forall i :: 0 <= i < |steps| ==> StepAt(c, run, steps, i)
  }

  ghost predicate IsRun(c: Config, run: seq<State>, steps: seq<Step>) {
    IsPath(c, run, steps) && Init(run[0])
  }

  lemma {:induction false} PathKeepsInv(c: Config, run: seq<State>, steps: seq<Step>, i: nat)
    requires IsPath(c, run, steps) && i < |run| && Inv(run[0])
    ensures Inv(run[i])
  {
    if i > 0 {
      PathKeepsInv(c, run, steps, i - 1);
      assert StepAt(c, run, steps, i - 1);
      StepKeepsInv(c, run[i - 1], steps[i - 1]);
    }
  }

  lemma RunKeepsInv(c: Config, run: seq<State>, steps: seq<Step>, i: nat)
    requires IsRun(c, run, steps) && i < |run|
    ensures Inv(run[i])
  {
    InitInv(run[0]);
    PathKeepsInv(c, run, steps, i);
  }
}
