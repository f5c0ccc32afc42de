// Multicast.Add and Multicast.Remove of internal/api/multicast.go under any interleaving of any
// number of goroutines. Slices live on a heap and are named by the identity of the pointer to them;
// a step is one load or one compare-and-swap of the group pointer.
module MulticastProtocol {
  import opened Wrappers

  type Thread = nat
  type SliceId = nat

  datatype Op<W> = Add(w: W) | Remove(w: W)

  datatype Phase<W> =
    | Idle
    | Loading(op: Op<W>)
    | Loaded(op: Op<W>, p: Option<SliceId>)
    | Panicked   // a nil pointer was dereferenced

  datatype State<W> = State(slices: map<SliceId, seq<W>>, group: Option<SliceId>, phases: map<Thread, Phase<W>>)

  datatype Step<W> =
    | Call(t: Thread, op: Op<W>)
    | Load(t: Thread)
    | Cas(t: Thread, newId: SliceId)

  function SliceAt<W>(s: State<W>, p: Option<SliceId>): seq<W> {
    if p.Some? && p.value in s.slices then s.slices[p.value] else []
  }

  function Group<W>(s: State<W>): seq<W> { SliceAt(s, s.group) }

  // `for _, wr := range old { if wr != w { append } }`
  function Without<W(==)>(ws: seq<W>, w: W): seq<W> {
    if ws == [] then [] else (if ws[0] != w then [ws[0]] else []) + Without(ws[1..], w)
  }

  // The operation has nothing to do on the slice it has loaded.
  predicate Done<W(==)>(op: Op<W>, p: Option<SliceId>, ws: seq<W>) {
    match op
    case Add(w) => p.Some? && w in ws
    case Remove(w) => p.None? || w !in ws
  }

  function NewSlice<W(==)>(op: Op<W>, ws: seq<W>): seq<W> {
    match op
    case Add(w) => [w] + ws
    case Remove(w) => Without(ws, w)
  }

  predicate Enabled<W(==)>(s: State<W>, step: Step<W>) {
    step.t in s.phases &&
    var p := s.phases[step.t];
    match step
    case Call(_, _) => p.Idle?
    case Load(_) => p.Loading?
    case Cas(_, newId) => p.Loaded? && newId !in s.slices
  }

  predicate Succeeds<W(==)>(s: State<W>, step: Step<W>)
    requires Enabled(s, step)
  {
    step.Cas? && s.group == s.phases[step.t].p
  }

  function Apply<W(==)>(s: State<W>, step: Step<W>): State<W>
    requires Enabled(s, step)
  {
    var t, p := step.t, s.phases[step.t];
    match step
    case Call(_, op) => s.(phases := s.phases[t := Loading(op)])
    case Load(_) =>
      s.(phases := s.phases[t := if Done(p.op, s.group, Group(s)) then Idle else Loaded(p.op, s.group)])
    case Cas(_, newId) =>
      if s.group == p.p then
        State(s.slices[newId := NewSlice(p.op, SliceAt(s, p.p))], Some(newId), s.phases[t := Idle])
      else if p.op.Add? && p.p.None? then
        s.(phases := s.phases[t := Panicked])   // slices.Contains(*old, w) with old == nil
      else
        s.(phases := s.phases[t := Loading(p.op)])
  }

  // ---------- the invariant ----------

  ghost predicate Inv<W>(s: State<W>) {
    && (s.group.Some? ==> s.group.value in s.slices)
    && (forall id :: id in s.slices ==> Distinct(s.slices[id]))
    && (forall t :: t in s.phases && s.phases[t].Loaded? ==>
          && (s.phases[t].p.Some? ==> s.phases[t].p.value in s.slices)
          && !Done(s.phases[t].op, s.phases[t].p, SliceAt(s, s.phases[t].p)))
  }

  predicate Init<W>(s: State<W>) {
    s.group.None? && s.slices == map[] && forall t :: t in s.phases ==> s.phases[t] == Idle
  }

  lemma {:induction false} WithoutMembers<W>(ws: seq<W>, w: W)
    ensures forall x :: x in Without(ws, w) <==> x in ws && x != w
  {
    if ws != [] {
      WithoutMembers(ws[1..], w);
      assert forall x :: x in ws <==> x == ws[0] || x in ws[1..];
    }
  }

  lemma {:induction false} WithoutDistinct<W>(ws: seq<W>, w: W)
    requires Distinct(ws)
    ensures Distinct(Without(ws, w))
  {
    if ws != [] {
      WithoutDistinct(ws[1..], w);
      WithoutMembers(ws[1..], w);
      var rest := Without(ws[1..], w);
      forall i | 0 <= i < |rest| ensures rest[i] != ws[0] {
        assert rest[i] in rest;
      }
    }
  }

  // ---------- linearisability ----------

  function SetAfter<W>(op: Op<W>, members: set<W>): set<W> {
    match op case Add(w) => members + {w} case Remove(w) => members - {w}
  }

  function SetOf<W(==)>(ws: seq<W>): set<W> { set w | w in ws }

  function Members<W(==)>(s: State<W>): set<W> { SetOf(Group(s)) }

  // An operation takes effect when its compare-and-swap succeeds, or at the load that finds nothing
  // to do.
  function Effect<W(==)>(s: State<W>, step: Step<W>): Option<Op<W>>
    requires Enabled(s, step)
  {
    if Succeeds(s, step) || (step.Load? && Done(s.phases[step.t].op, s.group, Group(s)))
    then Some(s.phases[step.t].op) else None
  }

  lemma NewSliceMembers<W>(op: Op<W>, ws: seq<W>)
    requires Distinct(ws) && (op.Add? ==> op.w !in ws)
    ensures Distinct(NewSlice(op, ws))
    ensures SetOf(NewSlice(op, ws)) == SetAfter(op, SetOf(ws))
  {
    match op
    case Add(w) =>
      assert forall x :: x in [w] + ws <==> x == w || x in ws;
      assert SetOf([w] + ws) == SetOf(ws) + {w};
    case Remove(w) =>
      WithoutMembers(ws, w);
      WithoutDistinct(ws, w);
      assert SetOf(Without(ws, w)) == SetOf(ws) - {w};
  }

  // One operation takes effect in exactly one step, the one with which its call returns.
  lemma EffectIsSetUpdate<W>(s: State<W>, step: Step<W>)
    requires Inv(s) && Enabled(s, step)
    ensures Members(Apply(s, step)) ==
      match Effect(s, step) case Some(op) => SetAfter(op, Members(s)) case None => Members(s)
    ensures Apply(s, step).phases[step.t] == Idle <==> Effect(s, step).Some?
  {
    if Succeeds(s, step) {
      NewSliceMembers(s.phases[step.t].op, Group(s));
    }
  }

  lemma StepKeepsInv<W>(s: State<W>, step: Step<W>)
    requires Inv(s) && Enabled(s, step)
    ensures Inv(Apply(s, step))
  {
    if Succeeds(s, step) {
      NewSliceMembers(s.phases[step.t].op, Group(s));
    }
  }

  ghost predicate IsPath<W>(run: seq<State<W>>, steps: seq<Step<W>>) {
    && |run| == |steps| + 1
    && forall i :: 0 <= i < |steps| ==> Enabled(run[i], steps[i]) && run[i + 1] == Apply(run[i], steps[i])
  }

  lemma {:induction false} PathKeepsInv<W>(run: seq<State<W>>, steps: seq<Step<W>>, i: nat)
    requires IsPath(run, steps) && Inv(run[0]) && i < |run|
    ensures Inv(run[i])
  {
    if i > 0 {
      PathKeepsInv(run, steps, i - 1);
      StepKeepsInv(run[i - 1], steps[i - 1]);
    }
  }

  // The set after the operations that have taken effect in the first n steps, one after the other.
  ghost function Replayed<W>(run: seq<State<W>>, steps: seq<Step<W>>, n: nat): set<W>
    requires IsPath(run, steps) && n <= |steps|
  {
    if n == 0 then Members(run[0])
    else
      match Effect(run[n - 1], steps[n - 1])
      case Some(op) => SetAfter(op, Replayed(run, steps, n - 1))
      case None => Replayed(run, steps, n - 1)
  }

  // Every run is a run of a set, and the slice never holds a writer twice.
  lemma {:induction false} Linearisable<W>(run: seq<State<W>>, steps: seq<Step<W>>, n: nat)
    requires IsPath(run, steps) && Inv(run[0]) && n <= |steps|
    ensures Members(run[n]) == Replayed(run, steps, n) && Distinct(Group(run[n]))
  {
    PathKeepsInv(run, steps, n);
    if n > 0 {
      Linearisable(run, steps, n - 1);
      PathKeepsInv(run, steps, n - 1);
      EffectIsSetUpdate(run[n - 1], steps[n - 1]);
    }
  }

  // ---------- lock freedom and the first Add ----------

  // The pointer changes only when a compare-and-swap succeeds.
  lemma {:induction false} ChangeNeedsSuccess<W>(run: seq<State<W>>, steps: seq<Step<W>>, i: nat, j: nat)
    returns (k: nat)
    requires IsPath(run, steps) && i <= j <= |steps| && run[i].group != run[j].group
    ensures i <= k < j && Succeeds(run[k], steps[k])
  {
    if run[j - 1].group != run[j].group {
      k := j - 1;
    } else {
      k := ChangeNeedsSuccess(run, steps, i, j - 1);
    }
  }

  lemma {:induction false} StillLoaded<W>(run: seq<State<W>>, steps: seq<Step<W>>, i: nat, j: nat, t: Thread)
    requires IsPath(run, steps) && i < j <= |steps| && steps[i] == Load(t)
    requires run[i + 1].phases[t].Loaded?
    requires forall k :: i < k < j ==> steps[k].t != t
    ensures t in run[j].phases && run[j].phases[t].Loaded? && run[j].phases[t].p == run[i].group
    ensures t in run[i + 1].phases
  {
    if j > i + 1 {
      StillLoaded(run, steps, i, j - 1, t);
      assert steps[j - 1].t != t;
    }
  }

  // When a compare-and-swap fails, another operation has succeeded since this one's load.
  lemma FailureMeansProgress<W>(run: seq<State<W>>, steps: seq<Step<W>>, i: nat, j: nat, t: Thread) returns (k: nat)
    requires IsPath(run, steps) && i < j < |steps| && steps[i] == Load(t) && t in run[i + 1].phases
    requires run[i + 1].phases[t].Loaded? && forall k :: i < k < j ==> steps[k].t != t
    requires steps[j].Cas? && steps[j].t == t && !Succeeds(run[j], steps[j])
    ensures i < k < j && steps[k].t != t && Succeeds(run[k], steps[k])
  {
    StillLoaded(run, steps, i, j, t);
    assert run[i + 1].group == run[i].group;
    k := ChangeNeedsSuccess(run, steps, i + 1, j);
  }

  ghost predicate NilSafe<W>(s: State<W>) {
    && s.group.Some?
    && forall t :: t in s.phases ==> !s.phases[t].Panicked? && (s.phases[t].Loaded? ==> s.phases[t].p.Some?)
  }

  // Once the group is not nil and no Add has seen it nil, no goroutine ever panics.
  lemma {:induction false} NoPanicOnceSet<W>(run: seq<State<W>>, steps: seq<Step<W>>, i: nat)
    requires IsPath(run, steps) && NilSafe(run[0]) && i < |run|
    ensures NilSafe(run[i])
  {
    if i > 0 {
      NoPanicOnceSet(run, steps, i - 1);
    }
  }

  // A goroutine panics exactly when its Add loaded nil and another goroutine's first Add succeeded
  // before its compare-and-swap.
  lemma PanicsExactly<W>(run: seq<State<W>>, steps: seq<Step<W>>, i: nat, j: nat, t: Thread)
    requires IsPath(run, steps) && i < j < |steps| && steps[i] == Load(t) && t in run[i + 1].phases
    requires run[i + 1].phases[t].Loaded? && forall k :: i < k < j ==> steps[k].t != t
    requires steps[j].Cas? && steps[j].t == t && run[i].phases[t].op.Add?
    ensures t in run[j + 1].phases
    ensures run[j + 1].phases[t].Panicked? <==>
      run[i].group.None? && exists k :: i < k < j && steps[k].t != t && Succeeds(run[k], steps[k])
  {
    StillLoaded(run, steps, i, j, t);
    SameOp(run, steps, i, j, t);
    if !Succeeds(run[j], steps[j]) {
      var k := FailureMeansProgress(run, steps, i, j, t);
    } else if run[i].group.None? {
      forall k | i < k < j ensures !Succeeds(run[k], steps[k]) {
        if Succeeds(run[k], steps[k]) { StaysSet(run, steps, k + 1, j); }
      }
    }
  }

  lemma {:induction false} SameOp<W>(run: seq<State<W>>, steps: seq<Step<W>>, i: nat, j: nat, t: Thread)
    requires IsPath(run, steps) && i < j <= |steps| && steps[i] == Load(t) && t in run[i + 1].phases
    requires run[i + 1].phases[t].Loaded? && forall k :: i < k < j ==> steps[k].t != t
    ensures t in run[j].phases && run[j].phases[t].Loaded? && run[j].phases[t].op == run[i].phases[t].op
  {
    if j > i + 1 {
      SameOp(run, steps, i, j - 1, t);
      assert steps[j - 1].t != t;
    }
  }

  lemma {:induction false} StaysSet<W>(run: seq<State<W>>, steps: seq<Step<W>>, i: nat, j: nat)
    requires IsPath(run, steps) && i <= j <= |steps| && run[i].group.Some?
    ensures run[j].group.Some?
  {
    if i < j { StaysSet(run, steps, i, j - 1); }
  }

  // Two first Adds can race so: both load nil, one succeeds, the other panics.
  lemma FirstAddsRace<W>(v: W, w: W) returns (run: seq<State<W>>, steps: seq<Step<W>>)
    ensures IsPath(run, steps) && |steps| == 6 && Init(run[0])
    ensures 1 in run[6].phases && run[6].phases[1] == Panicked
  {
    var s0 := State(map[], None, map[0 := Idle, 1 := Idle]);
    steps := [Call(0, Add(v)), Call(1, Add(w)), Load(0), Load(1), Cas(0, 0), Cas(1, 1)];
    var s1 := s0.(phases := s0.phases[0 := Loading(Add(v))]);
    var s2 := s1.(phases := s1.phases[1 := Loading(Add(w))]);
    var s3 := s2.(phases := s2.phases[0 := Loaded(Add(v), None)]);
    var s4 := s3.(phases := s3.phases[1 := Loaded(Add(w), None)]);
    var s5 := State(map[0 := NewSlice(Add(v), [])], Some(0), s4.phases[0 := Idle]);
    var s6 := s5.(phases := s5.phases[1 := Panicked]);
    run := [s0, s1, s2, s3, s4, s5, s6];
  }
}
