// When the cache agrees with the key store, and exactly when it stops to.
module KeyCacheCoherence {
  import opened Wrappers
  import opened KeyTypes
  import opened KeyCache

  // The entry decodes what the store holds now.
  predicate Fresh(c: Config, s: State, n: Name, e: EntryId) {
    e in s.entries && n in s.store && c.parse(s.store[n]) == Some(s.entries[e].key)
  }

  // A Delete of n is between its store step and its cache step.
  predicate Dropping(pc: PC, n: Name) {
    pc.Writing? && pc.op == DropName(n) && PrePublish(pc.stage)
  }

  predicate DropPending(s: State, n: Name) {
    exists t :: t in s.pcs && Dropping(s.pcs[t], n)
  }

  // A Get has read n from the store and has not locked the cache for its Set.
  predicate Fetched(pc: PC, n: Name) {
    pc.Writing? && pc.op.PutEntry? && pc.op.name == n && pc.stage.Want?
  }

  predicate DeletesFromStore(s: State, step: Step) {
    step.DeleteStart? && !step.down && step.name in s.store
  }

  // No store delete of a name lands between another goroutine's read of it and its cache Set.
  predicate Clean(s: State, step: Step) {
    DeletesFromStore(s, step) ==> forall t :: t in s.pcs ==> !Fetched(s.pcs[t], step.name)
  }

  predicate Coherent(c: Config, s: State) {
    forall n :: n in Cached(s) ==> Fresh(c, s, n, Cached(s)[n]) || DropPending(s, n)
  }

  predicate SetterOk(c: Config, s: State, pc: PC) {
    pc.Writing? && pc.op.PutEntry? && PrePublish(pc.stage) ==>
      Fresh(c, s, pc.op.name, pc.op.e) || (!pc.stage.Want? && DropPending(s, pc.op.name))
  }

  predicate CoherenceInv(c: Config, s: State) {
    Coherent(c, s) && forall t :: t in s.pcs ==> SetterOk(c, s, s.pcs[t])
  }

  // ---------- sufficient ----------

  lemma FreshStays(c: Config, s: State, step: Step, n: Name, e: EntryId)
    requires Enabled(c, s, step) && Fresh(c, s, n, e)
    requires DeletesFromStore(s, step) ==> step.name != n
    ensures Fresh(c, Apply(c, s, step), n, e)
  {
  }

  lemma DropStays(c: Config, s: State, step: Step, n: Name)
    requires Enabled(c, s, step) && DropPending(s, n)
    requires Dropping(s.pcs[step.t], n) ==> !step.CowStore? && (step.CowLoad? ==> n in Cached(s))
    ensures DropPending(Apply(c, s, step), n)
  {
    var s' := Apply(c, s, step);
    var t :| t in s.pcs && Dropping(s.pcs[t], n);
    assert Dropping(s'.pcs[t], n);
  }

  lemma DeleteIsPending(c: Config, s: State, step: Step)
    requires Enabled(c, s, step) && DeletesFromStore(s, step)
    ensures DropPending(Apply(c, s, step), step.name)
  {
    assert Dropping(Apply(c, s, step).pcs[step.t], step.name);
  }

  // An entry that was fresh or about to be dropped still is, unless this step takes it out.
  lemma AccountedStays(c: Config, s: State, step: Step, n: Name, e: EntryId)
    requires Inv(s) && Enabled(c, s, step)
    requires Fresh(c, s, n, e) || DropPending(s, n)
    requires Dropping(s.pcs[step.t], n) && (step.CowStore? || step.CowLoad?) ==> step.CowLoad? && n in Cached(s)
    ensures Fresh(c, Apply(c, s, step), n, e) || DropPending(Apply(c, s, step), n)
  {
    if DeletesFromStore(s, step) && step.name == n {
      DeleteIsPending(c, s, step);
    } else if Fresh(c, s, n, e) {
      FreshStays(c, s, step, n, e);
    } else {
      DropStays(c, s, step, n);
    }
  }

  lemma CachedStaysAccounted(c: Config, s: State, step: Step, n: Name)
    requires Inv(s) && CoherenceInv(c, s) && Enabled(c, s, step)
    requires n in Cached(Apply(c, s, step))
    ensures var s' := Apply(c, s, step); Fresh(c, s', n, Cached(s')[n]) || DropPending(s', n)
  {
    var s' := Apply(c, s, step);
    var pc := s.pcs[step.t];
    assert ThreadOk(s, step.t);
    if step.CowStore? && pc.op.PutEntry? && pc.op.name == n {
      assert SetterOk(c, s, pc);
      AccountedStays(c, s, step, n, pc.op.e);
    } else {
      assert n in Cached(s) && Cached(s')[n] == Cached(s)[n];
      AccountedStays(c, s, step, n, Cached(s)[n]);
    }
  }

  lemma SetterStaysOk(c: Config, s: State, step: Step, u: Thread)
    requires Inv(s) && CoherenceInv(c, s) && Enabled(c, s, step) && Clean(s, step) && u in s.pcs
    ensures var s' := Apply(c, s, step); SetterOk(c, s', s'.pcs[u])
  {
    var s' := Apply(c, s, step);
    var pc, pc' := s.pcs[u], s'.pcs[u];
    assert ThreadOk(s, u) && ThreadOk(s, step.t);
    if pc'.Writing? && pc'.op.PutEntry? && PrePublish(pc'.stage) {
      if step.Fetch? && u == step.t {
      } else if Fetched(pc', pc'.op.name) {
        assert SetterOk(c, s, pc);
        FreshStays(c, s, step, pc.op.name, pc.op.e);
      } else {
        assert SetterOk(c, s, pc);
        assert step.t != u ==> s.mu == Some(u);
        AccountedStays(c, s, step, pc.op.name, pc.op.e);
      }
    }
  }

  lemma CleanStepKeepsCoherence(c: Config, s: State, step: Step)
    requires Inv(s) && CoherenceInv(c, s) && Enabled(c, s, step) && Clean(s, step)
    ensures CoherenceInv(c, Apply(c, s, step))
  {
    var s' := Apply(c, s, step);
    forall n | n in Cached(s') ensures Fresh(c, s', n, Cached(s')[n]) || DropPending(s', n) {
      CachedStaysAccounted(c, s, step, n);
    }
    forall u | u in s'.pcs ensures SetterOk(c, s', s'.pcs[u]) {
      SetterStaysOk(c, s, step, u);
    }
  }

  ghost predicate CleanPath(run: seq<State>, steps: seq<Step>)
    requires |run| == |steps| + 1
  {
    forall i :: 0 <= i < |steps| ==> Clean(run[i], steps[i])
  }

  lemma CleanStepAt(c: Config, run: seq<State>, steps: seq<Step>, i: nat)
    requires IsPath(c, run, steps) && CleanPath(run, steps) && i < |steps|
    requires Inv(run[i]) && CoherenceInv(c, run[i])
    ensures Inv(run[i + 1]) && CoherenceInv(c, run[i + 1])
  {
    assert StepAt(c, run, steps, i) && Clean(run[i], steps[i]);
    StepKeepsInv(c, run[i], steps[i]);
    CleanStepKeepsCoherence(c, run[i], steps[i]);
  }

  lemma {:induction false} CleanPathKeepsCoherence(c: Config, run: seq<State>, steps: seq<Step>, i: nat)
    requires IsPath(c, run, steps) && CleanPath(run, steps) && i < |run|
    requires Inv(run[0]) && CoherenceInv(c, run[0])
    ensures Inv(run[i]) && CoherenceInv(c, run[i])
  {
    if i > 0 {
      CleanPathKeepsCoherence(c, run, steps, i - 1);
      CleanStepAt(c, run, steps, i - 1);
    }
  }

  // In every run without such a delete, every cached entry is the store's current value or is about
  // to be dropped by the Delete that changed the store.
  lemma CleanRunIsCoherent(c: Config, run: seq<State>, steps: seq<Step>, i: nat)
    requires IsRun(c, run, steps) && CleanPath(run, steps) && i < |run|
    ensures Coherent(c, run[i])
  {
    InitInv(run[0]);
    CleanPathKeepsCoherence(c, run, steps, i);
  }
}
