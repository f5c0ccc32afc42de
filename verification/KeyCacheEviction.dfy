// The collectors of newCache: second-chance eviction of unused entries, its timing, and the offline
// switch.
module KeyCacheEviction {
  import opened Wrappers
  import opened KeyTypes
  import opened KeyCache

  // The step sets the Used flag of e: a hit, or the creation of the entry.
  predicate Marks(s: State, step: Step, e: EntryId) {
    (step.MarkUsed? && step.t in s.pcs && s.pcs[step.t].GetHit? && s.pcs[step.t].e == e) ||
    (step.Fetch? && step.newId == e)
  }

  // A sweep visits e.
  predicate Visits(s: State, step: Step, e: EntryId) {
    step.CowCas? && step.name in Cached(s) && Cached(s)[step.name] == e
  }

  predicate IsUsed(s: State, e: EntryId) { e in s.entries && s.entries[e].used }

  // ---------- a used entry gets a second chance ----------

  lemma {:induction false} UsedUntilVisited(c: Config, run: seq<State>, steps: seq<Step>, i: nat, j: nat, e: EntryId)
    requires IsPath(c, run, steps) && i <= j <= |steps| && IsUsed(run[i], e)
    requires forall k :: i <= k < j ==> !Visits(run[k], steps[k], e)
    ensures IsUsed(run[j], e)
  {
    if i < j {
      UsedUntilVisited(c, run, steps, i, j - 1, e);
      assert StepAt(c, run, steps, j - 1) && !Visits(run[j - 1], steps[j - 1], e);
    }
  }

  // The visit of an entry that was marked since the visit before it, or inserted and not visited
  // since, puts it among what the sweep keeps and clears its mark.
  lemma VisitKeepsMarked(c: Config, run: seq<State>, steps: seq<Step>, i: nat, j: nat, e: EntryId)
    requires IsPath(c, run, steps) && i < j < |steps|
    requires Marks(run[i], steps[i], e) && e in run[i + 1].entries
    requires forall k :: i < k < j ==> !Visits(run[k], steps[k], e)
    requires Visits(run[j], steps[j], e)
    ensures steps[j].t in run[j + 1].pcs
    ensures var pc := run[j + 1].pcs[steps[j].t];
      && pc.Writing? && pc.stage.Sweeping?
      && steps[j].name in pc.stage.kept && pc.stage.kept[steps[j].name] == e
    ensures !IsUsed(run[j + 1], e)
  {
    assert StepAt(c, run, steps, i) && StepAt(c, run, steps, j);
    UsedUntilVisited(c, run, steps, i + 1, j, e);
  }

  // ---------- an idle entry is gone after two sweeps ----------

  predicate CachedEntry(s: State, e: EntryId) {
    exists n :: n in Cached(s) && Cached(s)[n] == e
  }

  // No Set of e is under way: it was inserted before, if ever.
  predicate NotPending(s: State, e: EntryId) {
    forall t :: t in s.pcs && s.pcs[t].Writing? && PrePublish(s.pcs[t].stage) && s.pcs[t].op.PutEntry? ==>
        s.pcs[t].op.e != e
  }

  // If e is cached then its mark is off.
  predicate Aged(s: State, e: EntryId) { CachedEntry(s, e) ==> !IsUsed(s, e) }

  predicate InSweep(s: State, t: Thread) {
    t in s.pcs && s.pcs[t].Writing? && s.pcs[t].op.Sweep? && (s.pcs[t].stage.Sweeping? || s.pcs[t].stage.Finishing?)
  }

  predicate Keeps(stage: Stage, e: EntryId) {
    stage.Sweeping? && exists n :: n in stage.kept && stage.kept[n] == e
  }

  // During the first sweep: what it keeps of e it has unmarked.
  predicate FirstChance(s: State, t: Thread, e: EntryId) {
    InSweep(s, t) && (if s.pcs[t].stage.Sweeping? then Keeps(s.pcs[t].stage, e) ==> !IsUsed(s, e) else Aged(s, e))
  }

  // During the second one: it keeps nothing of e.
  predicate NoSecondChance(s: State, t: Thread, e: EntryId) {
    InSweep(s, t) && Aged(s, e) && (if s.pcs[t].stage.Sweeping? then !Keeps(s.pcs[t].stage, e) else !CachedEntry(s, e))
  }

  predicate Known(s: State, e: EntryId) { e in s.entries && NotPending(s, e) }

  lemma KnownStays(c: Config, s: State, step: Step, e: EntryId)
    requires Enabled(c, s, step) && Known(s, e)
    ensures Known(Apply(c, s, step), e)
  {
  }

  // An inserted entry that is not cached never comes back.
  lemma GoneStaysGone(c: Config, s: State, step: Step, e: EntryId)
    requires Inv(s) && Enabled(c, s, step) && Known(s, e) && !CachedEntry(s, e)
    ensures !CachedEntry(Apply(c, s, step), e)
  {
    var s' := Apply(c, s, step);
    assert ThreadOk(s, step.t);
    forall n | n in Cached(s') ensures Cached(s')[n] != e {
      if n in Cached(s) { assert Cached(s)[n] != e; }
    }
  }

  lemma {:induction false} GoneForGood(c: Config, run: seq<State>, steps: seq<Step>, i: nat, j: nat, e: EntryId)
    requires IsPath(c, run, steps) && Inv(run[0]) && i <= j <= |steps|
    requires Known(run[i], e) && !CachedEntry(run[i], e)
    ensures Known(run[j], e) && !CachedEntry(run[j], e)
  {
    if i < j {
      GoneForGood(c, run, steps, i, j - 1, e);
      PathKeepsInv(c, run, steps, j - 1);
      assert StepAt(c, run, steps, j - 1);
      KnownStays(c, run[j - 1], steps[j - 1], e);
      GoneStaysGone(c, run[j - 1], steps[j - 1], e);
    }
  }

  lemma AgedStays(c: Config, s: State, step: Step, e: EntryId)
    requires Inv(s) && Enabled(c, s, step) && Known(s, e) && Aged(s, e) && !Marks(s, step, e)
    ensures Aged(Apply(c, s, step), e)
  {
    if !CachedEntry(s, e) {
      GoneStaysGone(c, s, step, e);
    }
  }

  // Who holds the cache mutex sees nobody else change the cache.
  lemma OthersLeaveCache(c: Config, s: State, step: Step, t: Thread)
    requires Inv(s) && Enabled(c, s, step) && InSweep(s, t) && step.t != t
    ensures Cached(Apply(c, s, step)) == Cached(s) && !step.CowCas? && Apply(c, s, step).pcs[t] == s.pcs[t]
  {
    assert ThreadOk(s, t) && ThreadOk(s, step.t);
  }

  lemma VisitUnmarks(c: Config, s: State, t: Thread, n: Name, e: EntryId)
    requires Inv(s) && Enabled(c, s, CowCas(t, n)) && FirstChance(s, t, e)
    ensures FirstChance(Apply(c, s, CowCas(t, n)), t, e)
  {
    var s' := Apply(c, s, CowCas(t, n));
    if Keeps(s'.pcs[t].stage, e) {
      var m :| m in s'.pcs[t].stage.kept && s'.pcs[t].stage.kept[m] == e;
      if e != Cached(s)[n] {
        assert m in s.pcs[t].stage.kept && s.pcs[t].stage.kept[m] == e;
      }
    }
  }

  lemma VisitDrops(c: Config, s: State, t: Thread, n: Name, e: EntryId)
    requires Inv(s) && Enabled(c, s, CowCas(t, n)) && NoSecondChance(s, t, e)
    ensures NoSecondChance(Apply(c, s, CowCas(t, n)), t, e)
  {
    var s' := Apply(c, s, CowCas(t, n));
    assert Cached(s') == Cached(s);
    forall m | m in s'.pcs[t].stage.kept ensures s'.pcs[t].stage.kept[m] != e {
      if m in s.pcs[t].stage.kept && m != n {
        assert s.pcs[t].stage.kept[m] != e;
      }
    }
  }

  lemma KeptBecomesCached(c: Config, s: State, t: Thread, e: EntryId)
    requires Enabled(c, s, CowStore(t)) && InSweep(s, t)
    ensures CachedEntry(Apply(c, s, CowStore(t)), e) ==> Keeps(s.pcs[t].stage, e)
  {
    var s' := Apply(c, s, CowStore(t));
    if CachedEntry(s', e) {
      var n :| n in Cached(s') && Cached(s')[n] == e;
      assert n in s.pcs[t].stage.kept && s.pcs[t].stage.kept[n] == e;
    }
  }

  lemma SameCacheSameEntries(s: State, s': State, e: EntryId)
    requires Cached(s') == Cached(s)
    ensures CachedEntry(s', e) <==> CachedEntry(s, e)
  {
  }

  // The load that begins a sweep.
  lemma SweepBegins(c: Config, s: State, t: Thread, e: EntryId)
    requires Enabled(c, s, CowLoad(t)) && s.pcs[t] == Writing(Sweep, Holding)
    ensures FirstChance(Apply(c, s, CowLoad(t)), t, e)
    ensures Aged(s, e) ==> NoSecondChance(Apply(c, s, CowLoad(t)), t, e)
  {
    var s' := Apply(c, s, CowLoad(t));
    SameCacheSameEntries(s, s', e);
    assert s'.entries == s.entries;
    assert s.ptr.None? ==> !CachedEntry(s', e);
    assert s.ptr.Some? ==> s'.pcs[t].stage == Sweeping(Cached(s).Keys, map[]);
  }

  lemma FirstSweepStep(c: Config, s: State, step: Step, t: Thread, e: EntryId)
    requires Inv(s) && Enabled(c, s, step) && Known(s, e) && !Marks(s, step, e) && FirstChance(s, t, e)
    ensures if step == CowUnlock(t) then Aged(Apply(c, s, step), e) else FirstChance(Apply(c, s, step), t, e)
  {
    var s' := Apply(c, s, step);
    if step.t != t {
      OthersLeaveCache(c, s, step, t);
      assert IsUsed(s', e) ==> IsUsed(s, e);
      SameCacheSameEntries(s, s', e);
    } else if step.CowCas? {
      VisitUnmarks(c, s, t, step.name, e);
    } else if step.CowStore? {
      KeptBecomesCached(c, s, t, e);
    } else {
      assert ThreadOk(s, t);
      assert step.CowUnlock?;
      SameCacheSameEntries(s, s', e);
    }
  }

  lemma SecondSweepStep(c: Config, s: State, step: Step, t: Thread, e: EntryId)
    requires Inv(s) && Enabled(c, s, step) && Known(s, e) && !Marks(s, step, e) && NoSecondChance(s, t, e)
    ensures if step == CowUnlock(t) then !CachedEntry(Apply(c, s, step), e) else NoSecondChance(Apply(c, s, step), t, e)
  {
    var s' := Apply(c, s, step);
    AgedStays(c, s, step, e);
    if step.t != t {
      OthersLeaveCache(c, s, step, t);
      SameCacheSameEntries(s, s', e);
    } else if step.CowCas? {
      VisitDrops(c, s, t, step.name, e);
    } else if step.CowStore? {
      KeptBecomesCached(c, s, t, e);
    } else {
      assert ThreadOk(s, t);
      assert step.CowUnlock?;
      SameCacheSameEntries(s, s', e);
    }
  }

  // One call of the Unused collector's DeleteFunc by t: from its pointer load to its unlock.
  ghost predicate IsSweep(run: seq<State>, steps: seq<Step>, t: Thread, a: nat, b: nat)
    requires |run| == |steps| + 1
  {
    && a < b < |steps|
    && steps[a] == CowLoad(t) && t in run[a].pcs && run[a].pcs[t] == Writing(Sweep, Holding)
    && steps[b] == CowUnlock(t)
    && forall k :: a < k < b ==> steps[k] != CowUnlock(t)
  }

  predicate HasEntry(s: State, n: Name, e: EntryId) { n in Cached(s) && Cached(s)[n] == e }

  // The sweep of t is going to visit the entry, and will find it used, or has kept it.
  predicate WillKeep(s: State, t: Thread, n: Name, e: EntryId) {
    && InSweep(s, t) && HasEntry(s, n, e)
    && var stage := s.pcs[t].stage;
       stage.Sweeping? ==> (n in stage.todo && IsUsed(s, e)) || (n in stage.kept && stage.kept[n] == e)
  }

  predicate Unvisited(s: State, t: Thread, n: Name, e: EntryId) {
    InSweep(s, t) && HasEntry(s, n, e) && s.pcs[t].stage.Sweeping? && n in s.pcs[t].stage.todo
  }

  lemma VisitKeepsIt(c: Config, s: State, t: Thread, m: Name, n: Name, e: EntryId)
    requires Enabled(c, s, CowCas(t, m)) && CachedOk(s) && t in s.pcs && t in s.bar.phases && ThreadOk(s, t) &&
        WillKeep(s, t, n, e)
    ensures WillKeep(Apply(c, s, CowCas(t, m)), t, n, e)
  {
    assert m != n ==> Cached(s)[m] != e;
  }

  lemma WillKeepStays(c: Config, s: State, step: Step, t: Thread, n: Name, e: EntryId)
    requires Inv(s) && Enabled(c, s, step) && WillKeep(s, t, n, e)
    ensures if step == CowUnlock(t) then HasEntry(Apply(c, s, step), n, e) else WillKeep(Apply(c, s, step), t, n, e)
  {
    if step.t != t {
      OthersLeaveCache(c, s, step, t);
      assert IsUsed(s, e) ==> IsUsed(Apply(c, s, step), e);
    } else if step.CowCas? {
      assert ThreadOk(s, t);
      VisitKeepsIt(c, s, t, step.name, n, e);
    } else {
      assert ThreadOk(s, t) && Apply(c, s, step).entries == s.entries;
    }
  }

  lemma UnvisitedStays(c: Config, s: State, step: Step, t: Thread, n: Name, e: EntryId)
    requires Inv(s) && Enabled(c, s, step) && Unvisited(s, t, n, e) && !Visits(s, step, e)
    ensures Unvisited(Apply(c, s, step), t, n, e)
  {
    if step.t != t {
      OthersLeaveCache(c, s, step, t);
    } else {
      assert ThreadOk(s, t);
    }
  }

  lemma {:induction false} KeptFrom(c: Config, run: seq<State>, steps: seq<Step>, t: Thread, j: nat, b: nat, n: Name,
                                    e: EntryId)
    requires IsPath(c, run, steps) && Inv(run[0]) && j <= b < |steps| && steps[b] == CowUnlock(t)
    requires forall k :: j <= k < b ==> steps[k] != CowUnlock(t)
    requires WillKeep(run[j], t, n, e)
    ensures HasEntry(run[b + 1], n, e)
    decreases b - j
  {
    PathKeepsInv(c, run, steps, j);
    assert StepAt(c, run, steps, j);
    WillKeepStays(c, run[j], steps[j], t, n, e);
    if j < b { KeptFrom(c, run, steps, t, j + 1, b, n, e); }
  }

  lemma {:induction false} UnvisitedUntil(c: Config, run: seq<State>, steps: seq<Step>, t: Thread, j: nat, i: nat,
                                          n: Name, e: EntryId)
    requires IsPath(c, run, steps) && Inv(run[0]) && j <= i <= |steps| && Unvisited(run[j], t, n, e)
    requires forall k :: j <= k < i ==> !Visits(run[k], steps[k], e)
    ensures Unvisited(run[i], t, n, e)
  {
    if j < i {
      UnvisitedUntil(c, run, steps, t, j, i - 1, n, e);
      PathKeepsInv(c, run, steps, i - 1);
      assert StepAt(c, run, steps, i - 1) && !Visits(run[i - 1], steps[i - 1], e);
      UnvisitedStays(c, run[i - 1], steps[i - 1], t, n, e);
    }
  }

  lemma LoadListsAll(c: Config, s: State, t: Thread, n: Name, e: EntryId)
    requires Enabled(c, s, CowLoad(t)) && s.pcs[t] == Writing(Sweep, Holding) && HasEntry(s, n, e)
    ensures Unvisited(Apply(c, s, CowLoad(t)), t, n, e)
    ensures IsUsed(s, e) ==> WillKeep(Apply(c, s, CowLoad(t)), t, n, e)
  {
  }

  // An entry that is cached and used when a sweep begins is cached when it ends.
  lemma SweepKeepsUsed(c: Config, run: seq<State>, steps: seq<Step>, t: Thread, a: nat, b: nat, n: Name, e: EntryId)
    requires IsPath(c, run, steps) && Inv(run[0]) && IsSweep(run, steps, t, a, b)
    requires HasEntry(run[a], n, e) && IsUsed(run[a], e)
    ensures HasEntry(run[b + 1], n, e)
  {
    assert StepAt(c, run, steps, a);
    LoadListsAll(c, run[a], t, n, e);
    KeptFrom(c, run, steps, t, a + 1, b, n, e);
  }

  lemma MarkedIsUsed(c: Config, s: State, step: Step, e: EntryId)
    requires Enabled(c, s, step) && Marks(s, step, e) && e in Apply(c, s, step).entries
    ensures IsUsed(Apply(c, s, step), e) && !Visits(s, step, e)
  {
  }

  lemma MarkedDuringSweep(c: Config, run: seq<State>, steps: seq<Step>, i: nat, t: Thread, a: nat, b: nat, n: Name,
                          e: EntryId)
    requires IsPath(c, run, steps) && Inv(run[0]) && IsSweep(run, steps, t, a, b) && HasEntry(run[a], n, e) && a < i < b
    requires IsUsed(run[i + 1], e) && !Visits(run[i], steps[i], e)
    requires forall k :: a < k < i ==> !Visits(run[k], steps[k], e)
    ensures HasEntry(run[b + 1], n, e)
  {
    assert StepAt(c, run, steps, a);
    LoadListsAll(c, run[a], t, n, e);
    UnvisitedUntil(c, run, steps, t, a + 1, i + 1, n, e);
    KeptFrom(c, run, steps, t, i + 1, b, n, e);
  }

  // A sweep never removes an entry that was marked or inserted since the previous sweep visited it:
  // neither before this sweep began, nor while it ran but had not reached the entry.
  lemma SweepKeepsMarked(c: Config, run: seq<State>, steps: seq<Step>, i: nat, t: Thread, a: nat, b: nat, n: Name,
                         e: EntryId)
    requires IsPath(c, run, steps) && Inv(run[0]) && IsSweep(run, steps, t, a, b) && HasEntry(run[a], n, e)
    requires i < a || a < i < b
    requires Marks(run[i], steps[i], e) && e in run[i + 1].entries
    requires forall k :: i < k < a || a < k < i ==> !Visits(run[k], steps[k], e)
    ensures HasEntry(run[b + 1], n, e)
  {
    assert StepAt(c, run, steps, i);
    MarkedIsUsed(c, run[i], steps[i], e);
    if i < a {
      UsedUntilVisited(c, run, steps, i + 1, a, e);
      SweepKeepsUsed(c, run, steps, t, a, b, n, e);
    } else {
      MarkedDuringSweep(c, run, steps, i, t, a, b, n, e);
    }
  }

  // Nothing marks e at steps i to j - 1.
  ghost predicate IdleBetween(run: seq<State>, steps: seq<Step>, e: EntryId, i: nat, j: nat)
    requires |run| == |steps| + 1
  {
    forall k :: i <= k < j && k < |steps| ==> !Marks(run[k], steps[k], e)
  }

  lemma {:induction false} KnownFrom(c: Config, run: seq<State>, steps: seq<Step>, e: EntryId, i: nat, j: nat)
    requires IsPath(c, run, steps) && i <= j <= |steps| && Known(run[i], e)
    ensures Known(run[j], e)
  {
    if i < j {
      KnownFrom(c, run, steps, e, i, j - 1);
      assert StepAt(c, run, steps, j - 1);
      KnownStays(c, run[j - 1], steps[j - 1], e);
    }
  }

  // One step of the run, seen by a sweep that is under way.
  lemma SweepAdvances(c: Config, run: seq<State>, steps: seq<Step>, e: EntryId, t: Thread, a: nat, k: nat)
    requires IsPath(c, run, steps) && a <= k < |steps| && Inv(run[0]) && Known(run[a], e)
    requires !Marks(run[k], steps[k], e) && steps[k] != CowUnlock(t)
    ensures FirstChance(run[k], t, e) ==> FirstChance(run[k + 1], t, e)
    ensures NoSecondChance(run[k], t, e) ==> NoSecondChance(run[k + 1], t, e)
  {
    PathKeepsInv(c, run, steps, k);
    KnownFrom(c, run, steps, e, a, k);
    assert StepAt(c, run, steps, k);
    if FirstChance(run[k], t, e) { FirstSweepStep(c, run[k], steps[k], t, e); }
    if NoSecondChance(run[k], t, e) { SecondSweepStep(c, run[k], steps[k], t, e); }
  }

  lemma SweepStarts(c: Config, run: seq<State>, steps: seq<Step>, e: EntryId, t: Thread, a: nat, b: nat)
    requires IsPath(c, run, steps) && IsSweep(run, steps, t, a, b)
    ensures FirstChance(run[a + 1], t, e)
    ensures Aged(run[a], e) ==> NoSecondChance(run[a + 1], t, e)
  {
    assert StepAt(c, run, steps, a);
    SweepBegins(c, run[a], t, e);
  }

  lemma {:induction false} DuringFirstSweep(c: Config, run: seq<State>, steps: seq<Step>, e: EntryId, t: Thread,
                                            a: nat, b: nat, k: nat)
    requires IsPath(c, run, steps) && Inv(run[0]) && IsSweep(run, steps, t, a, b) && a < k <= b
    requires Known(run[a], e) && IdleBetween(run, steps, e, a, b)
    ensures FirstChance(run[k], t, e)
  {
    if k == a + 1 {
      SweepStarts(c, run, steps, e, t, a, b);
    } else {
      DuringFirstSweep(c, run, steps, e, t, a, b, k - 1);
      SweepAdvances(c, run, steps, e, t, a, k - 1);
    }
  }

  lemma {:induction false} AgedBetween(c: Config, run: seq<State>, steps: seq<Step>, e: EntryId, i: nat, j: nat)
    requires IsPath(c, run, steps) && Inv(run[0]) && i <= j <= |steps|
    requires Known(run[i], e) && IdleBetween(run, steps, e, i, j) && Aged(run[i], e)
    ensures Known(run[j], e) && Aged(run[j], e)
  {
    if i < j {
      AgedBetween(c, run, steps, e, i, j - 1);
      PathKeepsInv(c, run, steps, j - 1);
      assert StepAt(c, run, steps, j - 1);
      KnownStays(c, run[j - 1], steps[j - 1], e);
      AgedStays(c, run[j - 1], steps[j - 1], e);
    }
  }

  lemma {:induction false} DuringSecondSweep(c: Config, run: seq<State>, steps: seq<Step>, e: EntryId, t: Thread,
                                             a: nat, b: nat, k: nat)
    requires IsPath(c, run, steps) && Inv(run[0]) && IsSweep(run, steps, t, a, b) && a < k <= b
    requires Known(run[a], e) && Aged(run[a], e) && IdleBetween(run, steps, e, a, b)
    ensures NoSecondChance(run[k], t, e)
  {
    if k == a + 1 {
      SweepStarts(c, run, steps, e, t, a, b);
    } else {
      DuringSecondSweep(c, run, steps, e, t, a, b, k - 1);
      SweepAdvances(c, run, steps, e, t, a, k - 1);
    }
  }

  lemma FirstSweepAges(c: Config, run: seq<State>, steps: seq<Step>, e: EntryId, t: Thread, a: nat, b: nat)
    requires IsPath(c, run, steps) && Inv(run[0]) && IsSweep(run, steps, t, a, b)
    requires Known(run[a], e) && IdleBetween(run, steps, e, a, b + 1)
    ensures Known(run[b + 1], e) && Aged(run[b + 1], e)
  {
    DuringFirstSweep(c, run, steps, e, t, a, b, b);
    PathKeepsInv(c, run, steps, b);
    KnownFrom(c, run, steps, e, a, b);
    assert StepAt(c, run, steps, b);
    FirstSweepStep(c, run[b], steps[b], t, e);
    KnownStays(c, run[b], steps[b], e);
  }

  lemma SecondSweepDrops(c: Config, run: seq<State>, steps: seq<Step>, e: EntryId, t: Thread, a: nat, b: nat)
    requires IsPath(c, run, steps) && Inv(run[0]) && IsSweep(run, steps, t, a, b)
    requires Known(run[a], e) && Aged(run[a], e) && IdleBetween(run, steps, e, a, b + 1)
    ensures Known(run[b + 1], e) && !CachedEntry(run[b + 1], e)
  {
    DuringSecondSweep(c, run, steps, e, t, a, b, b);
    PathKeepsInv(c, run, steps, b);
    KnownFrom(c, run, steps, e, a, b);
    assert StepAt(c, run, steps, b);
    SecondSweepStep(c, run[b], steps[b], t, e);
    KnownStays(c, run[b], steps[b], e);
  }

  // An entry that nobody marks during two sweeps, one after the other, is not cached after the
  // second one, and never again, whatever else happens concurrently.
  lemma TwoSweepsEvict(c: Config, run: seq<State>, steps: seq<Step>, e: EntryId,
                       t: Thread, a: nat, b: nat, u: Thread, a': nat, b': nat, j: nat)
    requires IsPath(c, run, steps) && Inv(run[0])
    requires IsSweep(run, steps, t, a, b) && IsSweep(run, steps, u, a', b') && b < a' && b' < j <= |steps|
    requires Known(run[a], e) && IdleBetween(run, steps, e, a, b' + 1)
    ensures !CachedEntry(run[j], e)
  {
    FirstSweepAges(c, run, steps, e, t, a, b);
    AgedBetween(c, run, steps, e, b + 1, a');
    SecondSweepDrops(c, run, steps, e, u, a', b');
    GoneForGood(c, run, steps, b' + 1, j, e);
  }

  // ---------- timing ----------

  datatype Tick = Tick(t: Thread, a: nat, b: nat)

  // Times never go back, and the m-th tick of the Unused collector, at start + (m + 1) * interval,
  // sweeps at that instant, for every tick up to the end of the run.
  ghost predicate IdealTicks(run: seq<State>, steps: seq<Step>, times: seq<int>, start: int, interval: int,
                             ticks: seq<Tick>)
    requires |run| == |steps| + 1
  {
    && |times| == |run|
    && (forall i, j :: 0 <= i <= j < |times| ==> times[i] <= times[j])
    && (forall m :: 0 <= m < |ticks| ==>
          && IsSweep(run, steps, ticks[m].t, ticks[m].a, ticks[m].b)
          && times[ticks[m].a] == times[ticks[m].b + 1] == start + (m + 1) * interval)
    && (forall m :: 0 < m < |ticks| ==> ticks[m - 1].b < ticks[m].a)
    && times[|steps|] < start + (|ticks| + 1) * interval
  }

  // Two ticks fall into every window of two intervals.
  lemma TicksInWindow(start: int, interval: int, since: int) returns (m: nat)
    requires interval > 0 && start <= since
    ensures since < start + (m + 1) * interval <= since + interval
    ensures since + interval < start + (m + 2) * interval <= since + 2 * interval
  {
    m := (since - start) / interval;
    assert m * interval <= since - start < (m + 1) * interval;
  }

  lemma TimesOrder(times: seq<int>, i: nat, j: nat)
    requires forall i, j :: 0 <= i <= j < |times| ==> times[i] <= times[j]
    requires i < |times| && j < |times|
    ensures times[i] > times[j] ==> i > j
    ensures i >= j ==> times[i] >= times[j]
  {
  }

  lemma Monotone(x: int, y: int, k: int)
    ensures k > 0 && x <= y ==> x * k <= y * k
  {
  }

  lemma TwoTicks(run: seq<State>, steps: seq<Step>, times: seq<int>, start: int, interval: int, ticks: seq<Tick>,
                 since: int, i: nat, j: nat) returns (m: nat)
    requires |run| == |steps| + 1 && interval > 0 && IdealTicks(run, steps, times, start, interval, ticks)
    requires start <= since && i <= j <= |steps| && times[i] <= since && times[j] > since + 2 * interval
    ensures m + 1 < |ticks| && i <= ticks[m].a && ticks[m + 1].b < j
    ensures times[ticks[m].a] > since
  {
    m := TicksInWindow(start, interval, since);
    TimesOrder(times, j, |steps|);
    Monotone(|ticks| + 1, m + 2, interval);
    var x, y := ticks[m], ticks[m + 1];
    assert times[x.a] == start + (m + 1) * interval && times[y.b + 1] == start + (m + 1 + 1) * interval;
    TimesOrder(times, j, y.b + 1);
    TimesOrder(times, x.a, i);
  }

  lemma IdleLater(run: seq<State>, steps: seq<Step>, times: seq<int>, e: EntryId, since: int, i: nat, j: nat)
    requires |times| == |run| == |steps| + 1 && i < |times| && times[i] > since
    requires forall i, j :: 0 <= i <= j < |times| ==> times[i] <= times[j]
    requires forall k :: 0 <= k < |steps| && times[k + 1] > since ==> !Marks(run[k], steps[k], e)
    ensures IdleBetween(run, steps, e, i, j)
  {
    forall k | i <= k < j && k < |steps| ensures !Marks(run[k], steps[k], e) {
      assert times[i] <= times[k + 1];
    }
  }

  // An entry inserted by time `since` and not used after it is gone at every later moment than
  // since + 2 * interval, which is at most since + ExpiryUnused.
  lemma IdleEntryExpires(c: Config, run: seq<State>, steps: seq<Step>, times: seq<int>, start: int, ticks: seq<Tick>,
                         e: EntryId, since: int, i: nat, j: nat)
    requires IsPath(c, run, steps) && Inv(run[0])
    requires c.expiryUnused / 2 > 0
    requires IdealTicks(run, steps, times, start, c.expiryUnused / 2, ticks)
    requires start <= since && i <= j <= |steps| && times[i] <= since && Known(run[i], e)
    requires forall k :: 0 <= k < |steps| && times[k + 1] > since ==> !Marks(run[k], steps[k], e)
    requires times[j] > since + 2 * (c.expiryUnused / 2)
    ensures !CachedEntry(run[j], e)
    ensures since + 2 * (c.expiryUnused / 2) <= since + c.expiryUnused
  {
    var m := TwoTicks(run, steps, times, start, c.expiryUnused / 2, ticks, since, i, j);
    var x, y := ticks[m], ticks[m + 1];
    KnownFrom(c, run, steps, e, i, x.a);
    IdleLater(run, steps, times, e, since, x.a, y.b + 1);
    TwoSweepsEvict(c, run, steps, e, x.t, x.a, x.b, y.t, y.a, y.b, j);
  }

  // ---------- the offline switch ----------

  // A collector's update is under way.
  predicate Collecting(pc: PC, who: Collector) {
    pc.Writing? && (pc.op == DropAll(who) || (who.Unused? && pc.op.Sweep?))
  }

  predicate AnyCollecting(s: State, who: Collector) {
    exists t :: t in s.pcs && Collecting(s.pcs[t], who)
  }

  // A collector starts only when its test of the flag passes.
  lemma CollectorStarts(c: Config, s: State, step: Step, who: Collector)
    requires Enabled(c, s, step) && !AnyCollecting(s, who) && !Collects(c, who, s.offline)
    ensures !AnyCollecting(Apply(c, s, step), who)
  {
    var s' := Apply(c, s, step);
    forall t | t in s'.pcs ensures !Collecting(s'.pcs[t], who) {
      assert !Collecting(s.pcs[t], who);
    }
  }

  // While its test of the offline flag fails, a collector that was not already at work touches
  // nothing: the General and the Unused collector during an outage with ExpiryOffline > 0, the
  // Offline collector while online or with ExpiryOffline <= 0.
  lemma {:induction false} CollectorRests(c: Config, run: seq<State>, steps: seq<Step>, who: Collector, i: nat)
    requires IsPath(c, run, steps) && i <= |steps|
    requires forall k :: 0 <= k < |run| ==> !Collects(c, who, run[k].offline)
    requires !AnyCollecting(run[0], who)
    ensures !AnyCollecting(run[i], who)
  {
    if i > 0 {
      CollectorRests(c, run, steps, who, i - 1);
      assert StepAt(c, run, steps, i - 1);
      CollectorStarts(c, run[i - 1], steps[i - 1], who);
    }
  }

  // No update under way takes n out of the cache or visits its entry.
  predicate Undisturbing(pc: PC, n: Name) {
    pc.Writing? ==> !pc.op.Sweep? && !pc.op.DropAll? && pc.op != DropName(n)
  }

  predicate Undisturbed(s: State, n: Name) {
    forall t :: t in s.pcs ==> Undisturbing(s.pcs[t], n)
  }

  // A collector starts to collect, or a Delete of n starts.
  predicate Disturbs(c: Config, s: State, step: Step, n: Name) {
    (step.Tick? && Collects(c, step.who, s.offline)) || (step.DeleteStart? && step.name == n)
  }

  lemma UndisturbedStays(c: Config, s: State, step: Step, n: Name)
    requires Enabled(c, s, step) && Undisturbed(s, n) && !Disturbs(c, s, step, n)
    ensures Undisturbed(Apply(c, s, step), n)
  {
    var s' := Apply(c, s, step);
    assert Undisturbing(s.pcs[step.t], n);
    forall t | t in s'.pcs ensures Undisturbing(s'.pcs[t], n) {
      assert Undisturbing(s.pcs[t], n);
    }
  }

  lemma StepKeepsEntry(c: Config, s: State, step: Step, n: Name)
    requires Inv(s) && Enabled(c, s, step) && n in Cached(s) && Undisturbed(s, n)
    ensures var s', e := Apply(c, s, step), Cached(s)[n];
      n in Cached(s') && Cached(s')[n] == e && (IsUsed(s, e) ==> IsUsed(s', e))
  {
    assert ThreadOk(s, step.t);
    assert Undisturbing(s.pcs[step.t], n);
  }

  // Until a collector collects or a Delete of the name starts, an entry stays cached, its mark does
  // not age, and a Get of it hits.
  lemma {:induction false} EntryStays(c: Config, run: seq<State>, steps: seq<Step>, n: Name, e: EntryId, i: nat)
    requires IsPath(c, run, steps) && Inv(run[0]) && i <= |steps|
    requires forall k :: 0 <= k < i ==> !Disturbs(c, run[k], steps[k], n)
    requires HasEntry(run[0], n, e) && Undisturbed(run[0], n)
    ensures HasEntry(run[i], n, e) && Undisturbed(run[i], n)
    ensures IsUsed(run[0], e) ==> IsUsed(run[i], e)
    ensures forall t :: Enabled(c, run[i], GetStart(t, n)) ==>
        Apply(c, run[i], GetStart(t, n)).pcs[t] == GetHit(n, e, false)
  {
    if i > 0 {
      EntryStays(c, run, steps, n, e, i - 1);
      PathKeepsInv(c, run, steps, i - 1);
      assert StepAt(c, run, steps, i - 1) && !Disturbs(c, run[i - 1], steps[i - 1], n);
      StepKeepsEntry(c, run[i - 1], steps[i - 1], n);
      UndisturbedStays(c, run[i - 1], steps[i - 1], n);
    }
  }

  // Throughout an outage with ExpiryOffline > 0, a cached name that nobody deletes stays cached with
  // the same entry, its mark does not age, and a Get of it hits, as long as no offline tick comes.
  lemma OutageKeepsEntry(c: Config, run: seq<State>, steps: seq<Step>, n: Name, e: EntryId, i: nat)
    requires IsPath(c, run, steps) && Inv(run[0]) && i <= |steps| && c.expiryOffline > 0
    requires forall k :: 0 <= k < |run| ==> run[k].offline
    requires forall k :: 0 <= k < |steps| ==>
      !(steps[k].Tick? && steps[k].who.Offline?) && !(steps[k].DeleteStart? && steps[k].name == n)
    requires HasEntry(run[0], n, e) && Undisturbed(run[0], n)
    ensures HasEntry(run[i], n, e) && Undisturbed(run[i], n)
    ensures IsUsed(run[0], e) ==> IsUsed(run[i], e)
    ensures forall t :: Enabled(c, run[i], GetStart(t, n)) ==>
        Apply(c, run[i], GetStart(t, n)).pcs[t] == GetHit(n, e, false)
  {
    forall k | 0 <= k < i ensures !Disturbs(c, run[k], steps[k], n) {
      assert run[k].offline;
    }
    EntryStays(c, run, steps, n, e, i);
  }

  // A stale entry lives on until then, too, unless the name is created anew.
  lemma {:induction false} StaleUntilCollected(c: Config, run: seq<State>, steps: seq<Step>, n: Name, e: EntryId,
                                               i: nat)
    requires IsPath(c, run, steps) && Inv(run[0]) && i <= |steps|
    requires forall k :: 0 <= k < i ==>
        !Disturbs(c, run[k], steps[k], n) && !(steps[k].CreateStart? && steps[k].name == n)
    requires HasEntry(run[0], n, e) && n !in run[0].store && Undisturbed(run[0], n)
    ensures HasEntry(run[i], n, e) && n !in run[i].store
  {
    EntryStays(c, run, steps, n, e, i);
    if i > 0 {
      StaleUntilCollected(c, run, steps, n, e, i - 1);
      assert StepAt(c, run, steps, i - 1);
    }
  }
}
