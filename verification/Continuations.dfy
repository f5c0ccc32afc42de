// Following the continuation of a page: the returned name is the prefix of the next call.
module Continuations {
  import opened Names
  import L = Listing
  import M = MemKeyStoreClass

  ghost predicate StrictlySorted(s: seq<Name>) {
    forall i, j :: 0 <= i < j < |s| ==> Leq(s[i], s[j]) && s[i] != s[j]
  }

  // The two implementations of List.
  datatype Lister = Memory | Backend

  function PageOf(lister: Lister, sorted: seq<Name>, prefix: Name, n: int): (k: nat)
    requires n >= 1
    ensures k <= |Matching(sorted, prefix)| && (Matching(sorted, prefix) != [] ==> k >= 1)
  {
    var m := |Matching(sorted, prefix)|;
    match lister
    case Memory => M.MemPageLength(m, n)
    case Backend => L.PageLength(m, L.AtEnd(sorted, prefix), prefix, n)
  }

  lemma {:induction false} MatchingStrict(s: seq<Name>, p: Name)
    requires StrictlySorted(s)
    ensures StrictlySorted(Matching(s, p))
  {
    if s != [] {
      MatchingStrict(s[1..], p);
      MatchingMembers(s[1..], p);
      var rest := Matching(s[1..], p);
      forall i | 0 <= i < |rest| ensures Leq(s[0], rest[i]) && s[0] != rest[i] {
        assert rest[i] in rest;
      }
    }
  }

  // No name before the k-th one of a list without duplicates starts with it.
  lemma NoneStartsWithLater(m: seq<Name>, k: nat)
    requires StrictlySorted(m) && k < |m|
    ensures Matching(m, m[k]) == Matching(m[k..], m[k])
  {
    assert m == m[..k] + m[k..];
    MatchingAppend(m[..k], m[k..], m[k]);
    forall i | 0 <= i < |m[..k]| ensures !(m[k] <= m[..k][i]) {
      if m[k] <= m[i] {
        PrefixIsLeq(m[k], m[i]);
        LeqAntisymmetric(m[k], m[i]);
      }
    }
    MatchingNone(m[..k], m[k]);
  }

  // The names that start with the k-th match are among the k-th and later matches.
  lemma NextMatches(s: seq<Name>, p: Name, k: nat)
    requires StrictlySorted(s) && k < |Matching(s, p)|
    ensures var m := Matching(s, p); Matching(s, m[k]) == Matching(m[k..], m[k]) && |Matching(s, m[k])| <= |m| - k
  {
    var m := Matching(s, p);
    MatchingStrict(s, p);
    MatchingMembers(s, p);
    assert m[k] in m;
    MatchingTwice(s, p, m[k]);
    NoneStartsWithLater(m, k);
    MatchingShrinks(m[k..], m[k]);
  }

  lemma {:induction false} MatchingTwice(s: seq<Name>, p: Name, q: Name)
    requires p <= q
    ensures Matching(s, q) == Matching(Matching(s, p), q)
  {
    if s != [] {
      MatchingTwice(s[1..], p, q);
      MatchingAppend(if p <= s[0] then [s[0]] else [], Matching(s[1..], p), q);
    }
  }

  lemma {:induction false} MatchingShrinks(s: seq<Name>, p: Name)
    ensures |Matching(s, p)| <= |s|
  {
    if s != [] { MatchingShrinks(s[1..], p); }
  }

  // A continuation is never the empty name, with which List says that there is none.
  lemma ContinuationIsNotEmpty(sorted: seq<Name>, prefix: Name, k: nat)
    requires StrictlySorted(sorted) && 1 <= k < |Matching(sorted, prefix)|
    ensures Matching(sorted, prefix)[k] != ""
  {
    MatchingStrict(sorted, prefix);
    var m := Matching(sorted, prefix);
    assert Leq(m[0], m[k]) && m[0] != m[k];
  }

  // What a call returns as its continuation.
  function NextOf(m: seq<Name>, k: nat): Name { if k < |m| then m[k] else "" }

  // All names listed by following continuations from a prefix until there is none, on an unchanged
  // store of distinct names. That this is a function says that the chain ends.
  ghost function Followed(lister: Lister, sorted: seq<Name>, prefix: Name, n: int): seq<Name>
    requires StrictlySorted(sorted) && n >= 1
    decreases |Matching(sorted, prefix)|
  {
    var m, k := Matching(sorted, prefix), PageOf(lister, sorted, prefix, n);
    var next := NextOf(m, k);
    if next != "" then
      NextMatches(sorted, prefix, k);
      m[..k] + Followed(lister, sorted, next, n)
    else m[..k]
  }

  // The chain goes on exactly while names are left out.
  lemma FollowedStep(lister: Lister, sorted: seq<Name>, prefix: Name, n: int)
    requires StrictlySorted(sorted) && n >= 1
    ensures var m, k := Matching(sorted, prefix), PageOf(lister, sorted, prefix, n);
      Followed(lister, sorted, prefix, n) == if k < |m| then m[..k] + Followed(lister, sorted, m[k], n) else m
  {
    var m, k := Matching(sorted, prefix), PageOf(lister, sorted, prefix, n);
    if k < |m| {
      ContinuationIsNotEmpty(sorted, prefix, k);
    } else {
      assert m[..k] == m;
    }
  }

  lemma {:induction false} FollowedMatches(lister: Lister, sorted: seq<Name>, prefix: Name, n: int)
    requires StrictlySorted(sorted) && n >= 1
    ensures forall x :: x in Followed(lister, sorted, prefix, n) ==> x in Matching(sorted, prefix)
    decreases |Matching(sorted, prefix)|
  {
    FollowedStep(lister, sorted, prefix, n);
    var m, k := Matching(sorted, prefix), PageOf(lister, sorted, prefix, n);
    if k < |m| {
      NextMatches(sorted, prefix, k);
      FollowedMatches(lister, sorted, m[k], n);
      MatchingMembers(m[k..], m[k]);
    }
  }

  // The chain never repeats a name and never goes back.
  lemma {:induction false} FollowedIsIncreasing(lister: Lister, sorted: seq<Name>, prefix: Name, n: int)
    requires StrictlySorted(sorted) && n >= 1
    ensures StrictlySorted(Followed(lister, sorted, prefix, n))
    decreases |Matching(sorted, prefix)|
  {
    FollowedStep(lister, sorted, prefix, n);
    var m, k := Matching(sorted, prefix), PageOf(lister, sorted, prefix, n);
    MatchingStrict(sorted, prefix);
    if k < |m| {
      NextMatches(sorted, prefix, k);
      FollowedIsIncreasing(lister, sorted, m[k], n);
      FollowedMatches(lister, sorted, m[k], n);
      MatchingMembers(m[k..], m[k]);
      PageThenRest(m, k, Followed(lister, sorted, m[k], n));
    }
  }

  lemma PageThenRest(m: seq<Name>, k: nat, rest: seq<Name>)
    requires StrictlySorted(m) && k <= |m| && StrictlySorted(rest) && forall x :: x in rest ==> x in m[k..]
    ensures StrictlySorted(m[..k] + rest)
  {
    forall i, j | 0 <= i < k && 0 <= j < |rest| ensures Leq(m[i], rest[j]) && m[i] != rest[j] {
      assert rest[j] in rest && rest[j] in m[k..];
      var l :| k <= l < |m| && m[l] == rest[j];
    }
  }

  lemma SameTail(m: seq<Name>, k: nat, rest: seq<Name>)
    requires k <= |m|
    ensures m[..k] + rest == m <==> rest == m[k..]
  {
    assert m == m[..k] + m[k..];
    assert (m[..k] + rest)[k..] == rest;
  }

  // A list is left over completely exactly when its names all have the prefix.
  lemma CoveredExactly(left: seq<Name>, p: Name)
    ensures Matching(left, p) == left <==> forall i :: 0 <= i < |left| ==> p <= left[i]
  {
    MatchingMembers(left, p);
    if Matching(left, p) == left {
      forall i | 0 <= i < |left| ensures p <= left[i] {
        assert left[i] in Matching(left, p);
      }
    }
    if forall i :: 0 <= i < |left| ==> p <= left[i] {
      MatchingAll(left, p);
    }
  }

  lemma {:induction false} FollowedIsShort(lister: Lister, sorted: seq<Name>, prefix: Name, n: int)
    requires StrictlySorted(sorted) && n >= 1
    ensures |Followed(lister, sorted, prefix, n)| <= |Matching(sorted, prefix)|
    decreases |Matching(sorted, prefix)|
  {
    FollowedStep(lister, sorted, prefix, n);
    var m, k := Matching(sorted, prefix), PageOf(lister, sorted, prefix, n);
    if k < |m| {
      NextMatches(sorted, prefix, k);
      FollowedIsShort(lister, sorted, m[k], n);
    }
  }

  // What is followed from the continuation is all that the page leaves out, exactly when that all
  // has the continuation as its prefix and is followed completely.
  lemma RestExactly(m: seq<Name>, k: nat, rest: seq<Name>)
    requires k < |m| && |rest| <= |Matching(m[k..], m[k])|
    requires forall x :: x in rest ==> x in Matching(m[k..], m[k])
    ensures m[..k] + rest == m <==> (forall i :: k <= i < |m| ==> m[k] <= m[i]) && rest == Matching(m[k..], m[k])
  {
    var left := m[k..];
    SameTail(m, k, rest);
    CoveredExactly(left, m[k]);
    MatchingMembers(left, m[k]);
    if rest == left {
      forall i | k <= i < |m| ensures m[k] <= m[i] {
        assert m[i] == rest[i - k] && rest[i - k] in rest;
      }
      assert forall i :: 0 <= i < |left| ==> left[i] == m[k + i];
    }
    if forall i :: k <= i < |m| ==> m[k] <= m[i] {
      assert forall i :: 0 <= i < |left| ==> left[i] == m[k + i];
    }
  }

  // ---------- when the chain lists every name ----------

  // How many names the first page holds, and every later one, which has a prefix, unless the names
  // run out.
  function LaterPage(lister: Lister, n: int): (k: nat)
    requires n >= 1
    ensures k >= 1
  {
    if lister.Memory? then n else if n < L.LIMIT then n + 1 else L.LIMIT
  }

  function FirstPage(lister: Lister, prefix: Name, n: int): (k: nat)
    requires n >= 1
    ensures k >= 1
  {
    if prefix == "" then n else LaterPage(lister, n)
  }

  // Each name at the beginning of a later page is a prefix of all names from there on.
  ghost predicate PagesCover(m: seq<Name>, first: nat, later: nat)
    requires later >= 1
  {
    forall b, i :: first <= b <= i < |m| && (b - first) % later == 0 ==> m[b] <= m[i]
  }

  // The backend's exceptions at the end of the list shift at most the last name.
  lemma PageIsRegular(lister: Lister, sorted: seq<Name>, prefix: Name, n: int)
    requires n >= 1
    ensures var m, k := Matching(sorted, prefix), PageOf(lister, sorted, prefix, n);
      var first := FirstPage(lister, prefix, n);
      && (k < |m| && k != first ==> k == |m| - 1 && first >= |m|)
      && (k == |m| ==> first >= |m| - 1)
  {
  }

  lemma AtLeast(x: nat, d: nat)
    requires x >= 1
    ensures x * d >= d
  {}

  lemma Remainder(y: int, d: nat, q: int, r: nat)
    requires r < d && y == q * d + r
    ensures y % d == r
  {
    var p, s := y / d, y % d;
    assert y == p * d + s;
    assert (q - p) * d == q * d - p * d && (p - q) * d == p * d - q * d;
    if q > p {
      AtLeast(q - p, d);
    } else if p > q {
      AtLeast(p - q, d);
    }
  }

  lemma StepMod(x: nat, d: nat)
    requires 1 <= d <= x
    ensures (x - d) % d == x % d
  {
    var q, r := x / d, x % d;
    assert (q - 1) * d == q * d - d;
    Remainder(x - d, d, q - 1, r);
  }

  lemma SmallMod(x: nat, d: nat)
    requires 0 < x < d
    ensures x % d == x
  {
    Remainder(x, d, 0, x);
  }

  lemma CoverOfRest(m: seq<Name>, first: nat, later: nat)
    requires later >= 1 && first < |m| && PagesCover(m, first, later)
    ensures (forall i :: first <= i < |m| ==> m[first] <= m[i]) && PagesCover(m[first..], later, later)
  {
    var rest := m[first..];
    forall i | first <= i < |m| ensures m[first] <= m[i] {
      assert (first - first) % later == 0;
    }
    forall b, i | later <= b <= i < |rest| && (b - later) % later == 0 ensures rest[b] <= rest[i] {
      StepMod(b, later);
      assert m[first + b] == rest[b] && m[first + i] == rest[i] && (first + b - first) % later == 0;
    }
  }

  lemma PagesCoverShift(m: seq<Name>, first: nat, later: nat)
    requires later >= 1 && first < |m|
    ensures PagesCover(m, first, later)
      <==> (forall i :: first <= i < |m| ==> m[first] <= m[i]) && PagesCover(m[first..], later, later)
  {
    var rest := m[first..];
    if PagesCover(m, first, later) {
      CoverOfRest(m, first, later);
    } else if (forall i :: first <= i < |m| ==> m[first] <= m[i]) && PagesCover(rest, later, later) {
      forall b, i | first <= b <= i < |m| && (b - first) % later == 0 ensures m[b] <= m[i] {
        var x := b - first;
        if 0 < x < later { SmallMod(x, later); }
        if x >= later { StepMod(x, later); }
        assert rest[x] == m[b] && rest[i - first] == m[i];
      }
    }
  }

  // One page more: the condition on the list agrees with that on the rest of the list.
  lemma OnePageCovers(m: seq<Name>, k: nat, first: nat, later: nat)
    requires later >= 1 && 1 <= k < |m| && (k == first || (k == |m| - 1 && first >= |m|))
    ensures PagesCover(m, first, later)
      <==> (forall i :: k <= i < |m| ==> m[k] <= m[i]) && PagesCover(m[k..], later, later)
  {
    if k == first { PagesCoverShift(m, k, later); }
  }

  lemma RestIsCovered(m: seq<Name>, k: nat, rest: seq<Name>)
    requires k < |m| && rest == Matching(m[k..], m[k])
    ensures (forall i :: k <= i < |m| ==> m[k] <= m[i]) ==> rest == m[k..]
  {
    if forall i :: k <= i < |m| ==> m[k] <= m[i] { MatchingAll(m[k..], m[k]); }
  }

  // Following continuations lists every matching name exactly when, in the sorted list of matching
  // names, each name at which a later page begins is a prefix of all names after it.
  lemma {:induction false} CompleteExactly(lister: Lister, sorted: seq<Name>, prefix: Name, n: int)
    requires StrictlySorted(sorted) && n >= 1
    ensures Followed(lister, sorted, prefix, n) == Matching(sorted, prefix)
      <==> PagesCover(Matching(sorted, prefix), FirstPage(lister, prefix, n), LaterPage(lister, n))
    decreases |Matching(sorted, prefix)|
  {
    var m, k := Matching(sorted, prefix), PageOf(lister, sorted, prefix, n);
    FollowedStep(lister, sorted, prefix, n);
    PageIsRegular(lister, sorted, prefix, n);
    if k < |m| {
      NextMatches(sorted, prefix, k);
      ContinuationIsNotEmpty(sorted, prefix, k);
      CompleteExactly(lister, sorted, m[k], n);
      FollowedMatches(lister, sorted, m[k], n);
      FollowedIsShort(lister, sorted, m[k], n);
      RestExactly(m, k, Followed(lister, sorted, m[k], n));
      RestIsCovered(m, k, Matching(sorted, m[k]));
      OnePageCovers(m, k, FirstPage(lister, prefix, n), LaterPage(lister, n));
    }
  }

  lemma MatchesOfB(s: seq<Name>)
    requires s == ["a", "b", "c"]
    ensures Matching(s, "b") == ["b"] && Matching(s, "") == s
  {
    assert "a"[0] != "b"[0] && "c"[0] != "b"[0];
    MatchingWindow(s, "b", 1, 2);
    MatchingAll(s, "");
  }

  lemma AbcIsSorted(s: seq<Name>)
    requires s == ["a", "b", "c"]
    ensures StrictlySorted(s)
  {
    assert "a"[0] < "b"[0] < "c"[0];
  }

  // It need not: of a, b and c, one at a time, the chain lists a and b.
  lemma MissesNames(lister: Lister, s: seq<Name>)
    requires s == ["a", "b", "c"]
    ensures StrictlySorted(s) && Followed(lister, s, "", 1) == ["a", "b"] != Matching(s, "")
  {
    AbcIsSorted(s);
    MatchesOfB(s);
    var first, second := PageOf(lister, s, "", 1), PageOf(lister, s, "b", 1);
    assert first == 1 && second == 1;
    assert s[..1] == ["a"] && s[1] == "b";
    FollowedStep(lister, s, "", 1);
    FollowedStep(lister, s, "b", 1);
  }
}
