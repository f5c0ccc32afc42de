// Paged listing by prefix: List of internal/keystore/keystore.go.
module Listing {
  import opened Names

  const LIMIT: nat := 1024

  // How many of the matching names a page holds. atEnd: the matching names are the last of all
  // names. With a prefix, the loop gives up only after one name more than asked for.
  function PageLength(m: nat, atEnd: bool, prefix: Name, n: int): (k: nat)
    ensures k <= m
  {
    if prefix == "" then
      var size := if n <= 0 then LIMIT else n;
      if m <= size then m else size
    else
      var cut := if 0 < n < LIMIT then n + 1 else LIMIT;
      if cut < m then (if atEnd && m == cut + 1 then m else cut)
      else if atEnd && 0 < n < m then n else m
  }

  predicate AtEnd(sorted: seq<Name>, prefix: Name) {
    sorted != [] && prefix <= sorted[|sorted| - 1]
  }

  // The first k matching names, and the first one left out, or "" when there is none.
  predicate IsPage(m: seq<Name>, k: nat, page: seq<Name>, next: Name) {
    k <= |m| && page == m[..k] && next == if k < |m| then m[k] else ""
  }

  // slices.IndexFunc(names, HasPrefix); -1 when no name has the prefix.
  method IndexOfPrefix(names: seq<Name>, prefix: Name) returns (i: int)
    ensures -1 <= i < |names|
    ensures i < 0 ==> forall k :: 0 <= k < |names| ==> !(prefix <= names[k])
    ensures i >= 0 ==> prefix <= names[i] && forall k :: 0 <= k < i ==> !(prefix <= names[k])
  {
    i := 0;
    while i < |names|
      invariant 0 <= i <= |names| && forall k :: 0 <= k < i ==> !(prefix <= names[k])
    {
      if prefix <= names[i] {
        return;
      }
      i := i + 1;
    }
    i := -1;
  }

  // slices.Sort
  method SortInPlace(a: array<Name>)
    modifies a
    ensures a[..] == Sort(old(a[..])) && Sorted(a[..])
  {
    var sorted := Sort(a[..]);
    SortIsPermutation(a[..]);
    SortIsSorted(a[..]);
    var i := 0;
    while i < a.Length
      invariant i <= a.Length && a[..i] == sorted[..i]
    {
      a[i] := sorted[i];
      i := i + 1;
    }
  }

  // In a sorted list whose first name has the prefix, the matching names are the first ones: exactly
  // the first j when the next one does not have it or there is none.
  lemma MatchingRun(names: seq<Name>, prefix: Name, j: nat)
    requires Sorted(names) && 0 < j <= |names|
    requires forall k :: 0 <= k < j ==> prefix <= names[k]
    requires j < |names| ==> !(prefix <= names[j])
    ensures Matching(names, prefix) == names[..j] && (AtEnd(names, prefix) <==> j == |names|)
  {
    if j < |names| { NoneAfterGap(names, prefix, 0, j); }
    MatchingWindow(names, prefix, 0, j);
    assert names[0..j] == names[..j];
  }

  // At least the first j when these have the prefix.
  lemma MatchingRunStart(names: seq<Name>, prefix: Name, j: nat) returns (m: nat)
    requires Sorted(names) && 0 < j <= |names|
    requires forall k :: 0 <= k < j ==> prefix <= names[k]
    ensures j <= m <= |names| && Matching(names, prefix) == names[..m] && (AtEnd(names, prefix) <==> m == |names|)
  {
    m := j;
    while m < |names| && prefix <= names[m]
      invariant j <= m <= |names|
      invariant forall k :: 0 <= k < m ==> prefix <= names[k]
    {
      m := m + 1;
    }
    MatchingRun(names, prefix, m);
  }

  // Names before the first match do not matter.
  lemma MatchingFrom(sorted: seq<Name>, prefix: Name, i: nat)
    requires i < |sorted| && forall k :: 0 <= k < i ==> !(prefix <= sorted[k])
    ensures Matching(sorted, prefix) == Matching(sorted[i..], prefix)
    ensures AtEnd(sorted, prefix) <==> AtEnd(sorted[i..], prefix)
  {
    assert sorted == sorted[..i] + sorted[i..];
    MatchingAppend(sorted[..i], sorted[i..], prefix);
    MatchingNone(sorted[..i], prefix);
  }

  // List: sorts the names in place and returns one page of those with the prefix.
  method List(names: array<Name>, prefix: Name, n: int) returns (page: seq<Name>, next: Name)
    modifies names
    ensures names[..] == Sort(old(names[..]))
    ensures var sorted := Sort(old(names[..])); var m := Matching(sorted, prefix);
      IsPage(m, PageLength(|m|, AtEnd(sorted, prefix), prefix, n), page, next)
  {
    SortInPlace(names);
    var sorted := names[..];
    if prefix != "" {
      page, next := ListPrefix(sorted, prefix, n);
      return;
    }
    MatchingAll(sorted, prefix);
    if (n <= 0 && |sorted| <= LIMIT) || |sorted| <= n {
      page, next := sorted, "";
    } else if n <= 0 {
      page, next := sorted[..LIMIT], sorted[LIMIT];
    } else {
      page, next := sorted[..n], sorted[n];
    }
  }

  // The branch for a prefix that is not empty.
  method ListPrefix(sorted: seq<Name>, prefix: Name, n: int) returns (page: seq<Name>, next: Name)
    requires Sorted(sorted) && prefix != ""
    ensures var m := Matching(sorted, prefix); IsPage(m, PageLength(|m|, AtEnd(sorted, prefix), prefix, n), page, next)
  {
    var first := IndexOfPrefix(sorted, prefix);
    if first < 0 {
      MatchingNone(sorted, prefix);
      return [], "";
    }
    MatchingFrom(sorted, prefix, first);
    page, next := ListFromMatch(sorted[first..], prefix, n);
  }

  // The loop over the names from the first match on, and the switch after it.
  method ListFromMatch(names: seq<Name>, prefix: Name, n: int) returns (page: seq<Name>, next: Name)
    requires Sorted(names) && prefix != "" && names != [] && prefix <= names[0]
    ensures var m := Matching(names, prefix); IsPage(m, PageLength(|m|, AtEnd(names, prefix), prefix, n), page, next)
  {
    var i := 0;
    while i < |names|
      invariant 0 <= i <= |names|
      invariant forall k :: 0 <= k < i ==> prefix <= names[k]
      invariant i <= LIMIT && (n > 0 ==> i <= n + 1)
    {
      if !(prefix <= names[i]) {
        MatchingRun(names, prefix, i);
        return names[..i], "";
      }
      if (n > 0 && i > n) || i == LIMIT {
        ghost var m := MatchingRunStart(names, prefix, i + 1);
        if i == |names| - 1 {
          assert names[..m] == names;
          return names, "";
        }
        assert names[..m][..i] == names[..i];
        return names[..i], names[i];
      }
      i := i + 1;
    }
    MatchingRun(names, prefix, i);
    assert names[..i] == names;
    // The loop has left at most LIMIT names, so the second case of the switch cannot arise.
    if (n <= 0 && |names| <= LIMIT) || |names| <= n {
      page, next := names, "";
    } else {
      page, next := names[..n], names[n];
    }
  }

  // ---------- the length of a page ----------

  // At most n + 2 names, and at most 1025.
  lemma PageBounds(m: nat, atEnd: bool, prefix: Name, n: int)
    ensures n > 0 ==> PageLength(m, atEnd, prefix, n) <= n + 2
    ensures n <= 0 || prefix != "" ==> PageLength(m, atEnd, prefix, n) <= LIMIT + 1
    ensures n > 0 ==>
      PageLength(m, atEnd, prefix, n) >= if m < n && m < LIMIT then m else if n < LIMIT then n else LIMIT
  {
  }

  // A page holds more names than asked for exactly when a prefix is given, more than n names match,
  // and neither the end of the list nor the limit comes first.
  lemma OverlongExactly(m: nat, atEnd: bool, prefix: Name, n: int)
    requires n > 0
    ensures PageLength(m, atEnd, prefix, n) > n <==>
      prefix != "" && m > n &&
      (if n < LIMIT then !(atEnd && m == n + 1) else n == LIMIT && atEnd && m == n + 1)
  {
  }

  // For example: of three names with the prefix, one is asked for and all are returned.
  lemma OverlongPage(names: seq<Name>)
    requires names == ["ka", "kb", "kc"]
    ensures Sort(names) == names && Matching(names, "k") == names && AtEnd(names, "k")
    ensures IsPage(names, PageLength(|names|, AtEnd(names, "k"), "k", 1), names, "")
  {
    MatchingAll(names, "k");
    AbcOrder(names);
  }

  lemma AbcOrder(names: seq<Name>)
    requires names == ["ka", "kb", "kc"]
    ensures Sort(names) == names
  {
    assert names[0][1..] == "a" && names[1][1..] == "b" && names[2][1..] == "c";
    SortIsPermutation(names);
    SortIsSorted(names);
    SortedIsUnique(Sort(names), names);
  }
}
