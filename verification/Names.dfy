// Key names in lexicographic order: sorting, and the contiguity of names that share a prefix.
module Names {

  type Name = string

  predicate Leq(a: Name, b: Name) {
    a == [] || (b != [] && (a[0] < b[0] || (a[0] == b[0] && Leq(a[1..], b[1..]))))
  }

  lemma {:induction false} LeqTotal(a: Name, b: Name)
    ensures Leq(a, b) || Leq(b, a)
  {
    if a != [] && b != [] && a[0] == b[0] { LeqTotal(a[1..], b[1..]); }
  }

  lemma {:induction false} LeqReflexive(a: Name)
    ensures Leq(a, a)
  {
    if a != [] { LeqReflexive(a[1..]); }
  }

  lemma {:induction false} LeqAntisymmetric(a: Name, b: Name)
    requires Leq(a, b) && Leq(b, a)
    ensures a == b
  {
    if a != [] {
      LeqAntisymmetric(a[1..], b[1..]);
      assert a == [a[0]] + a[1..] && b == [b[0]] + b[1..];
    }
  }

  lemma {:induction false} LeqTransitive(a: Name, b: Name, c: Name)
    requires Leq(a, b) && Leq(b, c)
    ensures Leq(a, c)
  {
    if a != [] && a[0] == b[0] && b[0] == c[0] { LeqTransitive(a[1..], b[1..], c[1..]); }
  }

  lemma {:induction false} PrefixIsLeq(p: Name, s: Name)
    requires p <= s
    ensures Leq(p, s)
  {
    if p != [] { PrefixIsLeq(p[1..], s[1..]); }
  }

  // Between two names with a prefix there are only names with that prefix.
  lemma {:induction false} PrefixContiguous(p: Name, a: Name, b: Name, c: Name)
    requires p <= a && p <= c && Leq(a, b) && Leq(b, c)
    ensures p <= b
  {
    if p != [] {
      PrefixContiguous(p[1..], a[1..], b[1..], c[1..]);
      assert p == [p[0]] + p[1..] && b == [b[0]] + b[1..];
    }
  }

  // ---------- sorting (slices.Sort) ----------

  ghost predicate Sorted(s: seq<Name>) {
    forall i, j :: 0 <= i < j < |s| ==> Leq(s[i], s[j])
  }

  function Insert(x: Name, s: seq<Name>): seq<Name> {
    if s == [] then [x] else if Leq(x, s[0]) then [x] + s else [s[0]] + Insert(x, s[1..])
  }

  function Sort(s: seq<Name>): seq<Name> {
    if s == [] then [] else Insert(s[0], Sort(s[1..]))
  }

  lemma {:induction false} InsertIsPermutation(x: Name, s: seq<Name>)
    ensures multiset(Insert(x, s)) == multiset{x} + multiset(s)
  {
    if s != [] {
      assert s == [s[0]] + s[1..];
      if !Leq(x, s[0]) { InsertIsPermutation(x, s[1..]); }
    }
  }

  lemma {:induction false} SortIsPermutation(s: seq<Name>)
    ensures multiset(Sort(s)) == multiset(s) && |Sort(s)| == |s|
  {
    if s != [] {
      SortIsPermutation(s[1..]);
      InsertIsPermutation(s[0], Sort(s[1..]));
      assert s == [s[0]] + s[1..];
    }
    assert |multiset(Sort(s))| == |multiset(s)|;
  }

  lemma SortedCons(x: Name, s: seq<Name>)
    requires Sorted(s) && forall y :: y in s ==> Leq(x, y)
    ensures Sorted([x] + s)
  {
    var t := [x] + s;
    forall i, j | 0 <= i < j < |t| ensures Leq(t[i], t[j]) {
      assert t[j] == s[j - 1];
      if i > 0 { assert t[i] == s[i - 1]; }
    }
  }

  lemma {:induction false} InsertKeepsSorted(x: Name, s: seq<Name>)
    requires Sorted(s)
    ensures Sorted(Insert(x, s))
  {
    if s == [] {
    } else if Leq(x, s[0]) {
      forall y | y in s ensures Leq(x, y) {
        var i :| 0 <= i < |s| && s[i] == y;
        if i > 0 { LeqTransitive(x, s[0], y); }
      }
      SortedCons(x, s);
    } else {
      LeqTotal(x, s[0]);
      InsertKeepsSorted(x, s[1..]);
      InsertIsPermutation(x, s[1..]);
      forall y | y in Insert(x, s[1..]) ensures Leq(s[0], y) {
        assert y in multiset(Insert(x, s[1..]));
        assert y == x || y in s[1..];
      }
      SortedCons(s[0], Insert(x, s[1..]));
    }
  }

  lemma {:induction false} SortIsSorted(s: seq<Name>)
    ensures Sorted(Sort(s))
  {
    if s != [] {
      SortIsSorted(s[1..]);
      InsertKeepsSorted(s[0], Sort(s[1..]));
    }
  }

  lemma FirstIsLeast(s: seq<Name>, x: Name)
    requires Sorted(s) && x in s
    ensures Leq(s[0], x)
  {
    var i :| 0 <= i < |s| && s[i] == x;
    LeqReflexive(x);
  }

  lemma TailElements(s: seq<Name>)
    requires s != []
    ensures multiset(s[1..]) == multiset(s) - multiset{s[0]}
  {
    assert s == [s[0]] + s[1..];
  }

  // Any way to sort gives the same result.
  lemma {:induction false} SortedIsUnique(s: seq<Name>, t: seq<Name>)
    requires Sorted(s) && Sorted(t) && multiset(s) == multiset(t)
    ensures s == t
  {
    if s == [] {
      assert |multiset(t)| == |t|;
    } else {
      assert s[0] in multiset(s) && |multiset(t)| == |multiset(s)| == |s|;
      assert s[0] in t && t[0] in multiset(s);
      FirstIsLeast(s, t[0]);
      FirstIsLeast(t, s[0]);
      LeqAntisymmetric(s[0], t[0]);
      TailElements(s);
      TailElements(t);
      SortedIsUnique(s[1..], t[1..]);
      assert s == [s[0]] + s[1..] && t == [t[0]] + t[1..];
    }
  }

  // ---------- the names with a prefix ----------

  function Matching(s: seq<Name>, p: Name): seq<Name> {
    if s == [] then [] else (if p <= s[0] then [s[0]] else []) + Matching(s[1..], p)
  }

  lemma {:induction false} MatchingAppend(s: seq<Name>, t: seq<Name>, p: Name)
    ensures Matching(s + t, p) == Matching(s, p) + Matching(t, p)
  {
    if s == [] {
      assert s + t == t;
    } else {
      MatchingAppend(s[1..], t, p);
      assert (s + t)[0] == s[0] && (s + t)[1..] == s[1..] + t;
      var first := if p <= s[0] then [s[0]] else [];
      assert first + (Matching(s[1..], p) + Matching(t, p)) == (first + Matching(s[1..], p)) + Matching(t, p);
    }
  }

  lemma {:induction false} MatchingAll(s: seq<Name>, p: Name)
    requires forall i :: 0 <= i < |s| ==> p <= s[i]
    ensures Matching(s, p) == s
  {
    if s != [] { MatchingAll(s[1..], p); assert s == [s[0]] + s[1..]; }
  }

  lemma {:induction false} MatchingNone(s: seq<Name>, p: Name)
    requires forall i :: 0 <= i < |s| ==> !(p <= s[i])
    ensures Matching(s, p) == []
  {
    if s != [] { MatchingNone(s[1..], p); }
  }

  lemma {:induction false} MatchingMembers(s: seq<Name>, p: Name)
    ensures forall x :: x in Matching(s, p) <==> x in s && p <= x
  {
    if s != [] {
      MatchingMembers(s[1..], p);
      assert forall x :: x in s <==> x == s[0] || x in s[1..];
    }
  }

  // A window of a list that holds all its names with the prefix, and no other, is the matching list.
  lemma MatchingWindow(s: seq<Name>, p: Name, i: nat, j: nat)
    requires i <= j <= |s|
    requires forall k :: 0 <= k < |s| ==> (p <= s[k] <==> i <= k < j)
    ensures Matching(s, p) == s[i..j]
  {
    assert s == s[..i] + (s[i..j] + s[j..]);
    MatchingAppend(s[..i], s[i..j] + s[j..], p);
    MatchingAppend(s[i..j], s[j..], p);
    MatchingNone(s[..i], p);
    MatchingAll(s[i..j], p);
    MatchingNone(s[j..], p);
  }

  // In a sorted list the names with a prefix are contiguous: once they start, they run until the
  // first name without it, and none follows.
  lemma NoneAfterGap(s: seq<Name>, p: Name, i: nat, j: nat)
    requires Sorted(s) && i < j < |s| && p <= s[i] && !(p <= s[j])
    ensures forall k :: j <= k < |s| ==> !(p <= s[k])
  {
    forall k | j <= k < |s| ensures !(p <= s[k]) {
      if p <= s[k] && k > j { PrefixContiguous(p, s[i], s[j], s[k]); }
    }
  }
}
