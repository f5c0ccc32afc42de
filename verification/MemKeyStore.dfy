// MemKeyStore of keystore.go.
module MemKeyStoreClass {
  import opened Wrappers
  import opened KeyTypes
  import opened Names
  import opened CowOps
  import opened CowClass
  import L = Listing

  // The names of a set in some order, and sorted: any order gives the same (SortedIsUnique).
  ghost function Enumerated(names: set<Name>): seq<Name> {
    if names == {} then [] else var x :| x in names; [x] + Enumerated(names - {x})
  }

  ghost function SortedNames(names: set<Name>): seq<Name> { Sort(Enumerated(names)) }

  lemma {:induction false} EnumeratedOnce(names: set<Name>)
    ensures multiset(Enumerated(names)) == multiset(names)
  {
    if names != {} {
      var all := Enumerated(names);
      var x := all[0];
      assert all == [x] + all[1..];
      EnumeratedOnce(names - {x});
      assert names == (names - {x}) + {x};
    }
  }

  lemma SortedNamesOf(names: set<Name>, keys: seq<Name>)
    requires multiset(keys) == multiset(names)
    ensures Sort(keys) == SortedNames(names) && Sorted(Sort(keys))
  {
    EnumeratedOnce(names);
    SortIsPermutation(keys);
    SortIsPermutation(Enumerated(names));
    SortIsSorted(keys);
    SortIsSorted(Enumerated(names));
    SortedIsUnique(Sort(keys), SortedNames(names));
  }

  // How many of m matching names MemKeyStore lists, for n != 0.
  function MemPageLength(m: nat, n: int): nat { if n < 0 || m <= n then m else n }

  // It agrees with List of internal/keystore when no prefix is given and n > 0, and for n < 0 up to
  // the limit of 1024 names.
  lemma AgreesWithList(m: nat, atEnd: bool, prefix: Name, n: int)
    requires (prefix == "" && n > 0) || (n < 0 && m <= L.LIMIT)
    ensures L.PageLength(m, atEnd, prefix, n) == MemPageLength(m, n)
  {
  }

  class MemKeyStore {
    const keys: Cow<Name, Bytes>

    ghost predicate Valid()
      reads keys, keys.ptr
    {
      keys.capacity == 0
    }

    ghost function Entries(): map<Name, Bytes>
      reads keys, keys.ptr
    {
      keys.Contents()
    }

    constructor ()
      ensures Valid() && Entries() == map[] && fresh(keys)
    {
      keys := new Cow<Name, Bytes>.Zero();
    }

    // kes.ErrKeyExists when created is false.
    method Create(name: Name, value: Bytes) returns (created: bool)
      requires Valid()
      modifies keys`ptr
      ensures Valid() && created == (name !in old(Entries()))
      ensures Entries() == if created then old(Entries())[name := value] else old(Entries())
    {
      created := keys.Add(name, value);
    }

    // kes.ErrKeyNotFound when deleted is false.
    method Delete(name: Name) returns (deleted: bool)
      requires Valid()
      modifies keys`ptr
      ensures Valid() && deleted == (name in old(Entries())) && Entries() == old(Entries()) - {name}
    {
      deleted := keys.Delete(name);
    }

    method Get(name: Name) returns (value: Option<Bytes>)
      ensures value == if name in Entries() then Some(Entries()[name]) else None
    {
      value := keys.Get(name);
    }

    // Exactly the first min(n, matches) of the sorted names with the prefix, all of them for n < 0,
    // and the next matching name, or "" when none remain.
    method List(prefix: Name, n: int) returns (page: seq<Name>, next: Name)
      ensures n == 0 ==> page == [] && next == prefix
      ensures n != 0 ==> var m := Matching(SortedNames(Entries().Keys), prefix);
        L.IsPage(m, MemPageLength(|m|, n), page, next)
    {
      if n == 0 {
        return [], prefix;
      }
      var names := keys.Keys();
      SortedNamesOf(Entries().Keys, names);
      var sorted := Sort(names);
      if prefix == "" {
        MatchingAll(sorted, prefix);
        if n < 0 || n >= |sorted| {
          return sorted, "";
        }
        return sorted[..n], sorted[n];
      }
      var i := L.IndexOfPrefix(sorted, prefix);
      if i < 0 {
        MatchingNone(sorted, prefix);
        return [], "";
      }
      L.MatchingFrom(sorted, prefix, i);
      page, next := ListFromMatch(sorted[i..], prefix, n);
    }

    // The loop over the names from the first match on.
    static method ListFromMatch(names: seq<Name>, prefix: Name, n: int) returns (page: seq<Name>, next: Name)
      requires Sorted(names) && names != [] && prefix <= names[0] && n != 0
      ensures var m := Matching(names, prefix); L.IsPage(m, MemPageLength(|m|, n), page, next)
    {
      var j := 0;
      while j < |names|
        invariant 0 <= j <= |names| && (n > 0 ==> j <= n)
        invariant forall k :: 0 <= k < j ==> prefix <= names[k]
      {
        if !(prefix <= names[j]) {
          L.MatchingRun(names, prefix, j);
          return names[..j], "";
        }
        if n > 0 && j == n {
          ghost var m := L.MatchingRunStart(names, prefix, j + 1);
          assert names[..m][..j] == names[..j];
          return names[..j], names[j];
        }
        j := j + 1;
      }
      L.MatchingRun(names, prefix, j);
      assert names[..j] == names;
      return names, "";
    }
  }
}
