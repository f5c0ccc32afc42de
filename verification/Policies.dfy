// initPolicies of state.go: the policies by name, and the index from identities to policies. Go
// visits the entries of a map in any order.
module Policies {
  import opened Wrappers
  import opened KeyTypes

  type Name = Bytes

  datatype Rule = Rule

  // One entry of the configuration.
  datatype PolicyConfig = PolicyConfig(allow: map<Name, Rule>, deny: map<Name, Rule>, identities: seq<Name>)

  class Policy {
    const allow: map<Name, Rule>
    const deny: map<Name, Rule>

    constructor (allow: map<Name, Rule>, deny: map<Name, Rule>)
      ensures this.allow == allow && this.deny == deny
    {
      this.allow, this.deny := allow, deny;
    }
  }

  datatype IdentityEntry = IdentityEntry(name: Name, policy: Policy)

  datatype PolicyError =
    | InvalidName(name: Name)
    | InvalidIdentity(id: Name)
    | AlreadyAssigned(name: Name, id: Name)

  // ---------- valid names (auth.go) ----------

  const MAX_LENGTH: nat := 80

  predicate Between(lo: char, c: byte, hi: char) { lo as int <= c as int <= hi as int }

  predicate IsChar(c: byte, x: char) { c as int == x as int }

  predicate ValidAt(s: Name, i: nat)
    requires i < |s|
  {
    || Between('0', s[i], '9') || Between('A', s[i], 'Z') || Between('a', s[i], 'z')
    || (IsChar(s[i], '-') && 0 < i < |s| - 1)
    || IsChar(s[i], '_')
  }

  predicate ValidName(s: Name) {
    && 0 < |s| <= MAX_LENGTH
    && (forall i :: 0 <= i < |s| ==> ValidAt(s, i))
    && (|s| == 1 ==> !IsChar(s[0], '_'))
  }

  method CheckName(s: Name) returns (ok: bool)
    ensures ok == ValidName(s)
  {
    if |s| == 0 || (|s| == 1 && IsChar(s[0], '_')) || |s| > MAX_LENGTH {
      return false;
    }
    var i := 0;
    while i < |s|
      invariant 0 <= i <= |s| && forall j :: 0 <= j < i ==> ValidAt(s, j)
    {
      if !ValidAt(s, i) {
        return false;
      }
      i := i + 1;
    }
    return true;
  }

  // ---------- what is accepted, and what the index is ----------

  ghost predicate AllValid(ids: seq<Name>) {
    forall i :: 0 <= i < |ids| ==> ValidName(ids[i])
  }

  ghost predicate WellFormed(name: Name, conf: PolicyConfig) {
    ValidName(name) && AllValid(conf.identities) && Distinct(conf.identities)
  }

  ghost predicate NotShared(policies: map<Name, PolicyConfig>) {
    forall a, b, id :: a in policies && b in policies && id in policies[a].identities && id in policies[b].identities
                       ==> a == b
  }

  // The configuration names each policy and identity properly and assigns no identity twice, neither
  // in two policies nor in one.
  ghost predicate Acceptable(policies: map<Name, PolicyConfig>) {
    (forall name :: name in policies ==> WellFormed(name, policies[name])) && NotShared(policies)
  }

  // owners is the exact inverse of the identity lists of these policies.
  ghost predicate IsIndex(policies: map<Name, PolicyConfig>, names: set<Name>, owners: map<Name, Name>)
    requires names <= policies.Keys
  {
    && (forall id :: id in owners ==> owners[id] in names && id in policies[owners[id]].identities)
    && (forall name, id :: name in names && id in policies[name].identities ==> id in owners && owners[id] == name)
  }

  // The configuration alone decides the index, whatever order the policies are visited in.
  lemma IndexIsUnique(policies: map<Name, PolicyConfig>, a: map<Name, Name>, b: map<Name, Name>)
    requires IsIndex(policies, policies.Keys, a) && IsIndex(policies, policies.Keys, b)
    ensures a == b
  {
    forall id ensures id in a <==> id in b {
      if id in a { assert a[id] in policies.Keys; }
      if id in b { assert b[id] in policies.Keys; }
    }
    forall id | id in a ensures a[id] == b[id] {
      assert a[id] in policies.Keys && id in policies[a[id]].identities;
    }
  }

  // An index exists exactly when no identity belongs to two policies.
  lemma IndexExistsExactly(policies: map<Name, PolicyConfig>)
    ensures (exists owners :: IsIndex(policies, policies.Keys, owners)) <==> NotShared(policies)
  {
    if NotShared(policies) {
      var owners := map name, id | name in policies && id in policies[name].identities :: id := name;
      assert IsIndex(policies, policies.Keys, owners);
    } else {
      forall owners ensures !IsIndex(policies, policies.Keys, owners) {
        if IsIndex(policies, policies.Keys, owners) { IndexMeansNotShared(policies, owners); }
      }
    }
  }

  lemma IndexMeansNotShared(policies: map<Name, PolicyConfig>, owners: map<Name, Name>)
    requires IsIndex(policies, policies.Keys, owners)
    ensures NotShared(policies)
  {
    forall a, b, id | a in policies && b in policies && id in policies[a].identities && id in policies[b].identities
      ensures a == b
    {
      assert owners[id] == a && owners[id] == b;
    }
  }

  // The error names something that is wrong with the configuration.
  ghost predicate IsFault(policies: map<Name, PolicyConfig>, e: PolicyError) {
    match e
    case InvalidName(name) => name in policies && !ValidName(name)
    case InvalidIdentity(id) => !ValidName(id) && exists name :: name in policies && id in policies[name].identities
    case AlreadyAssigned(name, id) =>
      && name in policies && id in policies[name].identities
      && (!Distinct(policies[name].identities)
          || exists other :: other in policies && other != name && id in policies[other].identities)
  }

  lemma FaultMeansUnacceptable(policies: map<Name, PolicyConfig>, e: PolicyError)
    requires IsFault(policies, e)
    ensures !Acceptable(policies)
  {
    if e.InvalidIdentity? {
      var name :| name in policies && e.id in policies[name].identities;
      assert !AllValid(policies[name].identities);
    }
  }

  // What may stop the assignment of a policy to its identities, given those already assigned.
  ghost predicate StopsAssign(name: Name, ids: seq<Name>, taken: set<Name>, e: PolicyError) {
    match e
    case InvalidName(_) => false
    case InvalidIdentity(id) => id in ids && !ValidName(id)
    case AlreadyAssigned(n, id) => n == name && id in ids && (id in taken || !Distinct(ids))
  }

  lemma StopsMeansFault(policies: map<Name, PolicyConfig>, names: set<Name>, owners: map<Name, Name>, name: Name,
                        e: PolicyError)
    requires names <= policies.Keys && IsIndex(policies, names, owners) && name in policies && name !in names
    requires StopsAssign(name, policies[name].identities, owners.Keys, e)
    ensures IsFault(policies, e)
  {
    if e.AlreadyAssigned? && e.id in owners {
      assert owners[e.id] != name;
    }
  }

  function Owners(index: map<Name, IdentityEntry>): map<Name, Name> {
    map id | id in index :: index[id].name
  }

  // ---------- initPolicies ----------

  // grown is the index with the same new entry for each of the identities, none of which it had.
  ghost predicate Extends(index: map<Name, IdentityEntry>, grown: map<Name, IdentityEntry>,
                          ids: seq<Name>, entry: IdentityEntry) {
    && (forall id :: id in ids ==> id !in index && id in grown && grown[id] == entry)
    && (forall id :: id in index ==> id in grown && grown[id] == index[id])
    && (forall id :: id in grown ==> id in ids || id in index)
  }

  lemma IndexGrows(policies: map<Name, PolicyConfig>, names: set<Name>, index: map<Name, IdentityEntry>,
                   name: Name, p: Policy, grown: map<Name, IdentityEntry>)
    requires names <= policies.Keys && IsIndex(policies, names, Owners(index)) && name in policies && name !in names
    requires Extends(index, grown, policies[name].identities, IdentityEntry(name, p))
    ensures IsIndex(policies, names + {name}, Owners(grown))
  {
    OwnersGrow(policies, names, Owners(index), name, Owners(grown));
  }

  lemma OwnersGrow(policies: map<Name, PolicyConfig>, names: set<Name>, owners: map<Name, Name>,
                   name: Name, grown: map<Name, Name>)
    requires names <= policies.Keys && IsIndex(policies, names, owners) && name in policies && name !in names
    requires forall id :: id in policies[name].identities ==> id in grown && grown[id] == name && id !in owners
    requires forall id :: id in owners ==> id in grown && grown[id] == owners[id]
    requires forall id :: id in grown ==> id in policies[name].identities || id in owners
    ensures IsIndex(policies, names + {name}, grown)
  {}

  // The inner loop: assigns the policy to its identities.
  method Assign(name: Name, p: Policy, ids: seq<Name>, index: map<Name, IdentityEntry>)
    returns (r: Result<map<Name, IdentityEntry>, PolicyError>)
    ensures r.Ok? ==> AllValid(ids) && Distinct(ids) && Extends(index, r.value, ids, IdentityEntry(name, p))
    ensures r.Err? ==> StopsAssign(name, ids, index.Keys, r.error)
  {
    var grown := index;
    var i := 0;
    while i < |ids|
      invariant 0 <= i <= |ids| && AllValid(ids[..i]) && Distinct(ids[..i])
      invariant Extends(index, grown, ids[..i], IdentityEntry(name, p))
    {
      var ok := CheckName(ids[i]);
      if !ok {
        return Err(InvalidIdentity(ids[i]));
      }
      if ids[i] in grown {
        if ids[i] in ids[..i] {
          var j :| 0 <= j < i && ids[j] == ids[i];
        }
        return Err(AlreadyAssigned(name, ids[i]));
      }
      assert ids[..i + 1] == ids[..i] + [ids[i]];
      grown := grown[ids[i] := IdentityEntry(name, p)];
      i := i + 1;
    }
    assert ids[..i] == ids;
    return Ok(grown);
  }

  ghost predicate IsPolicyOf(p: Policy, conf: PolicyConfig)
  {
    p.allow == conf.allow && p.deny == conf.deny
  }

  // What initPolicies returns when it succeeds.
  datatype Tables = Tables(policySet: map<Name, Policy>, index: map<Name, IdentityEntry>)

  ghost predicate AllWellFormed(policies: map<Name, PolicyConfig>, names: set<Name>)
    requires names <= policies.Keys
  {
    forall name :: name in names ==> WellFormed(name, policies[name])
  }

  // Each of the named policies has an object of its own with its rules.
  ghost predicate HasObjects(policies: map<Name, PolicyConfig>, policySet: map<Name, Policy>) {
    && policySet.Keys <= policies.Keys
    && (forall name :: name in policySet ==> IsPolicyOf(policySet[name], policies[name]))
    && (forall a, b :: a in policySet && b in policySet && a != b ==> policySet[a] != policySet[b])
  }

  // The entries of the index point to the policy objects.
  ghost predicate Shares(t: Tables) {
    forall id :: id in t.index ==>
      t.index[id].name in t.policySet && t.index[id].policy == t.policySet[t.index[id].name]
  }

  // The tables are right for the named policies.
  ghost predicate Built(policies: map<Name, PolicyConfig>, names: set<Name>, t: Tables)
    requires names <= policies.Keys
  {
    && t.policySet.Keys == names
    && AllWellFormed(policies, names)
    && HasObjects(policies, t.policySet)
    && IsIndex(policies, names, Owners(t.index))
    && Shares(t)
  }

  // Two orders of visiting the policies give the same tables, up to which object is which policy.
  lemma OrderDoesNotMatter(policies: map<Name, PolicyConfig>, t: Tables, u: Tables)
    requires Built(policies, policies.Keys, t) && Built(policies, policies.Keys, u)
    ensures t.policySet.Keys == u.policySet.Keys && Owners(t.index) == Owners(u.index)
    ensures forall name :: name in t.policySet ==>
      t.policySet[name].allow == u.policySet[name].allow && t.policySet[name].deny == u.policySet[name].deny
    ensures forall id :: id in t.index ==>
      id in u.index && t.index[id].policy.allow == u.index[id].policy.allow
      && t.index[id].policy.deny == u.index[id].policy.deny
  {
    IndexIsUnique(policies, Owners(t.index), Owners(u.index));
    forall id | id in t.index ensures id in u.index && t.index[id].name == u.index[id].name {
      assert id in Owners(t.index);
    }
  }

  lemma ObjectsGrow(policies: map<Name, PolicyConfig>, policySet: map<Name, Policy>, name: Name, p: Policy)
    requires HasObjects(policies, policySet) && name in policies && name !in policySet
    requires p !in policySet.Values && IsPolicyOf(p, policies[name])
    ensures HasObjects(policies, policySet[name := p])
  {
    forall a | a in policySet ensures policySet[a] != p {
      assert policySet[a] in policySet.Values;
    }
  }

  lemma SharesGrows(t: Tables, name: Name, p: Policy, ids: seq<Name>, grown: map<Name, IdentityEntry>)
    requires Shares(t) && name !in t.policySet && Extends(t.index, grown, ids, IdentityEntry(name, p))
    ensures Shares(Tables(t.policySet[name := p], grown))
  {}

  lemma WellFormedGrows(policies: map<Name, PolicyConfig>, names: set<Name>, name: Name)
    requires names <= policies.Keys && AllWellFormed(policies, names)
    requires name in policies && WellFormed(name, policies[name])
    ensures AllWellFormed(policies, names + {name})
  {}

  // The body of the outer loop.
  method AddPolicy(ghost policies: map<Name, PolicyConfig>, ghost names: set<Name>,
                   name: Name, conf: PolicyConfig, t: Tables)
    returns (r: Result<Tables, PolicyError>)
    requires names <= policies.Keys && Built(policies, names, t)
    requires name in policies && conf == policies[name] && name !in names
    ensures r.Ok? ==> Built(policies, names + {name}, r.value)
    ensures r.Ok? ==> forall p :: p in r.value.policySet.Values ==> p in t.policySet.Values || fresh(p)
    ensures r.Err? ==> IsFault(policies, r.error) && !Acceptable(policies)
  {
    var ok := CheckName(name);
    if !ok {
      return Err(InvalidName(name));
    }
    var p := new Policy(conf.allow, conf.deny);
    var outcome := Assign(name, p, conf.identities, t.index);
    if outcome.Err? {
      StopsMeansFault(policies, names, Owners(t.index), name, outcome.error);
      FaultMeansUnacceptable(policies, outcome.error);
      return Err(outcome.error);
    }
    WellFormedGrows(policies, names, name);
    ObjectsGrow(policies, t.policySet, name, p);
    IndexGrows(policies, names, t.index, name, p, outcome.value);
    SharesGrows(t, name, p, conf.identities, outcome.value);
    return Ok(Tables(t.policySet[name := p], outcome.value));
  }

  // It succeeds exactly on an acceptable configuration, and then every policy is a new object.
  method InitPolicies(policies: map<Name, PolicyConfig>) returns (r: Result<Tables, PolicyError>)
    ensures r.Ok? <==> Acceptable(policies)
    ensures r.Ok? ==> Built(policies, policies.Keys, r.value) && forall p :: p in r.value.policySet.Values ==> fresh(p)
    ensures r.Err? ==> IsFault(policies, r.error)
  {
    r := Ok(Tables(map[], map[]));
    ghost var names: set<Name> := {};
    var rest := policies.Keys;
    while rest != {}
      invariant names <= policies.Keys && rest <= policies.Keys
      invariant forall name :: name in policies ==> (name in names <==> name !in rest)
      invariant r.Ok? && Built(policies, names, r.value) && forall p :: p in r.value.policySet.Values ==> fresh(p)
      decreases rest
    {
      var name :| name in rest;
      r := AddPolicy(policies, names, name, policies[name], r.value);
      if r.Err? {
        return;
      }
      names, rest := names + {name}, rest - {name};
    }
    assert names == policies.Keys;
    IndexMeansNotShared(policies, Owners(r.value.index));
  }
}
