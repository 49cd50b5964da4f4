/**
Package provenance: the effective digest of a package covers its own build inputs and, through the
effective digests of its dependencies, everything below it. The digest is ideal: equal digests have
equal content.
*/
module Provenance {
  import opened Hex
  import opened Wrappers

  /** A dependency as the inventory records it. */
  datatype Requirement = Requirement(name: string, version: string, origin: string)

  /** The build inputs of one package; the tree and file digests are opaque text. */
  datatype Inputs = Inputs(abi: string, osversion: int, origin: string, version: string, options: map<string, string>,
                           portDirectory: string, patches: string, mk: string, makeConfiguration: string,
                           architecturePolicy: string, patched: bool, kernelSensitive: bool) {
    predicate Valid() {
      && osversion > 0
      && IsSha256(portDirectory) && IsSha256(patches) && IsSha256(mk)
      && IsSha256(makeConfiguration) && IsSha256(architecturePolicy)
    }
  }

  /** One package of the inventory; its dependencies in the sorted order that the canonical form has. */
  datatype Item = Item(inputs: Inputs, dependencies: seq<Requirement>)

  type Inventory = map<string, Item>

  datatype Digest = External | Sha256(content: Document)

  datatype Document = Document(inputs: Inputs, dependencies: seq<Resolved>)

  datatype Resolved = Resolved(requirement: Requirement, digest: Digest)

  // ---------------------------------------------------------------- what a digest says

  /** The digest of a package, read off the inventory without any memo and in no particular order. */
  ghost predicate Derives(base: Inventory, name: string, digest: Digest)
    decreases digest, 0
  {
    && name in base && digest.Sha256? && base[name].inputs.Valid()
    && digest.content.inputs == base[name].inputs
    && |digest.content.dependencies| == |base[name].dependencies|
    && forall i :: 0 <= i < |base[name].dependencies| ==>
        digest.content.dependencies[i].requirement == base[name].dependencies[i] &&
        Names(base, base[name].dependencies[i].name, digest.content.dependencies[i].digest)
  }

  /** A dependency outside the inventory is external; one inside carries its own effective digest. */
  ghost predicate Names(base: Inventory, name: string, digest: Digest)
    decreases digest, 1
  {
    if name in base then Derives(base, name, digest) else digest == External
  }

  lemma {:induction false} DigestIsUnique(base: Inventory, name: string, a: Digest, b: Digest)
    requires Derives(base, name, a) && Derives(base, name, b)
    ensures a == b
    decreases a
  {
    var x, y := a.content.dependencies, b.content.dependencies;
    forall i | 0 <= i < |x|
      ensures x[i] == y[i]
    {
      var dependency := base[name].dependencies[i].name;
      assert Names(base, dependency, x[i].digest) && Names(base, dependency, y[i].digest);
      if dependency in base {
        DigestIsUnique(base, dependency, x[i].digest, y[i].digest);
      }
    }
    assert x == y;
  }

  predicate Edge(base: Inventory, a: string, b: string) {
    a in base && b in base && exists r :: r in base[a].dependencies && r.name == b
  }

  ghost predicate IsChain(base: Inventory, path: seq<string>) {
    && path != [] && path[0] in base
    && forall i, j :: 0 <= i < j < |path| && j == i + 1 ==> Edge(base, path[i], path[j])
  }

  ghost predicate IsCycle(base: Inventory, path: seq<string>) {
    IsChain(base, path) && |path| >= 2 && path[0] == path[|path| - 1]
  }

  function Weight(digest: Digest): nat
    decreases digest, if digest.Sha256? then |digest.content.dependencies| + 1 else 0
  {
    if digest.External? then 0 else 1 + Weights(digest, |digest.content.dependencies|)
  }

  function Weights(digest: Digest, n: nat): nat
    requires digest.Sha256? && n <= |digest.content.dependencies|
    decreases digest, n
  {
    if n == 0 then 0 else Weight(digest.content.dependencies[n - 1].digest) + Weights(digest, n - 1)
  }

  lemma {:induction false} WeightsBound(digest: Digest, n: nat, i: nat)
    requires digest.Sha256? && i < n <= |digest.content.dependencies|
    ensures Weight(digest.content.dependencies[i].digest) <= Weights(digest, n)
    decreases n
  {
    if i < n - 1 {
      WeightsBound(digest, n - 1, i);
    }
  }

  lemma EdgeNests(base: Inventory, name: string, digest: Digest, b: string) returns (i: nat)
    requires Derives(base, name, digest) && Edge(base, name, b)
    ensures i < |base[name].dependencies| && base[name].dependencies[i].name == b
    ensures digest.Sha256? && i < |digest.content.dependencies|
    ensures Derives(base, b, digest.content.dependencies[i].digest)
    ensures Weight(digest.content.dependencies[i].digest) < Weight(digest)
  {
    var r :| r in base[name].dependencies && r.name == b;
    i :| 0 <= i < |base[name].dependencies| && base[name].dependencies[i] == r;
    assert Names(base, b, digest.content.dependencies[i].digest);
    WeightsBound(digest, |digest.content.dependencies|, i);
  }

  lemma {:induction false} ChainNests(base: Inventory, path: seq<string>, digest: Digest) returns (end: Digest)
    requires IsChain(base, path) && Derives(base, path[0], digest)
    ensures Derives(base, path[|path| - 1], end)
    ensures Weight(end) <= Weight(digest) && (|path| > 1 ==> Weight(end) < Weight(digest))
    decreases |path|
  {
    hide Derives, Weight, Edge;
    if |path| == 1 {
      end := digest;
    } else {
      assert Edge(base, path[0], path[1]);
      var i := EdgeNests(base, path[0], digest, path[1]);
      assert IsChain(base, path[1..]) by { ChainTail(base, path); }
      end := ChainNests(base, path[1..], digest.content.dependencies[i].digest);
    }
  }

  lemma ChainTail(base: Inventory, path: seq<string>)
    requires IsChain(base, path) && |path| > 1
    ensures IsChain(base, path[1..])
  {
    assert Edge(base, path[0], path[1]);
  }

  /** Only a package off every cycle has a digest. */
  lemma CyclesHaveNoDigest(base: Inventory, path: seq<string>, digest: Digest)
    requires IsCycle(base, path)
    ensures !Derives(base, path[0], digest)
  {
    hide Derives, Weight;
    if Derives(base, path[0], digest) {
      var end := ChainNests(base, path, digest);
      DigestIsUnique(base, path[0], digest, end);
      assert false;
    }
  }

  /**
  Two inventories that give a package the same effective digest agree on everything below it: the
  package and each of its transitive dependencies in the inventory have equal build inputs, equal
  dependencies and equal digests in both.
  */
  lemma {:induction false} SameDigestSameClosure(before: Inventory, after: Inventory, path: seq<string>, digest: Digest)
    returns (end: Digest)
    requires IsChain(after, path)
    requires Derives(before, path[0], digest) && Derives(after, path[0], digest)
    ensures var last := path[|path| - 1];
      Derives(before, last, end) && Derives(after, last, end) && SameAt(before, after, last)
    decreases |path|
  {
    SameDigestSameItem(before, after, path[0], digest);
    hide Derives, Weight, Edge, SameAt;
    if |path| == 1 {
      end := digest;
    } else {
      assert Edge(after, path[0], path[1]);
      var i := EdgeNests(after, path[0], digest, path[1]);
      NestedIn(before, path[0], digest, i);
      ChainTail(after, path);
      end := SameDigestSameClosure(before, after, path[1..], digest.content.dependencies[i].digest);
    }
  }

  lemma SameDigestSameItem(before: Inventory, after: Inventory, name: string, digest: Digest)
    requires Derives(before, name, digest) && Derives(after, name, digest)
    ensures SameAt(before, after, name)
  {
    var x, y := before[name].dependencies, after[name].dependencies;
    assert |x| == |y|;
    forall i | 0 <= i < |x|
      ensures x[i] == y[i] && (x[i].name in before <==> x[i].name in after)
    {
      assert digest.content.dependencies[i].requirement == x[i];
      assert Names(before, x[i].name, digest.content.dependencies[i].digest);
      assert Names(after, y[i].name, digest.content.dependencies[i].digest);
    }
    assert x == y;
  }

  /** Both inventories hold the package with the same record, and agree on which of its dependencies they hold. */
  predicate SameAt(before: Inventory, after: Inventory, name: string) {
    && name in before && name in after && before[name] == after[name]
    && forall r :: r in after[name].dependencies ==> (r.name in before <==> r.name in after)
  }

  /** The two inventories agree on a package and on all its transitive dependencies. */
  ghost predicate Agree(before: Inventory, after: Inventory, name: string) {
    forall path :: IsChain(after, path) && path[0] == name ==> SameAt(before, after, path[|path| - 1])
  }

  lemma AgreeBelow(before: Inventory, after: Inventory, name: string, dependency: string)
    requires Agree(before, after, name) && Edge(after, name, dependency)
    ensures Agree(before, after, dependency)
  {
    hide Edge, SameAt;
    forall path | IsChain(after, path) && path[0] == dependency
      ensures SameAt(before, after, path[|path| - 1])
    {
      ChainPrepends(after, name, path);
      var longer := [name] + path;
      assert longer[|longer| - 1] == path[|path| - 1];
    }
  }

  lemma ChainPrepends(base: Inventory, name: string, path: seq<string>)
    requires IsChain(base, path) && Edge(base, name, path[0])
    ensures IsChain(base, [name] + path)
  {
    var longer := [name] + path;
    assert name in base;
    hide Edge;
    forall i, j | 0 <= i < j < |longer| && j == i + 1
      ensures Edge(base, longer[i], longer[j])
    {
      if i > 0 {
        var k := i - 1;
        assert longer[i] == path[k] && longer[j] == path[k + 1];
      }
    }
  }

  lemma AgreeHere(before: Inventory, after: Inventory, name: string)
    requires Agree(before, after, name) && name in after
    ensures SameAt(before, after, name)
  {
    assert IsChain(after, [name]);
  }

  lemma {:induction false} SameClosureSameDigest(before: Inventory, after: Inventory, name: string, digest: Digest)
    requires Agree(before, after, name) && Derives(after, name, digest)
    ensures Derives(before, name, digest)
    decreases digest
  {
    AgreeHere(before, after, name);
    var dependencies := digest.content.dependencies;
    forall i | 0 <= i < |dependencies|
      ensures Names(before, before[name].dependencies[i].name, dependencies[i].digest)
    {
      var r := after[name].dependencies[i];
      assert Names(after, r.name, dependencies[i].digest);
      if r.name in after {
        assert Edge(after, name, r.name);
        AgreeBelow(before, after, name, r.name);
        SameClosureSameDigest(before, after, r.name, dependencies[i].digest);
      }
    }
  }

  /** Equal digests mean equal closures, and equal closures equal digests. */
  lemma DigestIsClosure(before: Inventory, after: Inventory, name: string, digest: Digest)
    requires Derives(after, name, digest)
    ensures Derives(before, name, digest) <==> Agree(before, after, name)
  {
    hide Derives, SameAt;
    if Agree(before, after, name) {
      SameClosureSameDigest(before, after, name, digest);
    }
    if Derives(before, name, digest) {
      forall path | IsChain(after, path) && path[0] == name
        ensures SameAt(before, after, path[|path| - 1])
      {
        var end := SameDigestSameClosure(before, after, path, digest);
      }
    }
  }

  lemma NestedIn(base: Inventory, name: string, digest: Digest, i: nat)
    requires Derives(base, name, digest) && i < |digest.content.dependencies|
    requires digest.content.dependencies[i].digest.Sha256?
    ensures Derives(base, digest.content.dependencies[i].requirement.name, digest.content.dependencies[i].digest)
  {
    assert Names(base, base[name].dependencies[i].name, digest.content.dependencies[i].digest);
  }

  // ---------------------------------------------------------------- the memoised recursion

  datatype Failure = Cyclic(name: string) | InvalidInputs(name: string)

  /** The inventory has a cycle, or a package whose own record is unusable. */
  ghost predicate Real(base: Inventory, failure: Failure) {
    match failure
    case Cyclic(name) => exists path :: IsCycle(base, path) && path[0] == name
    case InvalidInputs(name) => name in base && !base[name].inputs.Valid()
  }

  ghost predicate Sound(base: Inventory) {
    && (forall name :: name in base ==> base[name].inputs.Valid())
    && forall path :: !IsCycle(base, path)
  }

  ghost predicate Leads(base: Inventory, path: seq<string>, name: string) {
    name in base && (path != [] ==> IsChain(base, path) && Edge(base, path[|path| - 1], name))
  }

  lemma LeadsOn(base: Inventory, path: seq<string>, name: string)
    requires Leads(base, path, name)
    ensures IsChain(base, path + [name])
  {
    hide Edge;
  }

  lemma RepeatIsCycle(base: Inventory, path: seq<string>, name: string)
    requires Leads(base, path, name) && name in path
    ensures Real(base, Cyclic(name))
  {
    hide Edge;
    LeadsOn(base, path, name);
    var longer := path + [name];
    var first :| 0 <= first < |path| && path[first] == name;
    var cycle := longer[first..];
    forall i, j | 0 <= i < j < |cycle| && j == i + 1
      ensures Edge(base, cycle[i], cycle[j])
    {
      var k := first + i;
      assert cycle[i] == longer[k] && cycle[j] == longer[k + 1];
    }
    assert IsCycle(base, cycle) && cycle[0] == name;
  }

  class Builder {
    const base: Inventory
    var effective: map<string, Digest>
    var visiting: set<string>
    var rewritten: map<string, seq<Resolved>>

    constructor (base: Inventory)
      ensures this.base == base && Valid() && visiting == {}
    {
      this.base := base;
      effective, visiting, rewritten := map[], {}, map[];
    }

    /** Every remembered digest is the one the plain recursion gives. */
    ghost predicate Valid()
      reads this
    {
      && (forall name :: name in effective ==> Derives(base, name, effective[name]))
      && (forall name :: name in effective ==>
            name in rewritten && effective[name].content == Document(base[name].inputs, rewritten[name]))
    }

    method EffectiveDigest(name: string, ghost path: seq<string>) returns (r: Result<Digest, Failure>)
      requires Valid() && Leads(base, path, name)
      requires forall n :: n in visiting <==> n in path
      modifies this
      ensures r.Err? ==> Real(base, r.error)
      ensures r.Ok? ==> Valid() && visiting == old(visiting) && name in effective && r.value == effective[name]
      ensures r.Ok? ==> forall n :: n in old(effective) ==> n in effective
      decreases base.Keys - visiting
    {
      hide Derives, Edge, IsChain, Leads, Real, Inputs.Valid;
      InInventory(base, path, name);
      if name in effective {
        return Ok(effective[name]);
      }
      if name in visiting {
        RepeatIsCycle(base, path, name);
        return Err(Cyclic(name));
      }
      visiting := visiting + {name};
      var item := base[name];
      var dependencies: seq<Resolved> := [];
      for i := 0 to |item.dependencies|
        invariant Valid() && visiting == old(visiting) + {name}
        invariant forall n :: n in old(effective) ==> n in effective
        invariant |dependencies| == i
        invariant forall k :: 0 <= k < i ==> Resolves(base, item.dependencies[k], dependencies[k])
      {
        var dependency := item.dependencies[i];
        if dependency.name in base {
          StepLeads(base, path, name, dependency);
          var digest := EffectiveDigest(dependency.name, path + [name]);
          if digest.Err? {
            return digest;
          }
          dependencies := dependencies + [Resolved(dependency, digest.value)];
        } else {
          dependencies := dependencies + [Resolved(dependency, External)];
        }
      }
      rewritten := rewritten[name := dependencies];
      if !item.inputs.Valid() {
        InvalidIsReal(base, name);
        return Err(InvalidInputs(name));
      }
      r := Ok(Sha256(Document(item.inputs, dependencies)));
      DocumentDerives(base, name, dependencies);
      effective := effective[name := r.value];
      visiting := visiting - {name};
    }
  }

  ghost predicate Resolves(base: Inventory, requirement: Requirement, resolved: Resolved) {
    resolved.requirement == requirement && Names(base, requirement.name, resolved.digest)
  }

  lemma InInventory(base: Inventory, path: seq<string>, name: string)
    requires Leads(base, path, name)
    ensures name in base
  {
  }

  lemma InvalidIsReal(base: Inventory, name: string)
    requires name in base && !base[name].inputs.Valid()
    ensures Real(base, InvalidInputs(name))
  {
  }

  lemma StepLeads(base: Inventory, path: seq<string>, name: string, r: Requirement)
    requires Leads(base, path, name) && r in base[name].dependencies && r.name in base
    ensures Leads(base, path + [name], r.name)
  {
    LeadsOn(base, path, name);
    assert Edge(base, name, r.name);
  }

  lemma DocumentDerives(base: Inventory, name: string, dependencies: seq<Resolved>)
    requires name in base && base[name].inputs.Valid() && |dependencies| == |base[name].dependencies|
    requires forall k :: 0 <= k < |dependencies| ==> Resolves(base, base[name].dependencies[k], dependencies[k])
    ensures Derives(base, name, Sha256(Document(base[name].inputs, dependencies)))
  {
    hide Names, Inputs.Valid;
    var digest := Sha256(Document(base[name].inputs, dependencies));
    forall i | 0 <= i < |base[name].dependencies|
      ensures digest.content.dependencies[i].requirement == base[name].dependencies[i]
      ensures Names(base, base[name].dependencies[i].name, digest.content.dependencies[i].digest)
    {
      assert Resolves(base, base[name].dependencies[i], dependencies[i]);
    }
  }

  /** What a repository publishes: every package with its provenance. */
  type Repository = seq<(string, Document)>

  ghost predicate Records(base: Inventory, packages: Repository) {
    && (forall i :: 0 <= i < |packages| ==> Derives(base, packages[i].0, Sha256(packages[i].1)))
    && (forall name :: name in base ==> exists i :: 0 <= i < |packages| && packages[i].0 == name)
  }

  /** Succeeds exactly on a usable, acyclic inventory, and then records what the plain recursion gives. */
  method Build(base: Inventory, names: seq<string>) returns (r: Result<Repository, Failure>)
    requires forall name :: name in names <==> name in base
    ensures r.Ok? <==> Sound(base)
    ensures r.Ok? ==> Records(base, r.value) && |r.value| == |names|
    ensures r.Ok? ==> forall i :: 0 <= i < |names| ==> r.value[i].0 == names[i]
    ensures r.Err? ==> Real(base, r.error)
  {
    hide Derives, IsChain, Edge, Sound, Real, Inputs.Valid;
    var builder := new Builder(base);
    var output: Repository := [];
    for i := 0 to |names|
      invariant fresh(builder) && builder.base == base && builder.Valid() && builder.visiting == {} && |output| == i
      invariant forall k :: 0 <= k < i ==> output[k].0 == names[k] && Derives(base, names[k], Sha256(output[k].1))
    {
      assert Leads(base, [], names[i]);
      var digest := builder.EffectiveDigest(names[i], []);
      if digest.Err? {
        RealIsUnsound(base, digest.error);
        return Err(digest.error);
      }
      var document := Document(base[names[i]].inputs, builder.rewritten[names[i]]);
      DerivedIsHash(base, names[i], digest.value);
      output := output + [(names[i], document)];
    }
    DerivedIsSound(base, output);
    return Ok(output);
  }

  lemma DerivedIsHash(base: Inventory, name: string, digest: Digest)
    requires Derives(base, name, digest)
    ensures digest == Sha256(digest.content)
  {
  }

  lemma RealIsUnsound(base: Inventory, failure: Failure)
    requires Real(base, failure)
    ensures !Sound(base)
  {
    hide IsCycle;
  }

  lemma DerivedIsSound(base: Inventory, packages: Repository)
    requires Records(base, packages)
    ensures Sound(base)
  {
    forall name | name in base
      ensures base[name].inputs.Valid()
    {
      var i :| 0 <= i < |packages| && packages[i].0 == name;
      assert Derives(base, name, Sha256(packages[i].1));
    }
    hide Derives, Inputs.Valid;
    forall path
      ensures !IsCycle(base, path)
    {
      if IsCycle(base, path) {
        var i :| 0 <= i < |packages| && packages[i].0 == path[0];
        CyclesHaveNoDigest(base, path, Sha256(packages[i].1));
        assert false;
      }
    }
  }

  /** The order in which packages are visited shows in no digest. */
  lemma VisitingOrderIsIrrelevant(base: Inventory, a: Repository, b: Repository, i: nat, j: nat)
    requires Records(base, a) && Records(base, b) && i < |a| && j < |b| && a[i].0 == b[j].0
    ensures a[i] == b[j]
  {
    DigestIsUnique(base, a[i].0, Sha256(a[i].1), Sha256(b[j].1));
  }

  /** Inputs are unusable exactly without a kernel version or with a tree or file digest that is none. */
  lemma UnusableExactly(inputs: Inputs)
    ensures !inputs.Valid() <==>
      || inputs.osversion <= 0
      || exists digest :: !IsSha256(digest)
           && digest in {inputs.portDirectory, inputs.patches, inputs.mk,
                         inputs.makeConfiguration, inputs.architecturePolicy}
  {
    hide IsSha256;
    var digests := {inputs.portDirectory, inputs.patches, inputs.mk,
                    inputs.makeConfiguration, inputs.architecturePolicy};
    assert inputs.portDirectory in digests && inputs.patches in digests && inputs.mk in digests
        && inputs.makeConfiguration in digests && inputs.architecturePolicy in digests;
  }
}
