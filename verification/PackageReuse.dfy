/**
Which packages of the previous repository are reused: those whose provenance is exactly what the
current inventory gives, under the present or the earlier way of digesting the make configuration.
*/
module PackageReuse {
  import opened Wrappers
  import opened Provenance

  predicate Reusable(previous: Option<Document>, current: Document, pinUnchanged: bool) {
    && pinUnchanged
    && previous.Some? && previous.value.inputs.Valid() && current.inputs.Valid()
    && previous.value == current
    && !current.inputs.kernelSensitive
  }

  /** The provenance of a package in a repository; a later entry replaces an earlier one. */
  function Lookup(packages: Repository, name: string): Option<Document> {
    if packages == [] then None
    else if packages[|packages| - 1].0 == name then Some(packages[|packages| - 1].1)
    else Lookup(packages[..|packages| - 1], name)
  }

  predicate Accepts(previous: Repository, legacy: Repository, name: string, now: Document, pinUnchanged: bool) {
    || Reusable(Lookup(previous, name), now, pinUnchanged)
    || (var oldStyle := Lookup(legacy, name);
        oldStyle.Some? && Reusable(Lookup(previous, name), oldStyle.value, pinUnchanged))
  }

  function Get(named: map<string, Document>, name: string): Option<Document> {
    if name in named then Some(named[name]) else None
  }

  method ByName(packages: Repository) returns (named: map<string, Document>)
    ensures forall name :: Get(named, name) == Lookup(packages, name)
  {
    named := map[];
    for i := 0 to |packages|
      invariant forall name :: Get(named, name) == Lookup(packages[..i], name)
    {
      assert packages[..i + 1][..i] == packages[..i];
      named := named[packages[i].0 := packages[i].1];
    }
    assert packages[..|packages|] == packages;
  }

  function NamesOf(packages: Repository): seq<string> {
    seq(|packages|, i requires 0 <= i < |packages| => packages[i].0)
  }

  /** Every package of the current repository is either accepted or rejected. */
  method Select(previous: Repository, current: Repository, legacy: Repository, pinUnchanged: bool)
    returns (accepted: seq<string>, rejected: seq<string>)
    ensures multiset(accepted) + multiset(rejected) == multiset(NamesOf(current))
    ensures forall name :: name in accepted <==>
      exists i :: 0 <= i < |current| && current[i].0 == name
        && Accepts(previous, legacy, name, current[i].1, pinUnchanged)
    ensures forall name :: name in rejected <==>
      exists i :: 0 <= i < |current| && current[i].0 == name
        && !Accepts(previous, legacy, name, current[i].1, pinUnchanged)
  {
    hide Lookup, Reusable;
    var known := ByName(previous);
    var oldStyle := ByName(legacy);
    accepted, rejected := [], [];
    for i := 0 to |current|
      invariant multiset(accepted) + multiset(rejected) == multiset(NamesOf(current)[..i])
      invariant forall name :: name in accepted <==>
        exists k :: 0 <= k < i && current[k].0 == name && Accepts(previous, legacy, name, current[k].1, pinUnchanged)
      invariant forall name :: name in rejected <==>
        exists k :: 0 <= k < i && current[k].0 == name && !Accepts(previous, legacy, name, current[k].1, pinUnchanged)
    {
      var name, now := current[i].0, current[i].1;
      var ok := Reusable(Get(known, name), now, pinUnchanged);
      assert Get(oldStyle, name) == Lookup(legacy, name);
      if !ok && name in oldStyle {
        ok := Reusable(Get(known, name), oldStyle[name], pinUnchanged);
      }
      assert ok == Accepts(previous, legacy, name, now, pinUnchanged);
      assert NamesOf(current)[..i + 1] == NamesOf(current)[..i] + [name];
      if ok {
        accepted := accepted + [name];
      } else {
        rejected := rejected + [name];
      }
    }
    assert NamesOf(current)[..|current|] == NamesOf(current);
  }

  lemma {:induction false} LookupIsRecorded(packages: Repository, name: string)
    ensures match Lookup(packages, name)
            case Some(document) => (name, document) in packages
            case None => forall i :: 0 <= i < |packages| ==> packages[i].0 != name
  {
    if packages != [] {
      LookupIsRecorded(packages[..|packages| - 1], name);
    }
  }

  /** A lookup gives what the plain recursion gives, for exactly the packages of the inventory. */
  lemma LookupDerives(base: Inventory, packages: Repository, name: string)
    requires Records(base, packages)
    ensures Lookup(packages, name).Some? <==> name in base
    ensures Lookup(packages, name).Some? ==> Derives(base, name, Sha256(Lookup(packages, name).value))
  {
    LookupIsRecorded(packages, name);
    var found := Lookup(packages, name);
    if found.Some? {
      var i :| 0 <= i < |packages| && packages[i] == (name, found.value);
      assert Derives(base, packages[i].0, Sha256(packages[i].1));
    }
  }

  /** One provenance is reused exactly when the two inventories agree on the package and all below it. */
  lemma ReusableIsAgreement(before: Inventory, after: Inventory, previous: Repository, name: string, now: Document,
                            pinUnchanged: bool)
    requires Records(before, previous) && Derives(after, name, Sha256(now))
    ensures Reusable(Lookup(previous, name), now, pinUnchanged) <==>
      pinUnchanged && !after[name].inputs.kernelSensitive && Agree(before, after, name)
  {
    assert now.inputs == after[name].inputs && now.inputs.Valid();
    DigestIsClosure(before, after, name, Sha256(now));
    LookupDerives(before, previous, name);
    hide Agree, Lookup, Inputs.Valid;
    var recorded := Lookup(previous, name);
    if recorded.Some? {
      ValidOf(before, name, recorded.value);
      if Derives(before, name, Sha256(now)) {
        DigestIsUnique(before, name, Sha256(now), Sha256(recorded.value));
      }
    }
  }

  lemma ValidOf(base: Inventory, name: string, document: Document)
    requires Derives(base, name, Sha256(document))
    ensures document.inputs.Valid() && name in base && document.inputs == base[name].inputs
  {
  }

  /**
  A package is reused exactly when, on the unchanged pin and unless it is coupled to the kernel, the
  previous inventory agrees with the current one, or with the current one under the earlier make
  configuration digest, on the package and everything below it.
  */
  lemma AcceptedIsAgreement(before: Inventory, after: Inventory, styled: Inventory,
                            previous: Repository, current: Repository, legacy: Repository, i: nat, pinUnchanged: bool)
    requires Records(before, previous) && Records(after, current) && Records(styled, legacy) && i < |current|
    ensures var name := current[i].0;
      name in after &&
      (Accepts(previous, legacy, name, current[i].1, pinUnchanged) <==>
        pinUnchanged &&
        ((!after[name].inputs.kernelSensitive && Agree(before, after, name)) ||
         (name in styled && !styled[name].inputs.kernelSensitive && Agree(before, styled, name))))
  {
    var name := current[i].0;
    assert Derives(after, name, Sha256(current[i].1));
    ValidOf(after, name, current[i].1);
    LookupDerives(styled, legacy, name);
    hide Agree, Lookup, Reusable, Derives;
    ReusableIsAgreement(before, after, previous, name, current[i].1, pinUnchanged);
    if name in styled {
      ReusableIsAgreement(before, styled, previous, name, Lookup(legacy, name).value, pinUnchanged);
    }
  }

  /** The current inventory as the earlier digest of the make configuration records it. */
  ghost predicate Restyled(after: Inventory, styled: Inventory) {
    && after.Keys == styled.Keys
    && forall name :: name in after ==> SameButConfiguration(after[name], styled[name])
  }

  predicate SameButConfiguration(a: Item, b: Item) {
    && a.dependencies == b.dependencies
    && b.inputs == a.inputs.(makeConfiguration := b.inputs.makeConfiguration)
  }

  lemma ChainRestyled(after: Inventory, styled: Inventory, path: seq<string>)
    requires Restyled(after, styled) && IsChain(after, path)
    ensures IsChain(styled, path)
  {
    forall i, j | 0 <= i < j < |path| && j == i + 1
      ensures Edge(styled, path[i], path[j])
    {
      assert Edge(after, path[i], path[j]);
    }
  }

  /**
  No reused package hides a change below it: every package it leads to is one the previous
  repository built alike.
  */
  lemma ReuseCoversClosure(before: Inventory, after: Inventory, styled: Inventory,
                           previous: Repository, current: Repository, legacy: Repository, i: nat, pinUnchanged: bool,
                           path: seq<string>)
    requires Records(before, previous) && Records(after, current) && Records(styled, legacy) && Restyled(after, styled)
    requires i < |current| && Accepts(previous, legacy, current[i].0, current[i].1, pinUnchanged)
    requires IsChain(after, path) && path[0] == current[i].0
    ensures var last := path[|path| - 1];
      last in before && last in after && SameButConfiguration(after[last], before[last])
  {
    hide Derives, Edge, Reusable, Lookup, Accepts, Records;
    AcceptedIsAgreement(before, after, styled, previous, current, legacy, i, pinUnchanged);
    ChainRestyled(after, styled, path);
    var last := path[|path| - 1];
    if Agree(before, after, path[0]) {
      assert SameAt(before, after, last);
    } else {
      assert SameAt(before, styled, last);
    }
  }

  // ---------------------------------------------------------------- one provenance and another

  /** On the same pin a provenance is reused exactly if it was recorded before, is usable, and is not the kernel's. */
  lemma ReusableExactly(previous: Option<Document>, current: Document, pinUnchanged: bool)
    ensures Reusable(previous, current, pinUnchanged) <==>
      pinUnchanged && previous == Some(current) && current.inputs.Valid() && current.inputs.kernelSensitive == false
  {
    hide Inputs.Valid;
  }

  /** Two items that differ in the digest of the make configuration at most. */
  lemma SameButConfigurationExactly(a: Item, b: Item)
    ensures SameButConfiguration(a, b) <==>
      exists configuration :: b == Item(a.inputs.(makeConfiguration := configuration), a.dependencies)
  {
    if SameButConfiguration(a, b) {
      assert b == Item(a.inputs.(makeConfiguration := b.inputs.makeConfiguration), a.dependencies);
    }
  }
}
