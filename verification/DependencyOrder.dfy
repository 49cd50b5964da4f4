/**
The install order of the worker tools: a depth-first walk over the runtime dependencies of a signed
package catalogue, which either lists the whole closure of the roots, every package after what it
depends on, or names what is wrong with that closure.
*/
module DependencyOrder {
  import opened Wrappers

  datatype Requirement = Requirement(name: string, version: string, origin: string)

  datatype Package = Package(name: string, version: string, origin: string, dependencies: seq<Requirement>)

  /** A parsed catalogue: the first package of every name, and the names that more than one package carries. */
  datatype Catalogue = Catalogue(packages: map<string, Package>, duplicates: set<string>) {
    predicate Valid() {
      forall name :: name in packages ==> packages[name].name == name
    }

    predicate Depends(a: string, b: string) {
      a in packages && exists r :: r in packages[a].dependencies && r.name == b
    }
  }

  datatype Failure =
    | Ambiguous(name: string)
    | MissingRoot(name: string)
    | MissingDependency(name: string, requiredBy: string)
    | VersionMismatch(name: string, requiredBy: string)
    | OriginMismatch(name: string, requiredBy: string)
    | DependencyCycle(path: seq<string>)

  // ---------------------------------------------------------------- the closure of the roots

  ghost predicate IsPath(c: Catalogue, path: seq<string>) {
    path != [] && forall i, j :: 0 <= i < j < |path| && j == i + 1 ==> c.Depends(path[i], path[j])
  }

  ghost predicate Reaches(c: Catalogue, roots: seq<string>, name: string) {
    exists path :: IsPath(c, path) && path[0] in roots && path[|path| - 1] == name
  }

  lemma RootIsReached(c: Catalogue, roots: seq<string>, name: string)
    requires name in roots
    ensures Reaches(c, roots, name)
  {
    var path := [name];
    assert IsPath(c, path) && path[0] in roots;
  }

  lemma DependencyIsReached(c: Catalogue, roots: seq<string>, a: string, b: string)
    requires Reaches(c, roots, a) && c.Depends(a, b)
    ensures Reaches(c, roots, b)
  {
    hide Catalogue.Depends;
    var path :| IsPath(c, path) && path[0] in roots && path[|path| - 1] == a;
    var longer := path + [b];
    assert IsPath(c, longer) && longer[0] in roots && longer[|longer| - 1] == b;
  }

  /** A requirement that the catalogue meets. */
  predicate Met(c: Catalogue, r: Requirement) {
    && r.name in c.packages && c.packages[r.name].version == r.version && c.packages[r.name].origin == r.origin
  }

  /** A package of the closure that can be installed once its dependencies are. */
  predicate Sound(c: Catalogue, name: string) {
    && name !in c.duplicates && name in c.packages
    && forall r :: r in c.packages[name].dependencies ==> Met(c, r)
  }

  ghost predicate IsCycle(c: Catalogue, path: seq<string>) {
    IsPath(c, path) && |path| >= 2 && path[0] == path[|path| - 1]
  }

  /** The closure of the roots is present, unambiguous, consistent and acyclic. */
  ghost predicate Resolvable(c: Catalogue, roots: seq<string>) {
    && (forall name :: Reaches(c, roots, name) ==> Sound(c, name))
    && forall path :: IsCycle(c, path) ==> !Reaches(c, roots, path[0])
  }

  /** The failure names a real defect of the closure. */
  ghost predicate Real(c: Catalogue, roots: seq<string>, failure: Failure) {
    match failure
    case Ambiguous(name) => Reaches(c, roots, name) && name in c.duplicates
    case MissingRoot(name) => name in roots && name !in c.packages
    case MissingDependency(name, user) => Reaches(c, roots, user) && c.Depends(user, name) && name !in c.packages
    case VersionMismatch(name, user) =>
      Reaches(c, roots, user) && user in c.packages
      && name in c.packages
      && exists r :: r in c.packages[user].dependencies && r.name == name && c.packages[name].version != r.version
    case OriginMismatch(name, user) =>
      Reaches(c, roots, user) && user in c.packages
      && name in c.packages
      && exists r :: r in c.packages[user].dependencies && r.name == name && c.packages[name].origin != r.origin
    case DependencyCycle(path) => IsCycle(c, path) && Reaches(c, roots, path[0])
  }

  lemma RealIsUnresolvable(c: Catalogue, roots: seq<string>, failure: Failure)
    requires Real(c, roots, failure)
    ensures !Resolvable(c, roots)
  {
    match failure
    case MissingRoot(name) =>
      RootIsReached(c, roots, name);
      assert !Sound(c, name);
    case MissingDependency(name, user) =>
      var r :| r in c.packages[user].dependencies && r.name == name;
      assert !Met(c, r);
      assert !Sound(c, user);
    case VersionMismatch(name, user) =>
      var r :| r in c.packages[user].dependencies && r.name == name && c.packages[name].version != r.version;
      assert !Met(c, r);
      assert !Sound(c, user);
    case OriginMismatch(name, user) =>
      var r :| r in c.packages[user].dependencies && r.name == name && c.packages[name].origin != r.origin;
      assert !Met(c, r);
      assert !Sound(c, user);
    case Ambiguous(name) => assert !Sound(c, name);
    case DependencyCycle(path) =>
  }

  // ---------------------------------------------------------------- the order

  predicate Listed(order: seq<Package>, name: string) {
    exists i :: 0 <= i < |order| && order[i].name == name
  }

  /** Packages of the catalogue, once each, every one after all its dependencies. */
  ghost predicate IsOrder(c: Catalogue, order: seq<Package>) {
    && (forall i :: 0 <= i < |order| ==> Sound(c, order[i].name) && c.packages[order[i].name] == order[i])
    && (forall i, j :: 0 <= i < j < |order| ==> order[i].name != order[j].name)
    && forall i :: 0 <= i < |order| ==> Settled(order, i)
  }

  predicate Settled(order: seq<Package>, i: nat)
    requires i < |order|
  {
    forall r :: r in order[i].dependencies ==> Listed(order[..i], r.name)
  }

  lemma OrderExtends(c: Catalogue, order: seq<Package>, p: Package)
    requires IsOrder(c, order) && Sound(c, p.name) && c.packages[p.name] == p && !Listed(order, p.name)
    requires forall r :: r in p.dependencies ==> Listed(order, r.name)
    ensures IsOrder(c, order + [p])
    ensures forall name :: Listed(order + [p], name) <==> Listed(order, name) || name == p.name
  {
    hide Sound;
    var longer := order + [p];
    forall i | 0 <= i < |longer|
      ensures Settled(longer, i)
    {
      assert longer[..i] == order[..i];
      if i < |order| {
        assert Settled(order, i);
      } else {
        assert order[..i] == order;
      }
    }
    forall name
      ensures Listed(longer, name) <==> Listed(order, name) || name == p.name
    {
      if name == p.name {
        assert longer[|order|].name == name;
      } else if Listed(order, name) {
        var i :| 0 <= i < |order| && order[i].name == name;
        assert longer[i].name == name;
      }
    }
  }

  /** Everything that a listed package leads to is listed, and earlier. */
  lemma {:induction false} PathDescends(c: Catalogue, order: seq<Package>, path: seq<string>, i: nat) returns (j: nat)
    requires c.Valid() && IsOrder(c, order) && IsPath(c, path) && i < |order| && order[i].name == path[0]
    ensures j < |order| && order[j].name == path[|path| - 1]
    ensures j <= i && (|path| > 1 ==> j < i)
    decreases |path|
  {
    hide Sound;
    if |path| == 1 {
      j := i;
    } else {
      assert c.Depends(path[0], path[1]);
      assert Settled(order, i);
      assert Listed(order[..i], path[1]);
      var k :| 0 <= k < i && order[..i][k].name == path[1];
      assert IsPath(c, path[1..]);
      j := PathDescends(c, order, path[1..], k);
    }
  }

  /** A listing that holds the roots holds exactly their closure, and shows it free of defects. */
  lemma OrderResolves(c: Catalogue, roots: seq<string>, order: seq<Package>)
    requires c.Valid() && IsOrder(c, order) && forall root :: root in roots ==> Listed(order, root)
    ensures forall name :: Reaches(c, roots, name) ==> Listed(order, name)
    ensures Resolvable(c, roots)
  {
    hide Sound;
    forall name | Reaches(c, roots, name)
      ensures Listed(order, name) && Sound(c, name)
    {
      var path :| IsPath(c, path) && path[0] in roots && path[|path| - 1] == name;
      var i :| 0 <= i < |order| && order[i].name == path[0];
      var j := PathDescends(c, order, path, i);
      assert Sound(c, order[j].name);
    }
    forall path | IsCycle(c, path)
      ensures !Reaches(c, roots, path[0])
    {
      if Reaches(c, roots, path[0]) {
        var i :| 0 <= i < |order| && order[i].name == path[0];
        var j := PathDescends(c, order, path, i);
        assert false;
      }
    }
  }

  // ---------------------------------------------------------------- the walk

  datatype Status = Open | Done

  /** What is finished is listed, and what is open is a path of the closure that leads to the current package. */
  ghost predicate IsWalk(c: Catalogue, roots: seq<string>, order: seq<Package>, state: map<string, Status>,
                         stack: seq<string>) {
    && IsOrder(c, order)
    && (forall i :: 0 <= i < |order| ==> Reaches(c, roots, order[i].name))
    && (forall name :: Marked(state, name, Done) <==> Listed(order, name))
    && (forall name :: Marked(state, name, Open) <==> name in stack)
    && (forall name :: name in stack ==> Reaches(c, roots, name) && name in c.packages)
    && (forall i, j :: 0 <= i < j < |stack| ==> stack[i] != stack[j])
    && (stack != [] ==> IsPath(c, stack))
  }

  predicate Marked(state: map<string, Status>, name: string, status: Status) {
    name in state && state[name] == status
  }

  predicate LeadsTo(c: Catalogue, stack: seq<string>, name: string) {
    stack != [] ==> c.Depends(stack[|stack| - 1], name)
  }

  lemma WalkOpens(c: Catalogue, roots: seq<string>, order: seq<Package>, state: map<string, Status>,
                  stack: seq<string>, name: string)
    requires IsWalk(c, roots, order, state, stack) && Reaches(c, roots, name) && name in c.packages
    requires name !in state && LeadsTo(c, stack, name)
    ensures IsWalk(c, roots, order, state[name := Open], stack + [name])
  {
    hide IsOrder, Reaches, Listed, Catalogue.Depends;
    assert !Marked(state, name, Open) && !Marked(state, name, Done);
    var longer := stack + [name];
    forall other
      ensures Marked(state[name := Open], other, Done) <==> Listed(order, other)
      ensures Marked(state[name := Open], other, Open) <==> other in longer
    {
      assert Marked(state, other, Done) <==> Listed(order, other);
      assert Marked(state, other, Open) <==> other in stack;
    }
  }

  lemma WalkCloses(c: Catalogue, roots: seq<string>, order: seq<Package>, state: map<string, Status>,
                   stack: seq<string>, name: string)
    requires c.Valid() && IsWalk(c, roots, order, state, stack + [name]) && Sound(c, name)
    requires forall r :: r in c.packages[name].dependencies ==> Listed(order, r.name)
    ensures IsWalk(c, roots, order + [c.packages[name]], state[name := Done], stack)
    ensures Listed(order + [c.packages[name]], name)
  {
    hide IsOrder, Reaches, Listed, Sound, Catalogue.Depends;
    var open := stack + [name];
    assert open[|stack|] == name;
    assert Marked(state, name, Open) && !Marked(state, name, Done);
    OrderExtends(c, order, c.packages[name]);
    forall k | 0 <= k < |stack|
      ensures stack[k] != name
    {
      assert open[k] == stack[k] && open[k] != open[|stack|];
    }
    forall other
      ensures Marked(state[name := Done], other, Done) <==> Listed(order + [c.packages[name]], other)
      ensures Marked(state[name := Done], other, Open) <==> other in stack
    {
      assert Marked(state, other, Done) <==> Listed(order, other);
      assert Marked(state, other, Open) <==> other in open;
      assert other in open <==> other in stack || other == name;
    }
    if stack != [] {
      assert stack == open[..|stack|];
      PathPrefix(c, open, |stack|);
    }
  }

  lemma PathPrefix(c: Catalogue, path: seq<string>, n: nat)
    requires IsPath(c, path) && 0 < n <= |path|
    ensures IsPath(c, path[..n])
  {
    hide Catalogue.Depends;
  }

  class Resolver {
    const catalogue: Catalogue
    const roots: seq<string>
    var order: seq<Package>
    var state: map<string, Status>
    var stack: seq<string>

    constructor (catalogue: Catalogue, roots: seq<string>)
      requires catalogue.Valid()
      ensures Valid() && order == [] && stack == [] && this.catalogue == catalogue && this.roots == roots
    {
      this.catalogue, this.roots := catalogue, roots;
      order, state, stack := [], map[], [];
    }

    ghost predicate Valid()
      reads this
    {
      catalogue.Valid() && IsWalk(catalogue, roots, order, state, stack)
    }

    method Visit(name: string, requiredBy: Option<string>) returns (failure: Option<Failure>)
      requires Valid() && Reaches(catalogue, roots, name) && LeadsTo(catalogue, stack, name)
      requires requiredBy.None? ==> name in roots
      requires requiredBy.Some? ==>
        catalogue.Depends(requiredBy.value, name) && Reaches(catalogue, roots, requiredBy.value)
      modifies this
      ensures failure.Some? ==> Real(catalogue, roots, failure.value)
      ensures failure.None? ==> Valid() && stack == old(stack) && old(order) <= order && Listed(order, name)
      ensures failure.None? ==> old(state).Keys <= state.Keys
      decreases catalogue.packages.Keys - state.Keys
    {
      hide IsWalk, Reaches, Listed, Catalogue.Depends, Sound, Catalogue.Valid;
      if name in catalogue.duplicates {
        return Some(Ambiguous(name));
      }
      if name !in catalogue.packages {
        return Some(if requiredBy.None? then MissingRoot(name) else MissingDependency(name, requiredBy.value));
      }
      if name in state && state[name] == Done {
        DoneIsListed(catalogue, roots, order, state, stack, name);
        return None;
      }
      if name in state && state[name] == Open {
        OpenIsStacked(catalogue, roots, order, state, stack, name);
        var first := IndexOf(stack, name);
        CycleIsReal(catalogue, roots, stack, first, name);
        return Some(DependencyCycle(stack[first..] + [name]));
      }
      var package := catalogue.packages[name];
      PackageIsNamed(catalogue, name);
      ghost var outer := stack;
      WalkOpens(catalogue, roots, order, state, stack, name);
      state := state[name := Open];
      stack := stack + [name];
      ghost var keys := state.Keys;
      for i := 0 to |package.dependencies|
        invariant Valid() && stack == outer + [name] && old(order) <= order && keys <= state.Keys
        invariant forall k :: 0 <= k < i ==> Listed(order, package.dependencies[k].name)
        invariant forall k :: 0 <= k < i ==> Met(catalogue, package.dependencies[k])
      {
        var r := package.dependencies[i];
        RequirementIsStep(catalogue, name, r);
        if r.name !in catalogue.packages {
          return Some(MissingDependency(r.name, package.name));
        }
        var dependency := catalogue.packages[r.name];
        if dependency.version != r.version {
          return Some(VersionMismatch(r.name, package.name));
        }
        if dependency.origin != r.origin {
          return Some(OriginMismatch(r.name, package.name));
        }
        DependencyIsReached(catalogue, roots, name, r.name);
        ghost var listed := order;
        failure := Visit(r.name, Some(package.name));
        if failure.Some? {
          return;
        }
        ListedGrows(listed, order);
      }
      MeetsAll(catalogue, name);
      WalkCloses(catalogue, roots, order, state, outer, name);
      stack := stack[..|stack| - 1];
      assert stack == outer;
      state := state[name := Done];
      order := order + [package];
      return None;
    }
  }

  lemma DoneIsListed(c: Catalogue, roots: seq<string>, order: seq<Package>, state: map<string, Status>,
                     stack: seq<string>, name: string)
    requires IsWalk(c, roots, order, state, stack) && name in state && state[name] == Done
    ensures Listed(order, name)
  {
    hide IsOrder, Reaches, Listed;
    assert Marked(state, name, Done);
  }

  lemma OpenIsStacked(c: Catalogue, roots: seq<string>, order: seq<Package>, state: map<string, Status>,
                      stack: seq<string>, name: string)
    requires IsWalk(c, roots, order, state, stack) && name in state && state[name] == Open
    ensures name in stack && IsPath(c, stack)
  {
    hide IsOrder, Reaches, Listed;
    assert Marked(state, name, Open);
  }

  lemma PackageIsNamed(c: Catalogue, name: string)
    requires c.Valid() && name in c.packages
    ensures c.packages[name].name == name
  {
  }

  lemma RequirementIsStep(c: Catalogue, name: string, r: Requirement)
    requires name in c.packages && r in c.packages[name].dependencies
    ensures c.Depends(name, r.name)
  {
  }

  lemma MeetsAll(c: Catalogue, name: string)
    requires name in c.packages && name !in c.duplicates
    requires forall k :: 0 <= k < |c.packages[name].dependencies| ==> Met(c, c.packages[name].dependencies[k])
    ensures Sound(c, name)
  {
    hide Met;
  }

  method IndexOf(s: seq<string>, name: string) returns (first: nat)
    requires name in s
    ensures first < |s| && s[first] == name && name !in s[..first]
  {
    first := 0;
    while s[first] != name
      invariant first < |s| && name !in s[..first]
      decreases |s| - first
    {
      assert name in s[first + 1..];
      first := first + 1;
    }
  }

  lemma ListedGrows(a: seq<Package>, b: seq<Package>)
    requires a <= b
    ensures forall name :: Listed(a, name) ==> Listed(b, name)
  {
    forall name | Listed(a, name)
      ensures Listed(b, name)
    {
      var i :| 0 <= i < |a| && a[i].name == name;
      assert b[i].name == name;
    }
  }

  /** The rest of the open path from a name, closed by a step back to that name, is a cycle of the closure. */
  lemma CycleIsReal(c: Catalogue, roots: seq<string>, stack: seq<string>, first: nat, name: string)
    requires IsPath(c, stack) && first < |stack| && stack[first] == name && Reaches(c, roots, name)
    requires c.Depends(stack[|stack| - 1], name)
    ensures Real(c, roots, DependencyCycle(stack[first..] + [name]))
  {
    hide Catalogue.Depends, Reaches;
    var path := stack[first..] + [name];
    forall i, j | 0 <= i < j < |path| && j == i + 1
      ensures c.Depends(path[i], path[j])
    {
      var k := first + i;
      assert path[i] == stack[k];
      if j < |path| - 1 {
        assert path[j] == stack[k + 1];
      }
    }
    assert IsPath(c, path);
  }

  lemma ListedIsReached(c: Catalogue, roots: seq<string>, order: seq<Package>)
    requires forall i :: 0 <= i < |order| ==> Reaches(c, roots, order[i].name)
    ensures forall name :: Listed(order, name) ==> Reaches(c, roots, name)
  {
    hide Reaches;
  }

  /** The whole walk: the order of the closure, or a real defect of it. */
  method ResolveOrder(catalogue: Catalogue, roots: seq<string>) returns (r: Result<seq<Package>, Failure>)
    requires catalogue.Valid()
    ensures r.Ok? ==> IsOrder(catalogue, r.value)
    ensures r.Ok? ==> forall name :: Listed(r.value, name) <==> Reaches(catalogue, roots, name)
    ensures r.Err? ==> Real(catalogue, roots, r.error)
    ensures r.Ok? <==> Resolvable(catalogue, roots)
  {
    var resolver := new Resolver(catalogue, roots);
    for i := 0 to |roots|
      invariant resolver.Valid() && resolver.stack == [] && resolver.catalogue == catalogue && resolver.roots == roots
      invariant forall k :: 0 <= k < i ==> Listed(resolver.order, roots[k])
      invariant fresh(resolver)
    {
      hide Listed, Resolver.Valid, Reaches, Real, Resolvable;
      RootIsReached(catalogue, roots, roots[i]);
      ghost var listed := resolver.order;
      var failure := resolver.Visit(roots[i], None);
      if failure.Some? {
        RealIsUnresolvable(catalogue, roots, failure.value);
        return Err(failure.value);
      }
      ListedGrows(listed, resolver.order);
    }
    hide Listed, Reaches, Resolvable;
    assert forall root :: root in roots ==> Listed(resolver.order, root);
    OrderResolves(catalogue, roots, resolver.order);
    ListedIsReached(catalogue, roots, resolver.order);
    return Ok(resolver.order);
  }
}
