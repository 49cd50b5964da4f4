/**
The FreeSense delta: what must be built here because FreeSense customizes it or because it depends
on something that is, and the complement, which the frozen upstream mirror may serve.
*/
module DeltaClosure {
  import opened Wrappers

  /** One evaluated requirement. The eligibility flags are explicit; ownPackage is the test on name and origin. */
  datatype Record = Record(origin: string, version: string, options: map<string, bool>, deps: seq<string>,
                           ownPackage: bool, overlay: bool, nonOptionsKnobs: bool, kernelSensitive: bool,
                           basePackage: bool)

  type Records = map<string, Record>

  /** A package of the signed upstream catalogue. */
  datatype Official = Official(name: string, version: string, options: map<string, bool>, checksum: string, size: int)

  /** Requirements list every dependency they name. */
  ghost predicate Complete(records: Records) {
    forall name, d :: name in records && d in records[name].deps ==> d in records
  }

  // ---------------------------------------------------------------- the upstream index

  predicate Named(catalogue: seq<Official>, i: nat, name: string)
    requires i < |catalogue|
  {
    catalogue[i].name == name
  }

  /** Exactly one catalogue entry has this name, and this is it. */
  ghost predicate Publishes(catalogue: seq<Official>, name: string, official: Official) {
    && (exists i :: 0 <= i < |catalogue| && catalogue[i] == official && Named(catalogue, i, name))
    && forall i, j :: 0 <= i < j < |catalogue| ==> !(Named(catalogue, i, name) && Named(catalogue, j, name))
  }

  ghost predicate Unambiguous(catalogue: seq<Official>, name: string) {
    exists official :: Publishes(catalogue, name, official)
  }

  ghost predicate Indexes(catalogue: seq<Official>, index: map<string, Official>) {
    && (forall name :: name in index ==> Publishes(catalogue, name, index[name]))
    && forall name :: Unambiguous(catalogue, name) ==> name in index
  }

  /** The unambiguously published packages; a name with two entries counts as unpublished. */
  method Published(catalogue: seq<Official>) returns (index: map<string, Official>)
    ensures Indexes(catalogue, index)
  {
    index := map[];
    var ambiguous: set<string> := {};
    for i := 0 to |catalogue|
      invariant forall name :: name in index <==> exists k :: 0 <= k < i && Named(catalogue, k, name)
      invariant forall name :: name in index ==>
        exists k :: 0 <= k < i && catalogue[k] == index[name] && Named(catalogue, k, name)
      invariant forall name :: name in ambiguous <==>
        exists j, k :: 0 <= j < k < i && Named(catalogue, j, name) && Named(catalogue, k, name)
    {
      var name := catalogue[i].name;
      assert Named(catalogue, i, name);
      if name in index {
        ambiguous := ambiguous + {name};
      }
      index := index[name := catalogue[i]];
    }
    index := index - ambiguous;
    forall name | Unambiguous(catalogue, name)
      ensures name in index
    {
      var official :| Publishes(catalogue, name, official);
    }
  }

  // ---------------------------------------------------------------- why a package is built here

  datatype Cause =
    | FreeSenseOwn | Overlay | NonOptionsKnobs | KernelSensitive | BasePackage
    | OptionsOverride | AbsentUpstream | OptionsDivergence

  function CauseOf(name: string, record: Record, overrides: set<string>,
                   upstream: map<string, Official>): Option<Cause> {
    if record.ownPackage then Some(FreeSenseOwn)
    else if record.overlay then Some(Overlay)
    else if record.nonOptionsKnobs then Some(NonOptionsKnobs)
    else if record.kernelSensitive then Some(KernelSensitive)
    else if record.basePackage then Some(BasePackage)
    else if record.origin in overrides then Some(OptionsOverride)
    else if name !in upstream then Some(AbsentUpstream)
    else if upstream[name].version == record.version && upstream[name].options != record.options then
      Some(OptionsDivergence)
    else None
  }

  method Classify(records: Records, overrides: set<string>, upstream: map<string, Official>)
    returns (causes: map<string, Cause>)
    ensures forall name :: name in causes <==>
      name in records && CauseOf(name, records[name], overrides, upstream).Some?
    ensures forall name :: name in causes ==> Some(causes[name]) == CauseOf(name, records[name], overrides, upstream)
  {
    causes := map[];
    var left := records.Keys;
    while left != {}
      invariant left <= records.Keys
      invariant forall name :: name in causes <==>
        name in records && name !in left && CauseOf(name, records[name], overrides, upstream).Some?
      invariant forall name :: name in causes ==>
        Some(causes[name]) == CauseOf(name, records[name], overrides, upstream)
    {
      var name :| name in left;
      var reason := CauseOf(name, records[name], overrides, upstream);
      if reason.Some? {
        causes := causes[name := reason.value];
      }
      left := left - {name};
    }
  }

  // ---------------------------------------------------------------- the reverse closure

  predicate DependsOn(records: Records, name: string, dependency: string) {
    name in records && dependency in records[name].deps
  }

  /** Whatever depends on a member is a member. */
  ghost predicate HoldsDependents(records: Records, s: set<string>) {
    forall name, d :: d in s && DependsOn(records, name, d) ==> name in s
  }

  /** Whatever a member depends on is a member. */
  ghost predicate HoldsDependencies(records: Records, s: set<string>) {
    forall name, d :: name in s && DependsOn(records, name, d) ==> d in s
  }

  /** The least set that holds the customized packages and all dependents of its members. */
  ghost predicate LeastDelta(records: Records, customized: set<string>, build: set<string>) {
    && customized <= build && HoldsDependents(records, build)
    && forall s: set<string> :: customized <= s && HoldsDependents(records, s) ==> build <= s
  }

  /** The greatest set of uncustomized packages that holds the dependencies of its members. */
  ghost predicate GreatestMirror(records: Records, customized: set<string>, take: set<string>) {
    && take <= records.Keys && take !! customized && HoldsDependencies(records, take)
    && forall s: set<string> :: s <= records.Keys && s !! customized && HoldsDependencies(records, s) ==> s <= take
  }

  predicate Leads(reverse: map<string, set<string>>, d: string, name: string) {
    d in reverse && name in reverse[d]
  }

  method Reverse(records: Records) returns (reverse: map<string, set<string>>)
    ensures forall name, d :: DependsOn(records, name, d) <==> Leads(reverse, d, name)
  {
    reverse := map[];
    var left := records.Keys;
    while left != {}
      invariant left <= records.Keys
      invariant forall name, d :: Leads(reverse, d, name) <==> DependsOn(records, name, d) && name !in left
    {
      var name :| name in left;
      var deps := records[name].deps;
      ghost var before := reverse;
      for i := 0 to |deps|
        invariant forall n, d :: Leads(reverse, d, n) <==> Leads(before, d, n) || (n == name && d in deps[..i])
      {
        var dependency := deps[i];
        var parents := if dependency in reverse then reverse[dependency] else {};
        assert deps[..i + 1] == deps[..i] + [dependency];
        reverse := reverse[dependency := parents + {name}];
      }
      assert deps[..|deps|] == deps;
      left := left - {name};
      forall n, d
        ensures Leads(reverse, d, n) <==> DependsOn(records, n, d) && n !in left
      {
        assert Leads(before, d, n) <==> DependsOn(records, n, d) && n !in left && n != name;
      }
    }
  }

  method Listing(s: set<string>) returns (list: seq<string>)
    ensures forall x :: x in list <==> x in s
  {
    list := [];
    var left := s;
    while left != {}
      invariant left <= s
      invariant forall x :: x in list <==> x in s && x !in left
    {
      var x :| x in left;
      list := list + [x];
      left := left - {x};
    }
  }

  /** Whether every dependent of a package is already in the set. */
  ghost predicate Spread(records: Records, s: set<string>, d: string) {
    forall name :: DependsOn(records, name, d) ==> name in s
  }

  method Dependents(records: Records, customized: set<string>) returns (forced: set<string>)
    requires customized <= records.Keys
    ensures forced !! customized && forced <= records.Keys
    ensures LeastDelta(records, customized, customized + forced)
  {
    var reverse := Reverse(records);
    forced := {};
    var stack := Listing(customized);
    while stack != []
      invariant forced !! customized && forced <= records.Keys
      invariant forall x :: x in stack ==> x in customized + forced
      invariant forall x :: x in customized + forced ==> x in stack || Spread(records, customized + forced, x)
      invariant forall s: set<string> :: customized <= s && HoldsDependents(records, s) ==> forced <= s
      decreases records.Keys - forced, |stack|
    {
      var n := |stack| - 1;
      var current := stack[n];
      assert stack == stack[..n] + [current];
      stack := stack[..n];
      var left := if current in reverse then reverse[current] else {};
      ghost var parents := left;
      ghost var before, rest := forced, stack;
      while left != {}
        invariant left <= parents
        invariant before <= forced && forced !! customized && forced <= records.Keys && forced <= before + parents
        invariant parents - left <= customized + forced
        invariant forall x :: x in stack <==> x in rest || (x in forced && x !in before)
        invariant forced == before ==> stack == rest
      {
        var parent :| parent in left;
        assert Leads(reverse, current, parent);
        assert DependsOn(records, parent, current);
        if parent !in customized && parent !in forced {
          forced := forced + {parent};
          stack := stack + [parent];
        }
        left := left - {parent};
      }
      forall name | DependsOn(records, name, current)
        ensures name in customized + forced
      {
        assert Leads(reverse, current, name);
      }
      assert Spread(records, customized + forced, current);
      SpreadGrows(records, customized + before, customized + forced);
      forall s: set<string> | customized <= s && HoldsDependents(records, s)
        ensures forced <= s
      {
        assert before <= s && current in s;
        forall p | p in parents
          ensures p in s
        {
          assert Leads(reverse, current, p);
          assert DependsOn(records, p, current);
        }
      }
    }
    forall name, d | d in customized + forced && DependsOn(records, name, d)
      ensures name in customized + forced
    {
      assert Spread(records, customized + forced, d);
    }
  }

  lemma SpreadGrows(records: Records, a: set<string>, b: set<string>)
    requires a <= b
    ensures forall d :: Spread(records, a, d) ==> Spread(records, b, d)
  {
  }

  /** The least delta does not depend on how it was computed. */
  lemma DeltaIsUnique(records: Records, customized: set<string>, a: set<string>, b: set<string>)
    requires LeastDelta(records, customized, a) && LeastDelta(records, customized, b)
    ensures a == b
  {
    assert a <= b && b <= a;
  }

  /** What is not built is exactly what the mirror can serve without meeting a package built here. */
  lemma ComplementIsGreatestMirror(records: Records, customized: set<string>, build: set<string>)
    requires Complete(records) && customized <= records.Keys && build <= records.Keys
    ensures LeastDelta(records, customized, build) <==> GreatestMirror(records, customized, records.Keys - build)
  {
    var take := records.Keys - build;
    if LeastDelta(records, customized, build) {
      forall s: set<string> | s <= records.Keys && s !! customized && HoldsDependencies(records, s)
        ensures s <= take
      {
        ComplementHoldsDependents(records, s);
        var rest := records.Keys - s;
        assert customized <= rest && HoldsDependents(records, rest);
        assert build <= rest;
      }
      forall name, d | name in take && DependsOn(records, name, d)
        ensures d in take
      {
      }
    }
    if GreatestMirror(records, customized, take) {
      assert records.Keys - take == build;
      ComplementHoldsDependents(records, take);
      forall s: set<string> | customized <= s && HoldsDependents(records, s)
        ensures build <= s
      {
        var rest := records.Keys - s;
        forall name, d | name in rest && DependsOn(records, name, d)
          ensures d in rest
        {
        }
        assert rest <= take;
      }
    }
  }

  lemma ComplementHoldsDependents(records: Records, s: set<string>)
    requires HoldsDependencies(records, s)
    ensures HoldsDependents(records, records.Keys - s)
  {
  }

  // ---------------------------------------------------------------- the plan

  /** The least set that holds the roots and the dependencies of its members. */
  ghost predicate LeastClosure(records: Records, roots: seq<string>, seen: set<string>) {
    && (forall root :: root in roots ==> root in seen) && HoldsDependencies(records, seen)
    && forall s: set<string> :: (forall root :: root in roots ==> root in s) && HoldsDependencies(records, s) ==>
      seen <= s
  }

  ghost predicate Follows(records: Records, seen: set<string>, stack: seq<string>, name: string) {
    forall d :: DependsOn(records, name, d) ==> d in seen || d in stack
  }

  method Reachable(records: Records, roots: seq<string>) returns (seen: set<string>)
    requires Complete(records) && forall root :: root in roots ==> root in records
    ensures LeastClosure(records, roots, seen) && seen <= records.Keys
  {
    seen := {};
    var stack := roots;
    while stack != []
      invariant seen <= records.Keys && forall x :: x in stack ==> x in records
      invariant forall root :: root in roots ==> root in seen || root in stack
      invariant forall name :: name in seen ==> Follows(records, seen, stack, name)
      invariant forall s: set<string> ::
        (forall root :: root in roots ==> root in s) && HoldsDependencies(records, s) ==>
        seen <= s && forall x :: x in stack ==> x in s
      decreases records.Keys - seen, |stack|
    {
      var n := |stack| - 1;
      var current := stack[n];
      assert stack == stack[..n] + [current];
      ghost var before, was := seen, stack;
      stack := stack[..n];
      if current !in seen {
        seen := seen + {current};
        stack := stack + records[current].deps;
        assert Follows(records, seen, stack, current);
        forall d | d in records[current].deps
          ensures DependsOn(records, current, d)
        {
        }
      }
      forall name | name in before
        ensures Follows(records, seen, stack, name)
      {
        assert Follows(records, before, was, name);
      }
    }
    forall name, d | name in seen && DependsOn(records, name, d)
      ensures d in seen
    {
      assert Follows(records, seen, stack, name);
    }
  }

  /** What the plan says: the two layers, the roots' share of the delta, and where the layers meet the catalogue. */
  datatype Delta = Delta(build: set<string>, causes: map<string, Cause>, take: set<string>,
                         system: set<string>, optional: set<string>, collisions: set<string>, churn: set<string>)

  ghost predicate Explains(records: Records, overrides: set<string>, index: map<string, Official>,
                           causes: map<string, Cause>) {
    && (forall name :: name in causes <==> name in records && CauseOf(name, records[name], overrides, index).Some?)
    && forall name :: name in causes ==> Some(causes[name]) == CauseOf(name, records[name], overrides, index)
  }

  ghost predicate IsDelta(records: Records, overrides: set<string>, index: map<string, Official>, delta: Delta) {
    && Explains(records, overrides, index, delta.causes)
    && LeastDelta(records, delta.causes.Keys, delta.build) && delta.build <= records.Keys
    && delta.take == records.Keys - delta.build
    && delta.collisions == delta.build * index.Keys
    && (forall name :: name in delta.churn <==>
          name in delta.take && name in index && index[name].version != records[name].version)
  }

  method Plan(records: Records, systemRoots: seq<string>, packageRoots: seq<string>, overrides: set<string>,
              catalogue: seq<Official>)
    returns (delta: Delta, index: map<string, Official>)
    requires Complete(records)
    requires forall root :: root in systemRoots || root in packageRoots ==> root in records
    ensures Indexes(catalogue, index) && IsDelta(records, overrides, index, delta)
    ensures exists seen :: LeastClosure(records, systemRoots, seen) && delta.system == seen * delta.build
    ensures exists seen :: LeastClosure(records, packageRoots, seen) && delta.optional == seen * delta.build
  {
    hide LeastDelta, LeastClosure, Indexes, CauseOf;
    index := Published(catalogue);
    var causes := Classify(records, overrides, index);
    var customized := causes.Keys;
    var cascade := Dependents(records, customized);
    var build := customized + cascade;
    var system := Reachable(records, systemRoots);
    var optional := Reachable(records, packageRoots);
    var churn := set name | name in records && name !in build && name in index
      && index[name].version != records[name].version;
    delta := Delta(build, causes, records.Keys - build, system * build, optional * build, build * index.Keys, churn);
  }

  lemma IndexIsUnique(catalogue: seq<Official>, a: map<string, Official>, b: map<string, Official>)
    requires Indexes(catalogue, a) && Indexes(catalogue, b)
    ensures a == b
  {
    assert forall name :: name in a ==> Unambiguous(catalogue, name);
    assert forall name :: name in b ==> Unambiguous(catalogue, name);
    assert a.Keys == b.Keys;
    forall name | name in a
      ensures a[name] == b[name]
    {
      PublishedIsUnique(catalogue, name, a[name], b[name]);
    }
  }

  lemma PublishedIsUnique(catalogue: seq<Official>, name: string, a: Official, b: Official)
    requires Publishes(catalogue, name, a) && Publishes(catalogue, name, b)
    ensures a == b
  {
    var i :| 0 <= i < |catalogue| && catalogue[i] == a && Named(catalogue, i, name);
    var j :| 0 <= j < |catalogue| && catalogue[j] == b && Named(catalogue, j, name);
    assert i == j;
  }

  /** The whole plan is a function of its inputs: no iteration order shows in it. */
  lemma PlanIsDeterministic(records: Records, overrides: set<string>, catalogue: seq<Official>,
                            a: Delta, x: map<string, Official>, b: Delta, y: map<string, Official>)
    requires Indexes(catalogue, x) && IsDelta(records, overrides, x, a)
    requires Indexes(catalogue, y) && IsDelta(records, overrides, y, b)
    ensures a.build == b.build && a.causes == b.causes && a.take == b.take && a.collisions == b.collisions
      && a.churn == b.churn
  {
    hide LeastDelta, Indexes, CauseOf;
    IndexIsUnique(catalogue, x, y);
    assert a.causes.Keys == b.causes.Keys;
    assert a.causes == b.causes;
    DeltaIsUnique(records, a.causes.Keys, a.build, b.build);
  }

  /** A mirrored package never needs a package built here, and everything it needs is mirrored. */
  lemma MirrorIsClosed(records: Records, overrides: set<string>, index: map<string, Official>, delta: Delta)
    requires Complete(records) && IsDelta(records, overrides, index, delta)
    ensures GreatestMirror(records, delta.causes.Keys, delta.take)
    ensures forall name, d :: name in delta.take && DependsOn(records, name, d) ==> d in delta.take && d !in delta.build
  {
    hide CauseOf;
    ComplementIsGreatestMirror(records, delta.causes.Keys, delta.build);
  }

  // ---------------------------------------------------------------- what each reason means

  /** The reasons in the order in which the first one that applies is given. */
  const REASONS := [FreeSenseOwn, Overlay, NonOptionsKnobs, KernelSensitive, BasePackage,
                    OptionsOverride, AbsentUpstream, OptionsDivergence]

  /** One reason on its own, whatever the others say. */
  predicate Applies(cause: Cause, name: string, record: Record, overrides: set<string>,
                    upstream: map<string, Official>) {
    match cause
    case FreeSenseOwn => record.ownPackage
    case Overlay => record.overlay
    case NonOptionsKnobs => record.nonOptionsKnobs
    case KernelSensitive => record.kernelSensitive
    case BasePackage => record.basePackage
    case OptionsOverride => record.origin in overrides
    case AbsentUpstream => name !in upstream.Keys
    case OptionsDivergence =>
      exists o :: o in upstream.Items && o.0 == name && o.1.version == record.version && o.1.options != record.options
  }

  /** A package is built here for the first reason that applies to it, and taken from upstream if none does. */
  lemma FirstReasonExactly(name: string, record: Record, overrides: set<string>, upstream: map<string, Official>)
    ensures match CauseOf(name, record, overrides, upstream)
            case Some(cause) =>
              exists i :: 0 <= i < |REASONS| && REASONS[i] == cause && Applies(cause, name, record, overrides, upstream)
                          && forall j :: 0 <= j < i ==> !Applies(REASONS[j], name, record, overrides, upstream)
            case None => forall cause :: !Applies(cause, name, record, overrides, upstream)
  {
    assert name in upstream ==> (name, upstream[name]) in upstream.Items;
    var cause := CauseOf(name, record, overrides, upstream);
    if cause.Some? {
      var i := if cause.value.FreeSenseOwn? then 0 else if cause.value.Overlay? then 1
               else if cause.value.NonOptionsKnobs? then 2 else if cause.value.KernelSensitive? then 3
               else if cause.value.BasePackage? then 4 else if cause.value.OptionsOverride? then 5
               else if cause.value.AbsentUpstream? then 6 else 7;
      assert REASONS[i] == cause.value;
    }
  }
}

/** The mirror plan: the catalogue entries of everything that the delta leaves to the mirror. */
module MirrorPlan {
  import opened Wrappers
  import opened DeltaClosure
  import Checksums

  datatype Ceilings = Ceilings(maxDelta: nat, minMirror: nat, maxChurn: nat)

  datatype Failure =
    | BothLayers | Unpublished | RenamedIsTaken | Branded | BadEntry(name: string)
    | DeltaTooLarge | MirrorTooSmall | TooMuchDrift | RequiredIsMissing

  predicate Usable(official: Official) {
    Checksums.ParseChecksum(official.checksum).Ok? && official.size >= 1
  }

  /** The condition that each failure reports. */
  ghost predicate Refuses(delta: Delta, upstream: map<string, Official>, bound: Ceilings, suffix: string,
                          failure: Failure) {
    match failure
    case BothLayers => delta.take * delta.build != {}
    case Unpublished => !(delta.take <= upstream.Keys)
    case RenamedIsTaken => exists name :: name in delta.build + delta.collisions && name + suffix in upstream
    case Branded => exists name :: name in upstream && "FreeSense" <= name
    case BadEntry(name) => name in delta.take && name in upstream && !Usable(upstream[name])
    case DeltaTooLarge => |delta.build| > bound.maxDelta
    case MirrorTooSmall => |delta.take| < bound.minMirror
    case TooMuchDrift => |delta.churn| > bound.maxChurn
    case RequiredIsMissing => "pkg" !in delta.take
  }

  method Plan(delta: Delta, catalogue: seq<Official>, bound: Ceilings, suffix: string)
    returns (r: Result<map<string, Official>, Failure>, upstream: map<string, Official>)
    ensures Indexes(catalogue, upstream)
    ensures r.Err? ==> Refuses(delta, upstream, bound, suffix, r.error)
    ensures r.Ok? ==> forall failure :: !Refuses(delta, upstream, bound, suffix, failure)
    ensures r.Ok? ==> r.value.Keys == delta.take
    ensures r.Ok? ==> forall name :: name in r.value ==> name in upstream && r.value[name] == upstream[name]
  {
    hide Indexes, Usable, Refuses;
    upstream := Published(catalogue);
    RefusalsAre(delta, upstream, bound, suffix);
    if delta.take * delta.build != {} {
      return Err(BothLayers), upstream;
    }
    if !(delta.take <= upstream.Keys) {
      return Err(Unpublished), upstream;
    }
    var renamed := exists name :: name in delta.build + delta.collisions && name + suffix in upstream;
    if renamed {
      return Err(RenamedIsTaken), upstream;
    }
    var branded := exists name :: name in upstream && "FreeSense" <= name;
    if branded {
      return Err(Branded), upstream;
    }
    var entries := Entries(delta.take, upstream);
    if entries.Err? {
      return Err(BadEntry(entries.error)), upstream;
    }
    var mirror := entries.value;
    if |delta.build| > bound.maxDelta {
      return Err(DeltaTooLarge), upstream;
    }
    if |mirror.Keys| < bound.minMirror {
      return Err(MirrorTooSmall), upstream;
    }
    if |delta.churn| > bound.maxChurn {
      return Err(TooMuchDrift), upstream;
    }
    if "pkg" !in mirror {
      return Err(RequiredIsMissing), upstream;
    }
    NothingRefuses(delta, upstream, bound, suffix);
    return Ok(mirror), upstream;
  }

  /** Every package to take, with its catalogue entry, or a package whose entry cannot be used. */
  method Entries(take: set<string>, upstream: map<string, Official>) returns (r: Result<map<string, Official>, string>)
    requires take <= upstream.Keys
    ensures r.Err? ==> r.error in take && !Usable(upstream[r.error])
    ensures r.Ok? ==> r.value.Keys == take
    ensures r.Ok? ==> forall name :: name in take ==> r.value[name] == upstream[name] && Usable(upstream[name])
  {
    hide Usable;
    var mirror: map<string, Official> := map[];
    var left := take;
    while left != {}
      invariant left <= take && mirror.Keys == take - left
      invariant forall name :: name in mirror ==> mirror[name] == upstream[name] && Usable(mirror[name])
    {
      var name :| name in left;
      if !Usable(upstream[name]) {
        return Err(name);
      }
      mirror := mirror[name := upstream[name]];
      left := left - {name};
    }
    return Ok(mirror);
  }

  lemma RefusalsAre(delta: Delta, upstream: map<string, Official>, bound: Ceilings, suffix: string)
    ensures Refuses(delta, upstream, bound, suffix, BothLayers) <==> delta.take * delta.build != {}
    ensures Refuses(delta, upstream, bound, suffix, Unpublished) <==> !(delta.take <= upstream.Keys)
    ensures Refuses(delta, upstream, bound, suffix, RenamedIsTaken) <==>
      exists name :: name in delta.build + delta.collisions && name + suffix in upstream
    ensures Refuses(delta, upstream, bound, suffix, Branded) <==> exists name :: name in upstream && "FreeSense" <= name
    ensures forall name :: Refuses(delta, upstream, bound, suffix, BadEntry(name)) <==>
      name in delta.take && name in upstream && !Usable(upstream[name])
    ensures Refuses(delta, upstream, bound, suffix, DeltaTooLarge) <==> |delta.build| > bound.maxDelta
    ensures Refuses(delta, upstream, bound, suffix, MirrorTooSmall) <==> |delta.take| < bound.minMirror
    ensures Refuses(delta, upstream, bound, suffix, TooMuchDrift) <==> |delta.churn| > bound.maxChurn
    ensures Refuses(delta, upstream, bound, suffix, RequiredIsMissing) <==> "pkg" !in delta.take
  {
    hide Usable;
  }

  lemma NothingRefuses(delta: Delta, upstream: map<string, Official>, bound: Ceilings, suffix: string)
    requires !Refuses(delta, upstream, bound, suffix, BothLayers)
      && !Refuses(delta, upstream, bound, suffix, Unpublished)
    requires !Refuses(delta, upstream, bound, suffix, RenamedIsTaken)
      && !Refuses(delta, upstream, bound, suffix, Branded)
    requires forall name :: !Refuses(delta, upstream, bound, suffix, BadEntry(name))
    requires !Refuses(delta, upstream, bound, suffix, DeltaTooLarge)
      && !Refuses(delta, upstream, bound, suffix, MirrorTooSmall)
    requires !Refuses(delta, upstream, bound, suffix, TooMuchDrift)
      && !Refuses(delta, upstream, bound, suffix, RequiredIsMissing)
    ensures forall failure :: !Refuses(delta, upstream, bound, suffix, failure)
  {
    hide Refuses;
    forall failure
      ensures !Refuses(delta, upstream, bound, suffix, failure)
    {
      match failure {
        case BadEntry(name) =>
        case _ =>
      }
    }
  }

  /** On the catalogue that the delta was computed from, the mirror always finds what it must serve, and only that. */
  lemma MirrorFindsItsPackages(records: Records, overrides: set<string>, catalogue: seq<Official>,
                               index: map<string, Official>, delta: Delta, upstream: map<string, Official>,
                               bound: Ceilings, suffix: string)
    requires Indexes(catalogue, index) && IsDelta(records, overrides, index, delta) && Indexes(catalogue, upstream)
    ensures !Refuses(delta, upstream, bound, suffix, BothLayers)
    ensures !Refuses(delta, upstream, bound, suffix, Unpublished)
  {
    hide Indexes, HoldsDependents;
    IndexIsUnique(catalogue, index, upstream);
    forall name | name in delta.take
      ensures name in upstream
    {
      assert name !in delta.causes;
    }
  }

  /** A catalogue entry can be served exactly when it records a checksum and has content. */
  lemma UsableExactly(official: Official)
    ensures Usable(official) <==>
      official.size > 0 && exists t, digest :: Checksums.Records(official.checksum, t, digest)
  {
    hide Checksums.ParseChecksum, Checksums.Records;
    var parsed := Checksums.ParseChecksum(official.checksum);
    if parsed.Ok? {
      Checksums.ParsesExactly(official.checksum, parsed.value.0, parsed.value.1);
    }
    forall t, digest | Checksums.Records(official.checksum, t, digest)
      ensures parsed.Ok?
    {
      Checksums.ParsesExactly(official.checksum, t, digest);
    }
  }
}
