/**
The official binary seed: the requested packages that FreeBSD already builds exactly as they are
needed, as long as everything they depend on is taken from there as well.
*/
module BinarySeed {
  import opened Wrappers

  datatype Dependency = Dependency(origin: string, version: string)

  /** A requirement or an official package; options and dependencies are in their normal form. */
  datatype Package = Package(name: string, version: string, origin: string, abi: string,
                             options: map<string, bool>, deps: map<string, Dependency>)

  /** A requirement with the outcome of its source-only test. */
  datatype Requirement = Requirement(package: Package, excluded: bool)

  datatype Failure = InvalidRequirements | AmbiguousOfficial

  type Requested = map<string, Requirement>

  // ---------------------------------------------------------------- what the source demands of its input

  ghost predicate Lists(requirements: seq<Requirement>, requested: Requested) {
    && (forall name :: name in requested ==> requested[name] in requirements && requested[name].package.name == name)
    && forall r :: r in requirements ==> r.package.name in requested && requested[r.package.name] == r
  }

  predicate SameName(s: seq<Requirement>, i: nat, j: nat)
    requires i < |s| && j < |s|
  {
    s[i].package.name == s[j].package.name
  }

  ghost predicate DistinctNames(s: seq<Requirement>) {
    forall i, j :: 0 <= i < j < |s| ==> !SameName(s, i, j)
  }

  predicate Meets(requirements: Requested, name: string, dependency: Dependency) {
    && name in requirements && requirements[name].package.version == dependency.version
    && requirements[name].package.origin == dependency.origin
  }

  predicate Met(requested: Requested, name: string)
    requires name in requested
  {
    forall d :: d in requested[name].package.deps ==> Meets(requested, d, requested[name].package.deps[d])
  }

  ghost predicate WellFormed(requirements: seq<Requirement>, roots: seq<string>, abi: string) {
    && requirements != [] && DistinctNames(requirements)
    && (forall r :: r in requirements ==> r.package.abi == abi)
    && forall requested :: Lists(requirements, requested) ==>
        (forall root :: root in roots ==> root in requested)
        && forall name :: name in requested ==> Met(requested, name)
  }

  lemma ListIsUnique(requirements: seq<Requirement>, a: Requested, b: Requested)
    requires Lists(requirements, a) && Lists(requirements, b)
    ensures a == b
  {
    assert a.Keys == b.Keys;
  }

  lemma DistinctMore(s: seq<Requirement>, q: Requirement)
    requires DistinctNames(s) && forall r :: r in s ==> r.package.name != q.package.name
    ensures DistinctNames(s + [q])
  {
    var more := s + [q];
    forall i, j: nat | 0 <= i < j < |more|
      ensures !SameName(more, i, j)
    {
      if j < |s| {
        assert !SameName(s, i, j);
      } else {
        assert more[i] in s;
      }
    }
  }

  /** The requirements by name, or none when two share a name or one is for another architecture. */
  method ByName(requirements: seq<Requirement>, abi: string) returns (r: Option<Requested>)
    ensures r.Some? ==> Lists(requirements, r.value) && DistinctNames(requirements)
    ensures r.Some? <==> DistinctNames(requirements) && forall q :: q in requirements ==> q.package.abi == abi
  {
    var requested: Requested := map[];
    for i := 0 to |requirements|
      invariant Lists(requirements[..i], requested) && DistinctNames(requirements[..i])
      invariant forall k :: 0 <= k < i ==> requirements[k].package.abi == abi
    {
      var q := requirements[i];
      assert requirements[..i + 1] == requirements[..i] + [q];
      if q.package.name in requested {
        assert requested[q.package.name] in requirements[..i];
        var k :| 0 <= k < i && requirements[k] == requested[q.package.name];
        assert SameName(requirements, k, i);
        return None;
      }
      if q.package.abi != abi {
        assert q in requirements;
        return None;
      }
      DistinctMore(requirements[..i], q);
      requested := requested[q.package.name := q];
    }
    assert requirements[..|requirements|] == requirements;
    return Some(requested);
  }

  // ---------------------------------------------------------------- the official catalogue

  predicate Carries(records: seq<Package>, i: nat, name: string)
    requires i < |records|
  {
    records[i].name == name
  }

  ghost predicate Twice(records: seq<Package>, name: string) {
    exists i, j :: 0 <= i < j < |records| && Carries(records, i, name) && Carries(records, j, name)
  }

  /** The last record of every name, and the names that come twice. */
  method Index(records: seq<Package>) returns (catalogue: map<string, Package>, ambiguous: set<string>)
    ensures forall name :: name in ambiguous <==> Twice(records, name)
    ensures forall name :: name in catalogue ==> catalogue[name] in records && catalogue[name].name == name
    ensures forall p :: p in records ==> p.name in catalogue
  {
    catalogue, ambiguous := map[], {};
    for i := 0 to |records|
      invariant forall name :: name in ambiguous <==>
        exists j, k :: 0 <= j < k < i && Carries(records, j, name) && Carries(records, k, name)
      invariant forall name :: name in catalogue ==>
        exists k :: 0 <= k < i && records[k] == catalogue[name] && Carries(records, k, name)
      invariant forall k :: 0 <= k < i ==> records[k].name in catalogue
    {
      var name := records[i].name;
      assert Carries(records, i, name);
      if name in catalogue {
        ambiguous := ambiguous + {name};
      }
      catalogue := catalogue[name := records[i]];
    }
  }

  // ---------------------------------------------------------------- the greatest closed selection

  /** A requested package that its official build matches in every respect. */
  predicate Eligible(requested: Requested, records: seq<Package>, name: string) {
    name in requested && !requested[name].excluded && requested[name].package in records
  }

  /** Every dependency of a member is a member. */
  ghost predicate Closed(requested: Requested, s: set<string>) {
    forall name, d :: name in s && name in requested && d in requested[name].package.deps ==> d in s
  }

  ghost predicate AllEligible(requested: Requested, records: seq<Package>, s: set<string>) {
    forall name :: name in s ==> Eligible(requested, records, name)
  }

  /** The greatest closed set of eligible packages. */
  ghost predicate Greatest(requested: Requested, records: seq<Package>, selection: set<string>) {
    && AllEligible(requested, records, selection) && Closed(requested, selection)
    && forall s :: AllEligible(requested, records, s) && Closed(requested, s) ==> s <= selection
  }

  lemma GreatestIsUnique(requested: Requested, records: seq<Package>, a: set<string>, b: set<string>)
    requires Greatest(requested, records, a) && Greatest(requested, records, b)
    ensures a == b
  {
    assert a <= b && b <= a;
  }

  /** Nothing but the row for rust makes the two sides differ from a partition of the requested names. */
  predicate NeedsRustRow(accepted: map<string, Package>) {
    "rust" !in accepted || accepted["rust"].origin != "lang/rust"
  }

  /** The whole outcome: the greatest selection with its own records, and everything else, with a row for rust. */
  ghost predicate Selects(requested: Requested, records: seq<Package>, accepted: map<string, Package>,
                          rejected: set<string>) {
    && Greatest(requested, records, accepted.Keys)
    && accepted.Keys <= requested.Keys
    && (forall name :: name in accepted ==> accepted[name] == requested[name].package)
    && rejected == (requested.Keys - accepted.Keys) + if NeedsRustRow(accepted) then {"rust"} else {}
  }

  /** Whether a package of the current selection misses a dependency. */
  predicate Misses(accepted: map<string, Package>, name: string)
    requires name in accepted
  {
    exists d :: d in accepted[name].deps && d !in accepted
  }

  /** What a round of removals keeps: the packages' own records, and every closed selection. */
  ghost predicate Candidates(requested: Requested, records: seq<Package>, accepted: map<string, Package>) {
    && (forall name :: name in accepted ==>
          Eligible(requested, records, name) && accepted[name] == requested[name].package)
    && forall s :: AllEligible(requested, records, s) && Closed(requested, s) ==> s <= accepted.Keys
  }

  lemma RemovalKeepsCandidates(requested: Requested, records: seq<Package>, accepted: map<string, Package>,
                               invalid: set<string>)
    requires Candidates(requested, records, accepted)
    requires forall name :: name in invalid ==> name in accepted && Misses(accepted, name)
    ensures Candidates(requested, records, accepted - invalid)
  {
    hide Eligible;
    forall s | AllEligible(requested, records, s) && Closed(requested, s)
      ensures s <= (accepted - invalid).Keys
    {
      assert s <= accepted.Keys;
      forall name | name in s
        ensures name !in invalid
      {
        EligibleIsRequested(requested, records, name);
        forall d | d in accepted[name].deps
          ensures d in accepted
        {
          assert d in s;
        }
        assert !Misses(accepted, name);
      }
    }
  }

  lemma EligibleIsRequested(requested: Requested, records: seq<Package>, name: string)
    requires Eligible(requested, records, name)
    ensures name in requested
  {
  }

  lemma StableIsGreatest(requested: Requested, records: seq<Package>, accepted: map<string, Package>)
    requires Candidates(requested, records, accepted) && forall name :: name in accepted ==> !Misses(accepted, name)
    ensures Greatest(requested, records, accepted.Keys)
  {
    hide Eligible;
    forall name, d | name in accepted && name in requested && d in requested[name].package.deps
      ensures d in accepted
    {
      assert !Misses(accepted, name);
    }
  }

  method Select(requirements: seq<Requirement>, roots: seq<string>, records: seq<Package>, abi: string)
    returns (r: Result<(map<string, Package>, set<string>), Failure>, requested: Requested)
    ensures r.Err? && r.error == InvalidRequirements <==> !WellFormed(requirements, roots, abi)
    ensures WellFormed(requirements, roots, abi) ==> Lists(requirements, requested)
    ensures WellFormed(requirements, roots, abi) ==>
      (r.Err? <==> exists name :: name in requested && Twice(records, name))
    ensures r.Ok? ==> Selects(requested, records, r.value.0, r.value.1)
  {
    hide WellFormed, Greatest, Candidates, Eligible, Twice, Met, DistinctNames;
    requested := map[];
    var listed := ByName(requirements, abi);
    Validation(requirements, roots, abi, listed);
    if listed.None? || requirements == [] {
      return Err(InvalidRequirements), requested;
    }
    requested := listed.value;
    if exists root :: root in roots && root !in requested {
      return Err(InvalidRequirements), requested;
    }
    if exists name :: name in requested && !Met(requested, name) {
      return Err(InvalidRequirements), requested;
    }
    var catalogue, ambiguous := Index(records);
    if exists name :: name in requested && name in ambiguous {
      return Err(AmbiguousOfficial), requested;
    }
    var accepted, rejected := Match(requested, records, catalogue, ambiguous);
    accepted, rejected := Prune(requested, records, accepted, rejected);
    if NeedsRustRow(accepted) {
      rejected := rejected + {"rust"};
    }
    return Ok((accepted, rejected)), requested;
  }

  /** Removes what misses a dependency until nothing does. */
  method Prune(requested: Requested, records: seq<Package>, eligible: map<string, Package>, ineligible: set<string>)
    returns (accepted: map<string, Package>, rejected: set<string>)
    requires Candidates(requested, records, eligible) && eligible.Keys <= requested.Keys
    requires ineligible == requested.Keys - eligible.Keys
    ensures Greatest(requested, records, accepted.Keys) && accepted.Keys <= requested.Keys
    ensures forall name :: name in accepted ==> accepted[name] == requested[name].package
    ensures rejected == requested.Keys - accepted.Keys
  {
    hide Greatest, Candidates;
    accepted, rejected := eligible, ineligible;
    while true
      invariant Candidates(requested, records, accepted) && accepted.Keys <= requested.Keys
      invariant rejected == requested.Keys - accepted.Keys
      decreases |accepted.Keys|
    {
      var invalid := set name | name in accepted && Misses(accepted, name);
      if invalid == {} {
        assert forall name :: name in accepted ==> (Misses(accepted, name) <==> name in invalid);
        break;
      }
      RemovalKeepsCandidates(requested, records, accepted, invalid);
      assert (accepted - invalid).Keys == accepted.Keys - invalid;
      Shrinks(accepted.Keys, invalid);
      rejected := rejected + invalid;
      accepted := accepted - invalid;
    }
    StableIsGreatest(requested, records, accepted);
    CandidatesAreTheirOwn(requested, records, accepted);
  }

  lemma CandidatesAreTheirOwn(requested: Requested, records: seq<Package>, accepted: map<string, Package>)
    requires Candidates(requested, records, accepted)
    ensures forall name :: name in accepted ==> name in requested && accepted[name] == requested[name].package
  {
  }

  lemma Shrinks(s: set<string>, gone: set<string>)
    requires gone <= s && gone != {}
    ensures |s - gone| < |s|
  {
    assert s == (s - gone) + gone;
  }

  /** What the list by name decides about the requirements. */
  lemma Validation(requirements: seq<Requirement>, roots: seq<string>, abi: string, listed: Option<Requested>)
    requires listed.Some? ==> Lists(requirements, listed.value)
    requires listed.Some? <==> DistinctNames(requirements) && forall q :: q in requirements ==> q.package.abi == abi
    ensures WellFormed(requirements, roots, abi) <==>
      listed.Some? && requirements != [] && (forall root :: root in roots ==> root in listed.value) &&
      forall name :: name in listed.value ==> Met(listed.value, name)
  {
    hide Met, Lists, DistinctNames;
    if listed.Some? {
      forall requested | Lists(requirements, requested)
        ensures requested == listed.value
      {
        ListIsUnique(requirements, requested, listed.value);
      }
    }
  }

  /** The first selection: what the official catalogue has exactly as requested. */
  method Match(requested: Requested, records: seq<Package>, catalogue: map<string, Package>, ambiguous: set<string>)
    returns (accepted: map<string, Package>, rejected: set<string>)
    requires forall name :: name in ambiguous <==> Twice(records, name)
    requires forall name :: name in catalogue ==> catalogue[name] in records && catalogue[name].name == name
    requires forall p :: p in records ==> p.name in catalogue
    requires forall name :: name in requested ==> name !in ambiguous && requested[name].package.name == name
    ensures Candidates(requested, records, accepted) && accepted.Keys <= requested.Keys
    ensures rejected == requested.Keys - accepted.Keys
  {
    hide Twice, Closed;
    accepted, rejected := map[], {};
    var left := requested.Keys;
    while left != {}
      invariant left <= requested.Keys && accepted.Keys <= requested.Keys - left
      invariant rejected == requested.Keys - left - accepted.Keys
      invariant forall name :: name in accepted <==>
        name in requested && name !in left && Eligible(requested, records, name)
      invariant forall name :: name in accepted ==> accepted[name] == requested[name].package
    {
      var name :| name in left;
      var required := requested[name];
      OfficialIsOnly(requested, records, catalogue, name);
      var matches := !required.excluded && name in catalogue && name !in ambiguous
                     && catalogue[name].name == name && catalogue[name].version == required.package.version
                     && catalogue[name].origin == required.package.origin && catalogue[name].abi == required.package.abi
                     && catalogue[name].options == required.package.options
                     && catalogue[name].deps == required.package.deps;
      if matches {
        accepted := accepted[name := catalogue[name]];
      } else {
        rejected := rejected + {name};
      }
      left := left - {name};
    }
  }

  /** An unambiguous name has one official record, so the package is eligible when that record matches. */
  lemma OfficialIsOnly(requested: Requested, records: seq<Package>, catalogue: map<string, Package>, name: string)
    requires name in requested && requested[name].package.name == name && !Twice(records, name)
    requires name in catalogue ==> catalogue[name] in records && catalogue[name].name == name
    requires forall p :: p in records ==> p.name in catalogue
    ensures Eligible(requested, records, name) <==>
      !requested[name].excluded && name in catalogue && catalogue[name] == requested[name].package
  {
    var p := requested[name].package;
    if p in records {
      var i :| 0 <= i < |records| && records[i] == p;
      var j :| 0 <= j < |records| && records[j] == catalogue[name];
      assert Carries(records, i, name) && Carries(records, j, name);
      assert i == j;
    }
  }

  /** Every selected package finds its dependencies selected, at the version and origin it recorded. */
  lemma SelectedDependenciesMatch(requirements: seq<Requirement>, roots: seq<string>, records: seq<Package>,
                                  abi: string, requested: Requested, accepted: map<string, Package>,
                                  name: string, d: string)
    requires WellFormed(requirements, roots, abi) && Lists(requirements, requested)
    requires Greatest(requested, records, accepted.Keys)
    requires forall n :: n in accepted ==> n in requested && accepted[n] == requested[n].package
    requires name in accepted && d in accepted[name].deps
    ensures d in accepted && accepted[d].version == accepted[name].deps[d].version
    ensures accepted[d].origin == accepted[name].deps[d].origin
    ensures accepted[d] in records && accepted[name] in records
  {
    assert Met(requested, name);
    assert Meets(requested, d, requested[name].package.deps[d]);
    assert Eligible(requested, records, name) && Eligible(requested, records, d);
  }

  /** The outcome is a function of the requirements and the catalogue. */
  lemma SelectionIsUnique(requested: Requested, records: seq<Package>,
                          a: map<string, Package>, x: set<string>, b: map<string, Package>, y: set<string>)
    requires Selects(requested, records, a, x) && Selects(requested, records, b, y)
    ensures a == b && x == y
  {
    GreatestIsUnique(requested, records, a.Keys, b.Keys);
  }

  /** Rust can be taken from the official repository although its port is not lang/rust. */
  ghost predicate ForeignRust(requested: Requested, records: seq<Package>) {
    && "rust" in requested && requested["rust"].package.origin != "lang/rust"
    && exists s :: AllEligible(requested, records, s) && Closed(requested, s) && "rust" in s
  }

  /**
  The two sides cover exactly the requested names if and only if rust was requested, and they overlap, in
  rust alone, if and only if the request for rust has another origin and can be met from the catalogue.
  */
  lemma PartitionUpToRust(requested: Requested, records: seq<Package>, accepted: map<string, Package>,
                          rejected: set<string>)
    requires Selects(requested, records, accepted, rejected)
    ensures accepted.Keys + rejected - {"rust"} == requested.Keys - {"rust"}
    ensures accepted.Keys + rejected == requested.Keys <==> "rust" in requested
    ensures accepted.Keys * rejected == if ForeignRust(requested, records) then {"rust"} else {}
  {
    hide Eligible;
    if "rust" !in requested {
      assert "rust" in rejected;
    }
    if "rust" in accepted {
      assert AllEligible(requested, records, accepted.Keys) && Closed(requested, accepted.Keys);
    }
  }

  /** A request and a catalogue on which both sides hold rust: one package, built under another origin. */
  lemma ForeignRustIsOnBothSides(rust: Package)
    requires rust.name == "rust" && rust.origin == "ports/rust" && rust.deps == map[]
    ensures Selects(map["rust" := Requirement(rust, false)], [rust], map["rust" := rust], {"rust"})
  {
    var requested: Requested := map["rust" := Requirement(rust, false)];
    forall s | AllEligible(requested, [rust], s)
      ensures s <= {"rust"}
    {
      forall name | name in s
        ensures name == "rust"
      {
        assert Eligible(requested, [rust], name);
      }
    }
  }

  // ---------------------------------------------------------------- what an exact match is

  /** The official package has everything that was asked for. */
  predicate Matches(official: Package, asked: Package) {
    && official.name == asked.name && official.version == asked.version && official.origin == asked.origin
    && official.abi == asked.abi && official.options == asked.options && official.deps == asked.deps
  }

  /** A name is eligible exactly when it is no source-only request and some official package matches it. */
  lemma EligibleExactly(requested: Requested, records: seq<Package>, name: string)
    ensures Eligible(requested, records, name) <==>
      && name in requested.Keys && requested[name].excluded == false
      && exists official :: official in records && Matches(official, requested[name].package)
  {
    assert forall p: Package, q: Package :: Matches(p, q) <==> p == q;
  }

  /** Requests are closed exactly when every dependency is requested at the version and origin it names. */
  lemma MetExactly(requested: Requested, name: string)
    requires name in requested
    ensures Met(requested, name) <==>
      forall d :: d in requested[name].package.deps.Items ==>
        d.0 in requested.Keys
        && (requested[d.0].package.version, requested[d.0].package.origin) == (d.1.version, d.1.origin)
  {
    var deps := requested[name].package.deps;
    assert forall d :: d in deps ==> (d, deps[d]) in deps.Items;
  }

  /** The row for rust is missing exactly when rust itself was accepted from its own port. */
  lemma RustRowExactly(accepted: map<string, Package>)
    ensures !NeedsRustRow(accepted) <==>
      exists p :: ("rust", p) in accepted.Items && p.origin == "lang/rust"
  {
    assert "rust" in accepted ==> ("rust", accepted["rust"]) in accepted.Items;
  }
}
