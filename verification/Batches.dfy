/** Cutting a shard into cumulative batches, and the checkpoint chain the batches feed. */
module Batches {
  import opened Hex
  import opened Wrappers

  type Root = string

  datatype Invalid = Invalid

  /** Measured work, per root, of one shard. */
  datatype Work = Work(costs: map<Root, int>, defaultCost: int, limit: int) {
    function Cost(root: Root): int {
      if root in costs then costs[root] else defaultCost
    }

    function Sum(batch: seq<Root>): int {
      if batch == [] then 0 else Sum(batch[..|batch| - 1]) + Cost(batch[|batch| - 1])
    }

    predicate Accepts(roots: seq<Root>) {
      limit > 0 && defaultCost > 0 && forall i :: 0 <= i < |roots| ==> Cost(roots[i]) >= 0
    }

    /** One root too long for any batch, or work within the limit. */
    predicate Legal(batch: seq<Root>) {
      batch != [] && ((|batch| == 1 && Cost(batch[0]) > limit) || Sum(batch) <= limit)
    }

    /** The next root cannot join the batch. */
    predicate Full(batch: seq<Root>, next: Root)
      requires batch != []
    {
      Cost(next) > limit || (|batch| == 1 && Cost(batch[0]) > limit) || Sum(batch) + Cost(next) > limit
    }
  }

  function Concat(batches: seq<seq<Root>>): seq<Root> {
    if batches == [] then [] else Concat(batches[..|batches| - 1]) + batches[|batches| - 1]
  }

  /** An order-preserving cut of the roots into legal batches. */
  predicate Split(work: Work, batches: seq<seq<Root>>, roots: seq<Root>) {
    Concat(batches) == roots && forall i :: 0 <= i < |batches| ==> work.Legal(batches[i])
  }

  /** Every batch was closed only because the root after it could not join. */
  predicate Maximal(work: Work, batches: seq<seq<Root>>)
    requires forall i :: 0 <= i < |batches| ==> batches[i] != []
  {
    forall i :: 0 <= i < |batches| - 1 ==> work.Full(batches[i], batches[i + 1][0])
  }

  /** Element i is everything up to and including batch i. */
  function Cumulative(batches: seq<seq<Root>>): (c: seq<seq<Root>>)
    ensures |c| == |batches|
  {
    if batches == [] then [] else Cumulative(batches[..|batches| - 1]) + [Concat(batches)]
  }

  lemma {:induction false} CumulativeAt(batches: seq<seq<Root>>, i: nat)
    requires i < |batches|
    ensures Cumulative(batches)[i] == Concat(batches[..i + 1])
  {
    var n := |batches| - 1;
    if i < n {
      CumulativeAt(batches[..n], i);
      assert batches[..n][..i + 1] == batches[..i + 1];
    } else {
      assert batches[..i + 1] == batches;
    }
  }

  lemma ConcatSnoc(batches: seq<seq<Root>>, batch: seq<Root>)
    ensures Concat(batches + [batch]) == Concat(batches) + batch
  {
    assert (batches + [batch])[..|batches|] == batches;
  }

  lemma {:induction false} SumSnoc(work: Work, batch: seq<Root>, root: Root)
    ensures work.Sum(batch + [root]) == work.Sum(batch) + work.Cost(root)
  {
    assert (batch + [root])[..|batch|] == batch;
  }

  /** The batches closed so far and the one being filled. */
  ghost predicate Filling(work: Work, result: seq<seq<Root>>, current: seq<Root>, done: seq<Root>) {
    && Concat(result) + current == done
    && (forall i :: 0 <= i < |result| ==> work.Legal(result[i]))
    && Maximal(work, result)
    && (current != [] ==> work.Sum(current) <= work.limit)
    && (result != [] && current != [] ==> work.Full(result[|result| - 1], current[0]))
    && (result != [] && current == [] ==> Overlong(work, result[|result| - 1]))
  }

  predicate Overlong(work: Work, batch: seq<Root>) {
    |batch| == 1 && work.Cost(batch[0]) > work.limit
  }

  /** The open batch, if any, joins the closed ones. */
  function Closed(result: seq<seq<Root>>, current: seq<Root>): seq<seq<Root>> {
    if current == [] then result else result + [current]
  }

  lemma ClosedIsSplit(work: Work, result: seq<seq<Root>>, current: seq<Root>, done: seq<Root>)
    requires Filling(work, result, current, done)
    ensures Split(work, Closed(result, current), done) && Maximal(work, Closed(result, current))
    ensures Closed(result, current) != [] && current == [] ==> Overlong(work, result[|result| - 1])
  {
    hide Concat, Work.Sum;
    ConcatSnoc(result, current);
    assert Concat(result) + [] == Concat(result);
  }

  /** A root too long for any batch closes the open one and stands alone. */
  lemma TakesOverlong(work: Work, result: seq<seq<Root>>, current: seq<Root>, done: seq<Root>, root: Root)
    requires Filling(work, result, current, done) && work.Cost(root) > work.limit
    ensures Filling(work, Closed(result, current) + [[root]], [], done + [root])
  {
    hide Concat, Work.Sum;
    ClosedIsSplit(work, result, current, done);
    ConcatSnoc(Closed(result, current), [root]);
    assert done + [root] + [] == done + [root];
  }

  /** A root that still fits joins the open batch. */
  lemma TakesFitting(work: Work, result: seq<seq<Root>>, current: seq<Root>, done: seq<Root>, root: Root)
    requires Filling(work, result, current, done) && work.Sum(current) + work.Cost(root) <= work.limit
    ensures Filling(work, result, current + [root], done + [root])
  {
    hide Concat, Work.Sum;
    SumSnoc(work, current, root);
    assert Concat(result) + (current + [root]) == (Concat(result) + current) + [root];
  }

  /** A root that no longer fits closes the open batch and starts the next. */
  lemma TakesNext(work: Work, result: seq<seq<Root>>, current: seq<Root>, done: seq<Root>, root: Root)
    requires Filling(work, result, current, done) && current != [] && work.Cost(root) <= work.limit
    requires work.Sum(current) + work.Cost(root) > work.limit
    ensures Filling(work, result + [current], [root], done + [root])
    ensures work.Sum([root]) == work.Cost(root)
  {
    ClosedIsSplit(work, result, current, done);
    SumSnoc(work, [], root);
    assert [] + [root] == [root];
  }

  lemma NothingYet(work: Work)
    ensures Filling(work, [], [], []) && work.Sum([]) == 0
  {
  }

  /**
  Cumulative batches: the increments cut the roots in order, each is one over-long root or fits the
  limit, and no root was turned away from a batch it would have fitted.
  */
  method CutBatches(roots: seq<Root>, work: Work)
    returns (r: Result<seq<seq<Root>>, Invalid>, ghost increments: seq<seq<Root>>)
    ensures r.Ok? <==> work.Accepts(roots)
    ensures r.Ok? ==> Split(work, increments, roots) && Maximal(work, increments) && r.value == Cumulative(increments)
  {
    hide Filling, Split, Maximal, Cumulative, Work.Sum;
    increments := [];
    if work.limit <= 0 || work.defaultCost <= 0 {
      return Err(Invalid), [];
    }
    var result, current, elapsed := [], [], 0;
    NothingYet(work);
    for i := 0 to |roots|
      invariant forall j :: 0 <= j < i ==> work.Cost(roots[j]) >= 0
      invariant elapsed == work.Sum(current)
      invariant Filling(work, result, current, roots[..i])
    {
      var root := roots[i];
      var cost := work.Cost(root);
      if cost < 0 {
        return Err(Invalid), [];
      }
      assert roots[..i + 1] == roots[..i] + [root];
      if cost > work.limit {
        TakesOverlong(work, result, current, roots[..i], root);
        if current != [] {
          result := result + [current];
          current, elapsed := [], 0;
        }
        result := result + [[root]];
        continue;
      }
      if current != [] && elapsed + cost > work.limit {
        TakesNext(work, result, current, roots[..i], root);
        result := result + [current];
        current, elapsed := [], 0;
      } else {
        TakesFitting(work, result, current, roots[..i], root);
      }
      SumSnoc(work, current, root);
      assert [] + [root] == [root];
      current, elapsed := current + [root], elapsed + cost;
    }
    assert roots[..|roots|] == roots;
    ClosedIsSplit(work, result, current, roots);
    if current != [] {
      result := result + [current];
    }
    increments := result;
    var cumulative := Accumulate(result);
    r := Ok(cumulative);
  }

  lemma EmptyConcat(work: Work)
    ensures Concat([]) == [] && work.Sum([]) == 0
  {
  }

  method Accumulate(result: seq<seq<Root>>) returns (cumulative: seq<seq<Root>>)
    ensures cumulative == Cumulative(result)
  {
    var seen := [];
    cumulative := [];
    for i := 0 to |result|
      invariant seen == Concat(result[..i])
      invariant cumulative == Cumulative(result[..i])
    {
      assert result[..i + 1][..i] == result[..i];
      seen := seen + result[i];
      cumulative := cumulative + [seen];
    }
    assert result[..|result|] == result;
  }

  // ---------------------------------------------------------------- fewest batches

  lemma {:induction false} ConcatCons(batches: seq<seq<Root>>)
    requires batches != []
    ensures Concat(batches) == batches[0] + Concat(batches[1..])
  {
    var n := |batches| - 1;
    if n == 0 {
      assert Concat(batches[..n]) == [] && batches[1..] == [];
    } else {
      var front, rest := batches[..n], batches[1..];
      assert front[0] == batches[0] && front[1..] == rest[..n - 1] && rest[n - 1] == batches[n];
      ConcatCons(front);
      assert Concat(rest) == Concat(rest[..n - 1]) + rest[n - 1];
    }
  }

  lemma {:induction false} SumOfConcat(work: Work, a: seq<Root>, b: seq<Root>)
    ensures work.Sum(a + b) == work.Sum(a) + work.Sum(b)
  {
    if b == [] {
      assert a + b == a;
    } else {
      var n := |b| - 1;
      SumOfConcat(work, a, b[..n]);
      assert (a + b)[..|a| + n] == a + b[..n];
    }
  }

  lemma {:induction false} SumIsNonNegative(work: Work, batch: seq<Root>)
    requires forall i :: 0 <= i < |batch| ==> work.Cost(batch[i]) >= 0
    ensures work.Sum(batch) >= 0
    ensures forall i :: 0 <= i < |batch| ==> work.Sum(batch) >= work.Cost(batch[i])
  {
    if batch != [] {
      SumIsNonNegative(work, batch[..|batch| - 1]);
    }
  }

  /** A legal batch cannot swallow a full batch together with the root that made it full. */
  lemma FullBatchDoesNotFit(work: Work, before: seq<Root>, batch: seq<Root>, next: Root, after: seq<Root>)
    requires batch != [] && work.Full(batch, next)
    requires forall r :: r in before + batch + [next] + after ==> work.Cost(r) >= 0
    ensures !work.Legal(before + batch + [next] + after)
  {
    hide Work.Sum;
    var all := before + batch + [next] + after;
    assert all == before + ((batch + [next]) + after);
    SumOfConcat(work, before, (batch + [next]) + after);
    SumOfConcat(work, batch + [next], after);
    SumSnoc(work, batch, next);
    SumIsNonNegative(work, before);
    SumIsNonNegative(work, after);
    SumIsNonNegative(work, batch + [next]);
    assert (batch + [next])[0] == batch[0] && (batch + [next])[|batch|] == next;
    assert |all| >= 2;
  }

  /** A cut that still owes some earlier roots needs at least as many batches as a maximal one. */
  lemma {:induction false} MaximalIsShortest(work: Work, batches: seq<seq<Root>>, other: seq<seq<Root>>,
                                             owed: seq<Root>)
    requires forall i :: 0 <= i < |batches| ==> batches[i] != []
    requires Maximal(work, batches)
    requires forall i :: 0 <= i < |other| ==> work.Legal(other[i])
    requires Concat(other) == owed + Concat(batches)
    requires forall r :: r in Concat(other) ==> work.Cost(r) >= 0
    ensures |batches| <= |other|
    decreases |other|
  {
    if batches != [] {
      ConcatCons(batches);
      EmptyConcat(work);
      ConcatCons(other);
      FirstBatchIsShort(work, batches, other, owed);
      var first := owed + batches[0];
      assert owed + Concat(batches) == first + Concat(batches[1..]);
      assert Concat(other[1..]) == first[|other[0]|..] + Concat(batches[1..]) by {
        assert Concat(other[1..]) == (other[0] + Concat(other[1..]))[|other[0]|..];
        assert (first + Concat(batches[1..]))[|other[0]|..] == first[|other[0]|..] + Concat(batches[1..]);
      }
      MaximalIsShortest(work, batches[1..], other[1..], first[|other[0]|..]);
    }
  }

  lemma FirstBatchIsShort(work: Work, batches: seq<seq<Root>>, other: seq<seq<Root>>, owed: seq<Root>)
    requires batches != [] && other != [] && work.Legal(other[0])
    requires forall i :: 0 <= i < |batches| ==> batches[i] != []
    requires Maximal(work, batches)
    requires Concat(other) == owed + Concat(batches)
    requires forall r :: r in Concat(other) ==> work.Cost(r) >= 0
    ensures |other[0]| <= |owed| + |batches[0]|
  {
    hide Work.Sum, Concat, Work.Legal, Work.Full;
    ConcatCons(batches);
    ConcatCons(other);
    var n, first := |owed| + |batches[0]|, other[0];
    if |first| > n {
      EmptyConcat(work);
      assert first + Concat(other[1..]) == owed + batches[0] + Concat(batches[1..]);
      LongerPrefix(first, Concat(other[1..]), owed + batches[0], Concat(batches[1..]));
      ConcatCons(batches[1..]);
      assert Concat(batches[1..])[0] == batches[1][0];
      FullBatchDoesNotFit(work, owed, batches[0], batches[1][0], first[n + 1..]);
    }
  }

  lemma LongerPrefix(long: seq<Root>, a: seq<Root>, short: seq<Root>, b: seq<Root>)
    requires long + a == short + b && |long| > |short|
    ensures b != [] && long == short + [b[0]] + long[|short| + 1..]
  {
    assert |b| > 0;
    assert long == (short + b)[..|long|];
    assert (short + b)[|short|] == b[0];
  }

  /** No order-preserving cut into legal batches has fewer of them. */
  lemma FewestBatches(work: Work, roots: seq<Root>, increments: seq<seq<Root>>, other: seq<seq<Root>>)
    requires work.Accepts(roots) && Split(work, increments, roots) && Maximal(work, increments)
    requires Split(work, other, roots)
    ensures |increments| <= |other|
  {
    assert Concat(other) == [] + Concat(increments);
    MaximalIsShortest(work, increments, other, []);
  }

  /** The cumulative lists are strictly growing prefixes that end with all the roots. */
  lemma {:induction false} CumulativeGrows(work: Work, roots: seq<Root>, increments: seq<seq<Root>>, i: nat, j: nat)
    requires Split(work, increments, roots) && i < j < |increments|
    ensures Cumulative(increments)[i] < Cumulative(increments)[j] <= roots
    ensures Cumulative(increments)[|increments| - 1] == roots
    decreases j
  {
    hide Work.Sum, Cumulative;
    var n := |increments| - 1;
    CumulativeAt(increments, n);
    CumulativeAt(increments, i);
    CumulativeAt(increments, j);
    CumulativeAt(increments, j - 1);
    assert increments[..n + 1] == increments;
    assert increments[..j + 1][..j] == increments[..j];
    assert increments[j] != [] by {
      assert work.Legal(increments[j]);
    }
    ConcatIsPrefix(increments, j + 1);
    if i < j - 1 {
      CumulativeGrows(work, roots, increments, i, j - 1);
    }
  }

  lemma {:induction false} ConcatIsPrefix(batches: seq<seq<Root>>, n: nat)
    requires n <= |batches|
    ensures Concat(batches[..n]) <= Concat(batches)
    decreases |batches|
  {
    if n == |batches| {
      assert batches[..n] == batches;
    } else {
      var m := |batches| - 1;
      ConcatIsPrefix(batches[..m], n);
      assert batches[..m][..n] == batches[..n];
    }
  }

  // ---------------------------------------------------------------- checkpoints

  datatype Package = Package(name: string, sha256: string)

  datatype Marker = Marker(current: bool, batch: int, roots: seq<Root>, packages: seq<Package>)

  function Digests(packages: seq<Package>): map<string, string> {
    if packages == [] then map[] else
    Digests(packages[..|packages| - 1])[packages[|packages| - 1].name := packages[|packages| - 1].sha256]
  }

  predicate UniqueNames(packages: seq<Package>) {
    forall i, j :: 0 <= i < j < |packages| ==> packages[i].name != packages[j].name
  }

  /** The rule for one marker after another: same plan, one batch later, completed packages unchanged. */
  predicate ValidCheckpoint(marker: Marker, expected: seq<Root>, previous: Option<Marker>) {
    && marker.current && marker.roots == expected
    && (forall i :: 0 <= i < |marker.packages| ==> IsSha256(marker.packages[i].sha256))
    && UniqueNames(marker.packages)
    && (previous.Some? ==>
          && marker.batch == previous.value.batch + 1
          && (forall r :: r in previous.value.roots ==> r in expected)
          && var before, after := Digests(previous.value.packages), Digests(marker.packages);
          forall name :: name in before ==> name in after && after[name] == before[name])
  }

  /** Markers validated one after another against the cumulative lists of a plan. */
  predicate Chain(markers: seq<Marker>, cumulative: seq<seq<Root>>) {
    && |markers| <= |cumulative|
    && forall i :: 0 <= i < |markers| ==> Follows(markers, cumulative, i)
  }

  predicate Follows(markers: seq<Marker>, cumulative: seq<seq<Root>>, i: nat)
    requires i < |markers| && i < |cumulative|
  {
    ValidCheckpoint(markers[i], cumulative[i], if i == 0 then None else Some(markers[i - 1]))
  }

  /** Along a validated chain a completed package keeps its digest forever, and batches are consecutive. */
  lemma {:induction false} ChainConservesPackages(markers: seq<Marker>, cumulative: seq<seq<Root>>, i: nat, j: nat,
                                                  name: string)
    requires Chain(markers, cumulative) && i <= j < |markers|
    ensures markers[j].batch == markers[i].batch + (j - i)
    ensures name in Digests(markers[i].packages) ==>
      name in Digests(markers[j].packages) && Digests(markers[j].packages)[name] == Digests(markers[i].packages)[name]
    decreases j
  {
    if i < j {
      ChainConservesPackages(markers, cumulative, i, j - 1, name);
      assert Follows(markers, cumulative, j);
    }
  }

  /** The digest map of a unique inventory is the inventory. */
  lemma {:induction false} DigestsAreInventory(packages: seq<Package>, i: nat)
    requires UniqueNames(packages) && i < |packages|
    ensures packages[i].name in Digests(packages) && Digests(packages)[packages[i].name] == packages[i].sha256
  {
    var n := |packages| - 1;
    if i < n {
      DigestsAreInventory(packages[..n], i);
    }
  }

  /** The cumulative lists of a cut always satisfy the root condition of the chain. */
  lemma CutFeedsChain(work: Work, roots: seq<Root>, increments: seq<seq<Root>>, i: nat)
    requires Split(work, increments, roots) && 0 < i < |increments|
    ensures forall r :: r in Cumulative(increments)[i - 1] ==> r in Cumulative(increments)[i]
  {
    hide Split;
    CumulativeGrows(work, roots, increments, i - 1, i);
    assert Cumulative(increments)[i - 1] <= Cumulative(increments)[i];
  }

  /** No two entries share a name. */
  predicate NamesDiffer(packages: seq<Package>) {
    forall i, j :: 0 <= i < |packages| && 0 <= j < |packages| && i != j ==> packages[i].name != packages[j].name
  }

  /** What a marker must be on its own: of this plan, with a digest for each package and no package twice. */
  lemma FirstCheckpointExactly(marker: Marker, expected: seq<Root>)
    ensures ValidCheckpoint(marker, expected, None) <==>
      && marker.current && marker.roots == expected && NamesDiffer(marker.packages)
      && forall p :: p in marker.packages ==> IsSha256(p.sha256)
  {
    hide IsSha256;
    assert forall i :: 0 <= i < |marker.packages| ==> marker.packages[i] in marker.packages;
  }

  /** And after another one: the next batch, with every root and every package of the one before, as it was. */
  lemma NextCheckpointExactly(marker: Marker, expected: seq<Root>, previous: Marker)
    requires NamesDiffer(previous.packages)
    ensures ValidCheckpoint(marker, expected, Some(previous)) <==>
      && ValidCheckpoint(marker, expected, None) && marker.batch == previous.batch + 1
      && (forall r :: r in previous.roots ==> r in expected)
      && forall p :: p in previous.packages ==> p in marker.packages
  {
    if ValidCheckpoint(marker, expected, None) {
      FirstCheckpointExactly(marker, expected);
      DigestsExactly(previous.packages);
      DigestsExactly(marker.packages);
      hide Digests;
      var before, after := Digests(previous.packages), Digests(marker.packages);
      if forall name :: name in before ==> name in after && after[name] == before[name] {
        forall p | p in previous.packages ensures p in marker.packages {
          assert p == Package(p.name, p.sha256) && p.name in before;
        }
      }
      if forall p :: p in previous.packages ==> p in marker.packages {
        forall name | name in before ensures name in after && after[name] == before[name] {
          assert Package(name, before[name]) in marker.packages;
        }
      }
    }
  }

  lemma DigestsExactly(packages: seq<Package>)
    requires NamesDiffer(packages)
    ensures forall name, digest ::
      name in Digests(packages) && Digests(packages)[name] == digest <==> Package(name, digest) in packages
  {
    forall p | p in packages ensures p.name in Digests(packages) && Digests(packages)[p.name] == p.sha256 {
      var i :| 0 <= i < |packages| && packages[i] == p;
      DigestsAreInventory(packages, i);
    }
    forall name | name in Digests(packages) ensures Package(name, Digests(packages)[name]) in packages {
      DigestIsRecorded(packages, name);
    }
  }

  lemma {:induction false} DigestIsRecorded(packages: seq<Package>, name: string)
    requires name in Digests(packages)
    ensures Package(name, Digests(packages)[name]) in packages
  {
    var n := |packages| - 1;
    if name != packages[n].name {
      DigestIsRecorded(packages[..n], name);
    }
  }

  /** A chain grows by one marker exactly while the plan has a batch for it that follows the last one. */
  lemma ChainGrowsExactly(markers: seq<Marker>, marker: Marker, cumulative: seq<seq<Root>>)
    ensures Chain([], cumulative)
    ensures Chain(markers + [marker], cumulative) <==>
      && Chain(markers, cumulative) && |markers| < |cumulative|
      && ValidCheckpoint(marker, cumulative[|markers|],
                         if markers == [] then None else Some(markers[|markers| - 1]))
  {
    hide ValidCheckpoint;
    var more, n := markers + [marker], |markers|;
    if n < |cumulative| {
      forall i | 0 <= i < n ensures Follows(more, cumulative, i) <==> Follows(markers, cumulative, i) {
        assert more[i] == markers[i] && (i > 0 ==> more[i - 1] == markers[i - 1]);
      }
      assert more[n] == marker && (n > 0 ==> more[n - 1] == markers[n - 1]);
      if Chain(more, cumulative) {
        assert Follows(more, cumulative, n);
      }
    }
  }

  // ---------------------------------------------------------------- what the work is

  /** The measured costs of the roots that have one. */
  function Measured(work: Work, roots: seq<Root>): int {
    if roots == [] then 0
    else (if roots[0] in work.costs then work.costs[roots[0]] else 0) + Measured(work, roots[1..])
  }

  function Unmeasured(work: Work, roots: seq<Root>): nat {
    if roots == [] then 0
    else (if roots[0] in work.costs then 0 else 1) + Unmeasured(work, roots[1..])
  }

  /** A batch takes what was measured of its roots, and the default for each of the others. */
  lemma {:induction false} WorkIsMeasured(work: Work, roots: seq<Root>)
    ensures work.Sum(roots) == Measured(work, roots) + work.defaultCost * Unmeasured(work, roots)
  {
    hide Work.Sum;
    if roots == [] {
      SumOfNone(work);
    } else {
      var first, rest := roots[..1], roots[1..];
      WorkIsMeasured(work, rest);
      SumOfConcat(work, first, rest);
      assert roots == first + rest && first == [roots[0]];
      SumOfOne(work, roots[0]);
      OneMoreTime(work.defaultCost, Unmeasured(work, rest));
    }
  }

  lemma SumOfNone(work: Work)
    ensures work.Sum([]) == 0
  {
  }

  lemma SumOfOne(work: Work, root: Root)
    ensures work.Sum([root]) == work.Cost(root)
  {
    assert [root][..0] == [] && work.Sum([]) == 0;
  }

  lemma OneMoreTime(a: int, n: nat)
    ensures a * (1 + n) == a + a * n && a * (0 + n) == a * n
  {
  }

  /** A cut is refused exactly for a limit or a default that is not positive, or a negative measured cost. */
  lemma RefusedExactly(work: Work, roots: seq<Root>)
    ensures !work.Accepts(roots) <==>
      work.limit <= 0 || work.defaultCost <= 0 || exists r :: r in roots && r in work.costs && work.costs[r] < 0
  {
    assert forall i :: 0 <= i < |roots| ==> roots[i] in roots;
  }
}
