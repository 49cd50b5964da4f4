/** The whole shard plan: heavy roots alone, components placed greedily, and what the plan guarantees. */
module ShardPlan {
  import opened Wrappers
  import opened ListScheduling
  import opened Partition

  datatype Invalid = Invalid

  /** What lands on one light shard: its groups in placement order, each sorted. */
  function Placed(groups: seq<set<Root>>, assign: seq<nat>, shard: nat): seq<Root>
    requires |groups| == |assign|
  {
    if groups == [] then [] else
    var n := |groups| - 1;
    Placed(groups[..n], assign[..n], shard) + if assign[n] == shard then Sorted(groups[n]) else []
  }

  function Costs(policy: Policy, groups: seq<set<Root>>): (c: seq<int>)
    ensures |c| == |groups| && forall i :: 0 <= i < |c| ==> c[i] == GroupCost(policy, groups[i])
  {
    seq(|groups|, i requires 0 <= i < |groups| => GroupCost(policy, groups[i]))
  }

  function AsSet(groups: seq<set<Root>>): set<set<Root>> {
    set g | g in groups
  }

  function RootSet(roots: seq<Root>): set<Root> {
    set r | r in roots
  }

  /** The requests the planner takes; a light root's measured cost is not checked. */
  predicate Accepts(roots: seq<Root>, heavy: seq<Root>, count: int, wellFormed: set<Root>, policy: Policy) {
    var present := RootSet(heavy) * RootSet(roots);
    && count >= 1 && |present| < count
    && RootSet(roots) <= wellFormed
    && policy.defaultCost >= 1
    && forall r :: r in present ==> policy.Cost(r) >= 0
  }

  /** A finished plan: heavy roots first, then the light groups in placement order and their shards. */
  datatype Layout = Layout(
    heavy: set<Root>, light: set<Root>, count: nat,
    shards: seq<seq<Root>>, groups: seq<set<Root>>, assign: seq<nat>)
  {
    predicate Shaped() {
      && heavy !! light && |heavy| < count && |shards| == count && |groups| == |assign|
      && Uses(assign, Machines())
    }

    /** How many shards take light groups. */
    function Machines(): nat
      requires |heavy| < count
    {
      count - |heavy|
    }

    ghost predicate Filled()
      requires Shaped()
    {
      && (forall i :: 0 <= i < |heavy| ==> shards[i] == [Sorted(heavy)[i]])
      && (forall k :: 0 <= k < Machines() ==> shards[|heavy| + k] == Placed(groups, assign, k))
    }

    ghost predicate Grouped(policy: Policy) {
      Lists(groups, AsSet(groups)) && Components(policy, light, AsSet(groups))
    }

    ghost predicate Balanced(policy: Policy)
      requires Shaped()
    {
      && InOrder(policy, groups)
      && Greedy(Costs(policy, groups), assign, Machines()) && FirstFit(Costs(policy, groups), assign)
    }
  }

  ghost predicate IsPlan(policy: Policy, plan: Layout) {
    plan.Shaped() && plan.Filled() && plan.Grouped(policy) && plan.Balanced(policy)
  }

  /** The first least loaded shard of a range. */
  method LeastLoadedShard(loads: array<int>, low: nat) returns (index: nat)
    requires low < loads.Length
    ensures low <= index < loads.Length
    ensures forall i :: low <= i < loads.Length ==> loads[index] <= loads[i]
    ensures forall i :: low <= i < index ==> loads[index] < loads[i]
  {
    index := low;
    for i := low + 1 to loads.Length
      invariant low <= index < i
      invariant forall j :: low <= j < i ==> loads[index] <= loads[j]
      invariant forall j :: low <= j < index ==> loads[index] < loads[j]
    {
      if loads[i] < loads[index] {
        index := i;
      }
    }
  }

  lemma SortedSingleton(r: Root)
    ensures Sorted({r}) == [r]
  {
    assert Sorted({r})[0] == r;
  }

  lemma {:induction false} ListsIsSet(list: seq<set<Root>>, groups: set<set<Root>>)
    requires Lists(list, groups)
    ensures AsSet(list) == groups && Lists(list, AsSet(list))
  {
    assert forall g :: g in AsSet(list) <==> g in groups;
  }

  method Plan(roots: seq<Root>, heavy: seq<Root>, count: int, wellFormed: set<Root>, policy: Policy)
    returns (r: Result<seq<seq<Root>>, Invalid>, ghost plan: Layout)
    ensures r.Ok? <==> Accepts(roots, heavy, count, wellFormed, policy)
    ensures r.Ok? ==>
      && IsPlan(policy, plan) && plan.shards == r.value && plan.count == count
      && plan.heavy == RootSet(heavy) * RootSet(roots) && plan.light == RootSet(roots) - plan.heavy
  {
    hide Components, InOrder, Policy.Cost, Sorted, Ascending;
    plan := Layout({}, {}, 0, [], [], []);
    var ordered := Sorted(RootSet(roots));
    var present := RootSet(heavy) * RootSet(roots);
    var alone := Sorted(present);
    if count < 1 || |alone| >= count || exists root :: root in ordered && root !in wellFormed {
      return Err(Invalid), plan;
    }
    if policy.defaultCost < 1 || exists root :: root in alone && policy.Cost(root) < 0 {
      return Err(Invalid), plan;
    }
    var light := Merge(policy, ordered, present);
    assert RootSet(ordered) == RootSet(roots);
    NoEmptyGroup(policy, RootSet(ordered) - present, light);
    var list := SortGroups(policy, light);
    ListsIsSet(list, light);
    ghost var assign;
    var shards;
    shards, assign := Place(policy, alone, list, count);
    plan := Layout(present, RootSet(roots) - present, count, shards, list, assign);
    r := Ok(shards);
  }

  lemma NoEmptyGroup(policy: Policy, scope: set<Root>, groups: set<set<Root>>)
    requires Components(policy, scope, groups)
    ensures {} !in groups
  {
  }

  /** Builds the components of the light roots, one root at a time. */
  method Merge(policy: Policy, ordered: seq<Root>, heavy: set<Root>) returns (groups: set<set<Root>>)
    requires Ascending(ordered)
    ensures Components(policy, RootSet(ordered) - heavy, groups)
  {
    hide Tied, Unlinked;
    groups := {};
    for i := 0 to |ordered|
      invariant Components(policy, RootSet(ordered[..i]) - heavy, groups)
    {
      assert ordered[..i + 1] == ordered[..i] + [ordered[i]];
      if ordered[i] in heavy {
        assert RootSet(ordered[..i + 1]) - heavy == RootSet(ordered[..i]) - heavy;
        continue;
      }
      assert RootSet(ordered[..i + 1]) - heavy == RootSet(ordered[..i]) - heavy + {ordered[i]};
      groups := Join(policy, groups, RootSet(ordered[..i]) - heavy, ordered[i]);
    }
    assert ordered[..|ordered|] == ordered;
  }

  /** The light shards and their loads are what the assignment so far says. */
  ghost predicate Reflects(policy: Policy, shards: seq<seq<Root>>, loads: seq<int>, h: nat,
                           groups: seq<set<Root>>, assign: seq<nat>)
  {
    && |shards| == |loads| && h < |shards| && |groups| == |assign|
    && (forall i :: h <= i < |shards| ==> shards[i] == Placed(groups, assign, i - h))
    && (forall i :: h <= i < |loads| ==> loads[i] == Load(Costs(policy, groups), assign, i - h))
  }

  lemma ReflectsNothing(policy: Policy, shards: seq<seq<Root>>, loads: seq<int>, h: nat)
    requires |shards| == |loads| && h < |shards|
    requires forall i :: h <= i < |shards| ==> shards[i] == [] && loads[i] == 0
    ensures Reflects(policy, shards, loads, h, [], [])
    ensures Greedy(Costs(policy, []), [], |shards| - h) && FirstFit(Costs(policy, []), [])
  {
    hide GroupCost;
  }

  lemma ReflectsNext(policy: Policy, shards: seq<seq<Root>>, loads: seq<int>, h: nat,
                     groups: seq<set<Root>>, assign: seq<nat>, group: set<Root>, target: nat)
    requires Reflects(policy, shards, loads, h, groups, assign) && h <= target < |shards|
    requires Greedy(Costs(policy, groups), assign, |shards| - h) && FirstFit(Costs(policy, groups), assign)
    requires forall i :: h <= i < |loads| ==> loads[target] <= loads[i]
    requires forall i :: h <= i < target ==> loads[target] < loads[i]
    ensures Reflects(policy, shards[target := shards[target] + Sorted(group)],
                     loads[target := loads[target] + GroupCost(policy, group)],
                     h, groups + [group], assign + [target - h])
    ensures Greedy(Costs(policy, groups + [group]), assign + [target - h], |shards| - h)
    ensures FirstFit(Costs(policy, groups + [group]), assign + [target - h])
  {
    hide GroupCost, Sorted, Load, Placed, Greedy, FirstFit;
    var costs, cost := Costs(policy, groups), GroupCost(policy, group);
    assert Costs(policy, groups + [group]) == costs + [cost];
    forall i | h <= i < |shards|
      ensures Load(costs + [cost], assign + [target - h], i - h) == loads[i] + if target == i then cost else 0
      ensures Placed(groups + [group], assign + [target - h], i - h)
           == shards[i] + if target == i then Sorted(group) else []
    {
      LoadOfNext(costs, assign, cost, target - h, i - h);
      PlacedOfNext(groups, assign, group, target - h, i - h);
    }
    forall k | 0 <= k < |shards| - h ensures Load(costs, assign, target - h) <= Load(costs, assign, k) {
      assert loads[target] <= loads[h + k];
    }
    forall k | 0 <= k < target - h ensures Load(costs, assign, target - h) < Load(costs, assign, k) {
      assert loads[target] < loads[h + k];
    }
    FirstFitExtends(costs, assign, cost, target - h);
    GreedyExtends(costs, assign, |shards| - h, cost, target - h);
  }

  /** What happens to the heavy shards is no concern of the light ones. */
  lemma ReflectsLightOnly(policy: Policy, shards: seq<seq<Root>>, loads: seq<int>, h: nat,
                          groups: seq<set<Root>>, assign: seq<nat>, index: nat, shard: seq<Root>, load: int)
    requires Reflects(policy, shards, loads, h, groups, assign) && index < h
    ensures index < |shards| && index < |loads|
    ensures Reflects(policy, shards[index := shard], loads[index := load], h, groups, assign)
  {
    hide Load, Placed;
  }

  lemma ReflectsPlaced(policy: Policy, shards: seq<seq<Root>>, loads: seq<int>, h: nat, groups: seq<set<Root>>,
                       assign: seq<nat>)
    requires Reflects(policy, shards, loads, h, groups, assign)
    ensures forall k :: 0 <= k < |shards| - h ==> shards[h + k] == Placed(groups, assign, k)
  {
    hide Load, Placed;
    forall k | 0 <= k < |shards| - h
      ensures shards[h + k] == Placed(groups, assign, k)
    {
      assert shards[h + k] == Placed(groups, assign, (h + k) - h);
    }
  }

  /** Places heavy roots on their own shards and every other group on a least loaded one. */
  method Place(policy: Policy, alone: seq<Root>, list: seq<set<Root>>, count: nat)
    returns (result: seq<seq<Root>>, ghost assign: seq<nat>)
    requires |alone| < count
    ensures |result| == count && |assign| == |list|
    ensures Greedy(Costs(policy, list), assign, count - |alone|) && FirstFit(Costs(policy, list), assign)
    ensures forall i :: 0 <= i < |alone| ==> result[i] == [alone[i]]
    ensures forall k :: 0 <= k < count - |alone| ==> result[|alone| + k] == Placed(list, assign, k)
  {
    hide GroupCost, Greedy, FirstFit, Sorted, Load, Placed, Reflects;
    var h := |alone|;
    var shards := new seq<Root>[count](_ => []);
    var loads := new int[count](_ => 0);
    assign := [];
    ReflectsNothing(policy, shards[..], loads[..], h);
    assert list[..0] == [];
    for index := 0 to h + |list|
      invariant fresh(shards) && fresh(loads)
      invariant |assign| == if index < h then 0 else index - h
      invariant forall i :: 0 <= i < h ==> shards[i] == if i < index then [alone[i]] else []
      invariant Reflects(policy, shards[..], loads[..], h, list[..|assign|], assign)
      invariant Greedy(Costs(policy, list[..|assign|]), assign, count - h)
      invariant FirstFit(Costs(policy, list[..|assign|]), assign)
    {
      ghost var oldShards, oldLoads := shards[..], loads[..];
      if index < h {
        SortedSingleton(alone[index]);
        shards[index] := shards[index] + Sorted({alone[index]});
        loads[index] := loads[index] + GroupCost(policy, {alone[index]});
        ReflectsLightOnly(policy, oldShards, oldLoads, h, list[..|assign|], assign, index, shards[index], loads[index]);
        assert shards[..] == oldShards[index := shards[index]] && loads[..] == oldLoads[index := loads[index]];
      } else {
        var target := LeastLoadedShard(loads, h);
        var n := index - h;
        assert list[..n + 1] == list[..n] + [list[n]];
        forall i | h <= i < count ensures oldLoads[target] <= oldLoads[i] {
          assert loads[target] <= loads[i];
        }
        forall i | h <= i < target ensures oldLoads[target] < oldLoads[i] {
          assert loads[target] < loads[i];
        }
        ReflectsNext(policy, oldShards, oldLoads, h, list[..n], assign, list[n], target);
        assign := assign + [target - h];
        shards[target] := shards[target] + Sorted(list[n]);
        loads[target] := loads[target] + GroupCost(policy, list[n]);
        assert shards[..] == oldShards[target := oldShards[target] + Sorted(list[n])];
        assert loads[..] == oldLoads[target := oldLoads[target] + GroupCost(policy, list[n])];
      }
    }
    assert list[..|list|] == list;
    result := shards[..];
    ReflectsPlaced(policy, shards[..], loads[..], h, list, assign);
  }

  lemma LoadOfNext(sizes: seq<int>, assign: seq<nat>, size: int, machine: nat, k: nat)
    requires |sizes| == |assign|
    ensures Load(sizes + [size], assign + [machine], k) == Load(sizes, assign, k) + if machine == k then size else 0
  {
    assert (sizes + [size])[..|sizes|] == sizes && (assign + [machine])[..|sizes|] == assign;
  }

  lemma PlacedOfNext(groups: seq<set<Root>>, assign: seq<nat>, group: set<Root>, machine: nat, k: nat)
    requires |groups| == |assign|
    ensures Placed(groups + [group], assign + [machine], k)
         == Placed(groups, assign, k) + if machine == k then Sorted(group) else []
  {
    assert (groups + [group])[..|groups|] == groups && (assign + [machine])[..|groups|] == assign;
  }

  lemma FirstFitExtends(sizes: seq<int>, assign: seq<nat>, size: int, machine: nat)
    requires FirstFit(sizes, assign)
    requires forall k :: 0 <= k < machine ==> Load(sizes, assign, machine) < Load(sizes, assign, k)
    ensures FirstFit(sizes + [size], assign + [machine])
  {
    forall i | 0 <= i < |sizes| + 1 ensures FirstAt(sizes + [size], assign + [machine], i) {
      assert (sizes + [size])[..i] == sizes[..i] && (assign + [machine])[..i] == assign[..i];
      if i < |sizes| {
        assert FirstAt(sizes, assign, i);
      } else {
        assert sizes[..i] == sizes && assign[..i] == assign;
      }
    }
  }

  lemma GreedyExtends(sizes: seq<int>, assign: seq<nat>, machines: nat, size: int, machine: nat)
    requires Greedy(sizes, assign, machines) && machine < machines
    requires LeastLoaded(sizes, assign, machines, machine)
    ensures Greedy(sizes + [size], assign + [machine], machines)
  {
    forall i | 0 <= i < |sizes| + 1 ensures GreedyAt(sizes + [size], assign + [machine], machines, i) {
      assert (sizes + [size])[..i] == sizes[..i] && (assign + [machine])[..i] == assign[..i];
      if i < |sizes| {
        assert GreedyAt(sizes, assign, machines, i);
      } else {
        assert sizes[..i] == sizes && assign[..i] == assign;
      }
    }
  }

  // ---------------------------------------------------------------- every root in one shard

  lemma {:induction false} PlacedMember(groups: seq<set<Root>>, assign: seq<nat>, shard: nat, r: Root)
    requires |groups| == |assign|
    ensures r in Placed(groups, assign, shard)
      <==> exists j :: 0 <= j < |groups| && assign[j] == shard && r in groups[j]
  {
    if groups != [] {
      var n := |groups| - 1;
      PlacedMember(groups[..n], assign[..n], shard, r);
      if j :| 0 <= j < |groups| && assign[j] == shard && r in groups[j] {
        if j < n {
          assert groups[..n][j] == groups[j] && assign[..n][j] == assign[j];
        }
      }
    }
  }

  predicate NoDuplicates(s: seq<Root>) {
    forall i, j :: 0 <= i < j < |s| ==> s[i] != s[j]
  }

  ghost predicate DisjointList(groups: seq<set<Root>>) {
    forall i, j :: 0 <= i < j < |groups| ==> groups[i] !! groups[j]
  }

  lemma {:induction false} PlacedOnce(groups: seq<set<Root>>, assign: seq<nat>, shard: nat)
    requires |groups| == |assign| && DisjointList(groups)
    ensures NoDuplicates(Placed(groups, assign, shard))
  {
    if groups != [] {
      var n := |groups| - 1;
      PlacedOnce(groups[..n], assign[..n], shard);
      var before := Placed(groups[..n], assign[..n], shard);
      forall i | 0 <= i < |before| ensures before[i] !in groups[n] {
        PlacedMember(groups[..n], assign[..n], shard, before[i]);
        assert before[i] in before;
        var j :| 0 <= j < n && assign[..n][j] == shard && before[i] in groups[..n][j];
        assert groups[j] !! groups[n];
      }
      forall x | x in Sorted(groups[n]) ensures x in groups[n] {
      }
    }
  }

  lemma {:induction false} ListHasNoDuplicates(list: seq<set<Root>>, i: nat, j: nat)
    requires Lists(list, AsSet(list)) && i < j < |list|
    ensures list[i] != list[j]
  {
    if list[i] == list[j] {
      var rest := list[..j] + list[j + 1..];
      assert forall g :: g in list ==> g in rest by {
        forall g | g in list ensures g in rest {
          var k :| 0 <= k < |list| && list[k] == g;
          var at := if k == j then i else k;
          assert list[at] == g;
          assert g == if at < j then rest[at] else rest[at - 1];
        }
      }
      SetOfSeqIsSmall(rest);
      assert AsSet(list) <= AsSet(rest);
      SubsetIsSmaller(AsSet(list), AsSet(rest));
    }
  }

  lemma {:induction false} SetOfSeqIsSmall(list: seq<set<Root>>)
    ensures |AsSet(list)| <= |list|
  {
    if list == [] {
      assert AsSet(list) == {};
    } else {
      var n := |list| - 1;
      SetOfSeqIsSmall(list[..n]);
      assert list == list[..n] + [list[n]];
      assert AsSet(list) == AsSet(list[..n]) + {list[n]};
    }
  }

  lemma SubsetIsSmaller<T>(a: set<T>, b: set<T>)
    requires a <= b
    ensures |a| <= |b|
  {
    assert b == a + (b - a);
  }

  lemma GroupsAreDisjoint(policy: Policy, plan: Layout)
    requires plan.Grouped(policy)
    ensures DisjointList(plan.groups)
  {
    hide Tied, Unlinked;
    forall i, j | 0 <= i < j < |plan.groups| ensures plan.groups[i] !! plan.groups[j] {
      ListHasNoDuplicates(plan.groups, i, j);
      assert plan.groups[i] in AsSet(plan.groups) && plan.groups[j] in AsSet(plan.groups);
    }
  }

  /** The group a light root was placed with. */
  lemma GroupOf(policy: Policy, plan: Layout, r: Root) returns (j: nat)
    requires plan.Grouped(policy) && r in plan.light
    ensures j < |plan.groups| && r in plan.groups[j]
  {
    hide Tied, Unlinked;
    var g :| g in AsSet(plan.groups) && r in g;
    j :| 0 <= j < |plan.groups| && plan.groups[j] == g;
  }

  lemma GroupsAreLight(policy: Policy, plan: Layout, j: nat)
    requires plan.Grouped(policy) && j < |plan.groups|
    ensures plan.groups[j] <= plan.light
  {
    hide Tied, Unlinked;
    assert plan.groups[j] in AsSet(plan.groups);
  }

  /** A root of a light shard belongs to a group assigned to it. */
  lemma ShardGroup(plan: Layout, i: nat, r: Root) returns (j: nat)
    requires plan.Shaped() && plan.Filled() && |plan.heavy| <= i < plan.count && r in plan.shards[i]
    ensures j < |plan.groups| && plan.assign[j] == i - |plan.heavy| && r in plan.groups[j]
  {
    hide Placed;
    var k: nat := i - |plan.heavy|;
    assert plan.shards[|plan.heavy| + k] == Placed(plan.groups, plan.assign, k);
    PlacedMember(plan.groups, plan.assign, k, r);
    j :| 0 <= j < |plan.groups| && plan.assign[j] == k && r in plan.groups[j];
  }

  /** Where a root stands in the plan. */
  predicate StandsAt(plan: Layout, r: Root, i: nat, p: nat) {
    i < |plan.shards| && p < |plan.shards[i]| && plan.shards[i][p] == r
  }

  lemma SameShard(policy: Policy, plan: Layout, i: nat, j: nat, r: Root)
    requires IsPlan(policy, plan) && i < plan.count && j < plan.count && r in plan.shards[i] && r in plan.shards[j]
    ensures i == j
    ensures r in plan.heavy + plan.light
  {
    hide Layout.Balanced, Components, Sorted, Placed;
    GroupsAreDisjoint(policy, plan);
    if i >= |plan.heavy| {
      var a := ShardGroup(plan, i, r);
      GroupsAreLight(policy, plan, a);
    }
    if j >= |plan.heavy| {
      var b := ShardGroup(plan, j, r);
      GroupsAreLight(policy, plan, b);
    }
    if i >= |plan.heavy| && j >= |plan.heavy| {
      var a := ShardGroup(plan, i, r);
      var b := ShardGroup(plan, j, r);
      assert a == b;
    }
  }

  lemma ShardHasNoDuplicates(policy: Policy, plan: Layout, i: nat)
    requires IsPlan(policy, plan) && i < plan.count
    ensures NoDuplicates(plan.shards[i])
  {
    hide Layout.Balanced, Components, Placed;
    if i >= |plan.heavy| {
      var k: nat := i - |plan.heavy|;
      assert plan.shards[|plan.heavy| + k] == Placed(plan.groups, plan.assign, k);
      GroupsAreDisjoint(policy, plan);
      PlacedOnce(plan.groups, plan.assign, k);
    }
  }

  lemma RootStands(policy: Policy, plan: Layout, r: Root) returns (i: nat, p: nat)
    requires IsPlan(policy, plan) && r in plan.heavy + plan.light
    ensures StandsAt(plan, r, i, p)
  {
    hide Layout.Balanced, Layout.Grouped, Components, Placed;
    assert |Sorted(plan.heavy)| == |plan.heavy|;
    if r in plan.heavy {
      i :| 0 <= i < |Sorted(plan.heavy)| && Sorted(plan.heavy)[i] == r;
      p := 0;
    } else {
      i, p := LightRootStands(policy, plan, r);
    }
  }

  lemma LightRootStands(policy: Policy, plan: Layout, r: Root) returns (i: nat, p: nat)
    requires IsPlan(policy, plan) && r in plan.light
    ensures StandsAt(plan, r, i, p) && i >= |plan.heavy|
  {
    hide Layout.Balanced, Components, Placed, Sorted;
    var j := GroupOf(policy, plan, r);
    var k := plan.assign[j];
    PlacedMember(plan.groups, plan.assign, k, r);
    i := |plan.heavy| + k;
    assert plan.shards[|plan.heavy| + k] == Placed(plan.groups, plan.assign, k);
    p :| 0 <= p < |plan.shards[i]| && plan.shards[i][p] == r;
  }

  /** Every requested root stands in exactly one place of one shard, and nothing else does. */
  lemma EachRootStandsOnce(policy: Policy, plan: Layout, r: Root)
    requires IsPlan(policy, plan)
    ensures r in plan.heavy + plan.light <==> exists i, p :: StandsAt(plan, r, i, p)
    ensures forall i, p, j, q :: StandsAt(plan, r, i, p) && StandsAt(plan, r, j, q) ==> i == j && p == q
  {
    hide Layout.Filled, Layout.Grouped, Layout.Balanced;
    forall i: nat, p: nat, j: nat, q: nat | StandsAt(plan, r, i, p) && StandsAt(plan, r, j, q)
      ensures i == j && p == q && r in plan.heavy + plan.light
    {
      SameShard(policy, plan, i, j, r);
      ShardHasNoDuplicates(policy, plan, i);
    }
    if r in plan.heavy + plan.light {
      var i, p := RootStands(policy, plan, r);
    }
  }

  /** A measured heavy root has its shard to itself. */
  lemma HeavyRootsStandAlone(policy: Policy, plan: Layout, r: Root)
    requires IsPlan(policy, plan) && r in plan.heavy
    ensures exists i :: 0 <= i < |plan.heavy| && i < |plan.shards| && plan.shards[i] == [r]
  {
    hide Layout.Grouped, Layout.Balanced;
    assert plan.Shaped();
    assert |Sorted(plan.heavy)| == |plan.heavy|;
    var i :| 0 <= i < |Sorted(plan.heavy)| && Sorted(plan.heavy)[i] == r;
    assert plan.shards[i] == [r];
  }

  // ---------------------------------------------------------------- components stay together

  /** Light roots of different shards need nothing in common, not even through a chain of others. */
  lemma ShardsAreIndependent(policy: Policy, plan: Layout, i: nat, j: nat, a: Root, b: Root)
    requires IsPlan(policy, plan)
    requires |plan.heavy| <= i < plan.count && |plan.heavy| <= j < plan.count && i != j
    requires a in plan.shards[i] && b in plan.shards[j]
    ensures policy.Closure(a) !! policy.Closure(b)
    ensures !Connected(policy, plan.light, a, b)
  {
    hide Layout.Filled, Layout.Balanced, Components;
    var ga := ShardGroup(plan, i, a);
    var gb := ShardGroup(plan, j, b);
    GroupsAreDisjoint(policy, plan);
    GroupsAreLight(policy, plan, gb);
    assert plan.groups[ga] !! plan.groups[gb];
    OtherGroupIsIndependent(policy, plan.light, AsSet(plan.groups), plan.groups[ga], plan.groups[gb], a, b);
  }

  /** The root is this package, or the policy's closure of the root lists it. */
  predicate Needs(policy: Policy, r: Root, d: Root) {
    d == r || (r in policy.closures && d in policy.closures[r])
  }

  /** Two roots are linked by what they need: each its own closure in the policy, and itself. */
  lemma LinkedExactly(policy: Policy, a: Root, b: Root)
    ensures policy.Linked(a, b) <==> exists d :: Needs(policy, a, d) && Needs(policy, b, d)
  {
    assert forall d :: d in policy.Closure(a) * policy.Closure(b) <==> Needs(policy, a, d) && Needs(policy, b, d);
  }

  /** No package is built on two light shards: roots that need it stand together. */
  lemma SharedDependencyMeansOneShard(policy: Policy, plan: Layout, a: Root, b: Root, d: Root)
    requires IsPlan(policy, plan) && a in plan.light && b in plan.light
    requires Needs(policy, a, d) && Needs(policy, b, d)
    ensures exists i :: |plan.heavy| <= i < |plan.shards| && a in plan.shards[i] && b in plan.shards[i]
  {
    var i, p := LightRootStands(policy, plan, a);
    var j, q := LightRootStands(policy, plan, b);
    hide IsPlan, Layout.Filled, Layout.Grouped, Layout.Balanced, Policy.Closure, Policy.Linked, Connected;
    PlanIsShaped(policy, plan);
    assert a in plan.shards[i] && b in plan.shards[j];
    SharedShard(policy, plan, a, b, d, i, j);
  }

  lemma SharedShard(policy: Policy, plan: Layout, a: Root, b: Root, d: Root, i: nat, j: nat)
    requires IsPlan(policy, plan) && |plan.heavy| <= i < plan.count && |plan.heavy| <= j < plan.count
    requires a in plan.shards[i] && b in plan.shards[j] && Needs(policy, a, d) && Needs(policy, b, d)
    ensures i == j
  {
    hide IsPlan, Policy.Closure, Connected;
    if i != j {
      ShardsAreIndependent(policy, plan, i, j, a, b);
      LinkedIsNotDisjoint(policy, a, b, d);
    }
  }

  lemma LinkedIsNotDisjoint(policy: Policy, a: Root, b: Root, d: Root)
    requires Needs(policy, a, d) && Needs(policy, b, d)
    ensures !(policy.Closure(a) !! policy.Closure(b))
  {
    assert d in policy.Closure(a) && d in policy.Closure(b);
  }

  lemma PlanIsShaped(policy: Policy, plan: Layout)
    requires IsPlan(policy, plan)
    ensures plan.Shaped()
  {
  }

  lemma OtherGroupIsIndependent(policy: Policy, scope: set<Root>, groups: set<set<Root>>,
                                g: set<Root>, h: set<Root>, a: Root, b: Root)
    requires Components(policy, scope, groups) && g in groups && h in groups && g !! h
    requires a in g && b in h && b in scope
    ensures policy.Closure(a) !! policy.Closure(b) && !Connected(policy, scope, a, b)
  {
    hide Connected, Tied;
    assert Unlinked(policy, g, h);
    assert !policy.Linked(a, b);
    ComponentsAreConnectivity(policy, scope, groups, g, a, b);
  }

  // ---------------------------------------------------------------- balance

  lemma {:induction false} CostOfConcat(policy: Policy, a: seq<Root>, b: seq<Root>)
    ensures CostOf(policy, a + b) == CostOf(policy, a) + CostOf(policy, b)
  {
    if b == [] {
      assert a + b == a;
    } else {
      var n := |b| - 1;
      CostOfConcat(policy, a, b[..n]);
      assert (a + b)[..|a| + n] == a + b[..n];
    }
  }

  /** The measured costs of the roots that have one. */
  function Measured(policy: Policy, roots: seq<Root>): int {
    if roots == [] then 0
    else (if roots[0] in policy.costs then policy.costs[roots[0]] else 0) + Measured(policy, roots[1..])
  }

  function Unmeasured(policy: Policy, roots: seq<Root>): nat {
    if roots == [] then 0
    else (if roots[0] in policy.costs then 0 else 1) + Unmeasured(policy, roots[1..])
  }

  /** A list of roots costs what was measured of them, and the default for each of the others. */
  lemma {:induction false} CostIsMeasured(policy: Policy, roots: seq<Root>)
    ensures CostOf(policy, roots) == Measured(policy, roots) + policy.defaultCost * Unmeasured(policy, roots)
  {
    hide CostOf;
    if roots == [] {
      CostOfNone(policy);
    } else {
      CostIsMeasured(policy, roots[1..]);
      CostOfConcat(policy, roots[..1], roots[1..]);
      assert roots == roots[..1] + roots[1..];
      CostOfOne(policy, roots[0]);
      assert roots[..1] == [roots[0]];
      OneMoreTime(policy.defaultCost, Unmeasured(policy, roots[1..]));
    }
  }

  lemma CostOfNone(policy: Policy)
    ensures CostOf(policy, []) == 0
  {
  }

  lemma OneMoreTime(a: int, n: nat)
    ensures a * (1 + n) == a + a * n && a * (0 + n) == a * n
  {
  }

  /** The cost of a shard is the load the balancer accounted for. */
  lemma {:induction false} PlacedCost(policy: Policy, groups: seq<set<Root>>, assign: seq<nat>, shard: nat)
    requires |groups| == |assign|
    ensures CostOf(policy, Placed(groups, assign, shard)) == Load(Costs(policy, groups), assign, shard)
  {
    if groups != [] {
      var n := |groups| - 1;
      PlacedCost(policy, groups[..n], assign[..n], shard);
      assert Costs(policy, groups)[..n] == Costs(policy, groups[..n]);
      CostOfConcat(policy, Placed(groups[..n], assign[..n], shard), Sorted(groups[n]));
      CostOfConcat(policy, Placed(groups[..n], assign[..n], shard), []);
    }
  }

  lemma ShardCost(policy: Policy, plan: Layout, i: nat)
    requires plan.Shaped() && plan.Filled() && |plan.heavy| <= i < plan.count
    ensures CostOf(policy, plan.shards[i]) == Load(Costs(policy, plan.groups), plan.assign, i - |plan.heavy|)
  {
    hide Placed, CostOf, Load;
    var k: nat := i - |plan.heavy|;
    assert plan.shards[|plan.heavy| + k] == Placed(plan.groups, plan.assign, k);
    PlacedCost(policy, plan.groups, plan.assign, k);
  }

  lemma InOrderIsDescending(policy: Policy, groups: seq<set<Root>>)
    requires InOrder(policy, groups)
    ensures Descending(Costs(policy, groups))
  {
    hide GroupCost;
  }

  /**
  With m light shards and non-negative costs, no light shard costs more than (total + (m - 1) * largest) / m,
  nor than 4/3 - 1/(3m) times the heaviest shard of any other way to place the same whole groups.
  */
  lemma PlanIsBalanced(policy: Policy, plan: Layout, i: nat, largest: int, other: seq<nat>, limit: int)
    requires IsPlan(policy, plan) && |plan.heavy| <= i < plan.count
    requires NonNegative(Costs(policy, plan.groups))
    requires largest >= 0 && forall j :: 0 <= j < |plan.groups| ==> Costs(policy, plan.groups)[j] <= largest
    requires |other| == |plan.groups| && Uses(other, plan.Machines())
    requires Within(Costs(policy, plan.groups), other, plan.Machines(), limit)
    ensures var m := plan.Machines();
      && m * CostOf(policy, plan.shards[i]) <= Total(Costs(policy, plan.groups)) + (m - 1) * largest
      && m * CostOf(policy, plan.shards[i]) <= (2 * m - 1) * limit
      && 3 * m * CostOf(policy, plan.shards[i]) <= (4 * m - 1) * limit
  {
    hide Layout.Filled, Layout.Grouped, InOrder, NonNegative, Greedy, Within, Load, Total, GroupCost, CostOf;
    var m, k := plan.Machines(), i - |plan.heavy|;
    var costs := Costs(policy, plan.groups);
    ShardCost(policy, plan, i);
    InOrderIsDescending(policy, plan.groups);
    GreedyBound(costs, plan.assign, m, largest, k);
    GreedyIsTwoApproximate(costs, plan.assign, m, other, limit, k);
    LargestFirstIsFourThirdsApproximate(costs, plan.assign, m, other, limit, k);
  }

  // ---------------------------------------------------------------- negative costs

  /** No light shard costs more than (total + (m - 1) * largest) / m. */
  ghost predicate WithinBound(policy: Policy, plan: Layout)
    requires plan.Shaped()
  {
    forall i, largest ::
      |plan.heavy| <= i < plan.count && largest >= 0 && AtMost(Costs(policy, plan.groups), largest) ==>
        ShardBound(policy, plan, i, largest)
  }

  predicate ShardBound(policy: Policy, plan: Layout, i: int, largest: int)
    requires plan.Shaped() && 0 <= i < plan.count
  {
    plan.Machines() * CostOf(policy, plan.shards[i])
    <= Total(Costs(policy, plan.groups)) + (plan.Machines() - 1) * largest
  }

  predicate AtMost(costs: seq<int>, largest: int) {
    forall j :: 0 <= j < |costs| ==> costs[j] <= largest
  }

  lemma {:induction false} CostOfNonNegative(policy: Policy, roots: seq<Root>)
    requires forall r: Root :: policy.Cost(r) >= 0
    ensures CostOf(policy, roots) >= 0
  {
    if roots != [] {
      CostOfNonNegative(policy, roots[..|roots| - 1]);
    }
  }

  lemma {:induction false} RootBeyond(s: set<Root>) returns (q: Root)
    ensures forall x :: x in s ==> x < q
  {
    if s == {} {
      q := 0;
    } else {
      var r :| r in s;
      var rest := RootBeyond(s - {r});
      q := if r < rest then rest else r + 1;
      forall x | x in s
        ensures x < q
      {
        assert x == r || x in s - {r};
      }
    }
  }

  /** Two unrelated light roots on two shards, the dearer one first. */
  function PairLayout(q: Root, r: Root): Layout {
    Layout({}, {q, r}, 2, [[q], [r]], [{q}, {r}], [0, 1])
  }

  lemma PairIsComponents(policy: Policy, q: Root, r: Root)
    requires q != r && !policy.Linked(q, r)
    ensures Lists([{q}, {r}], AsSet([{q}, {r}])) && Components(policy, {q, r}, AsSet([{q}, {r}]))
  {
    hide Policy.Linked;
    var groups := AsSet([{q}, {r}]);
    assert {q} != {r} by { assert q in {q} && q !in {r}; }
    assert groups == {{q}, {r}} && |groups| == 2;
    LinkedIsSymmetric(policy, q, r);
    SingletonIsTied(policy, {q, r}, q);
    SingletonIsTied(policy, {q, r}, r);
    hide Tied;
    assert q in {q} && r in {r};
  }

  lemma PairIsBalanced(policy: Policy, q: Root, r: Root)
    requires policy.Cost(r) < 0 < policy.Cost(q)
    ensures GroupCost(policy, {q}) == policy.Cost(q) && GroupCost(policy, {r}) == policy.Cost(r)
    ensures Costs(policy, [{q}, {r}]) == [policy.Cost(q), policy.Cost(r)] && InOrder(policy, [{q}, {r}])
    ensures Greedy(Costs(policy, [{q}, {r}]), [0, 1], 2) && FirstFit(Costs(policy, [{q}, {r}]), [0, 1])
  {
    hide Policy.Cost;
    SortedSingleton(q);
    SortedSingleton(r);
    CostOfOne(policy, q);
    CostOfOne(policy, r);
    hide Sorted, CostOf;
    var costs := [policy.Cost(q), policy.Cost(r)];
    assert Costs(policy, [{q}, {r}]) == costs;
    assert costs[..0] == [] && costs[..1] == [policy.Cost(q)];
    var assign: seq<nat> := [0, 1];
    assert assign[..0] == [] && assign[..1] == [0];
    LoadOfOne(policy.Cost(q), 0, 0);
    LoadOfOne(policy.Cost(q), 0, 1);
  }

  lemma LoadOfOne(size: int, machine: nat, k: nat)
    ensures Load([size], [machine], k) == if machine == k then size else 0
  {
    assert [size][..0] == [] && [machine][..0] == [];
  }

  lemma CostOfOne(policy: Policy, r: Root)
    ensures CostOf(policy, [r]) == policy.Cost(r)
  {
    assert [r][..0] == [];
  }

  lemma PairIsPlaced(q: Root, r: Root)
    ensures Placed([{q}, {r}], [0, 1], 0) == [q] && Placed([{q}, {r}], [0, 1], 1) == [r]
  {
    SortedSingleton(q);
    SortedSingleton(r);
    hide Placed, Sorted;
    TwoArePlaced({q}, {r}, 0);
    TwoArePlaced({q}, {r}, 1);
  }

  lemma TwoArePlaced(g: set<Root>, h: set<Root>, k: nat)
    ensures Placed([g, h], [0, 1], k) == (if k == 0 then Sorted(g) else []) + (if k == 1 then Sorted(h) else [])
  {
    assert Placed([], [], k) == [];
    hide Placed, Sorted;
    var first: seq<nat>, both: seq<nat> := [0], [0, 1];
    PlacedOfNext([], [], g, 0, k);
    PlacedOfNext([g], first, h, 1, k);
    assert [] + [g] == [g] && [] + first == first && [g] + [h] == [g, h] && first + [1] == both;
  }

  lemma PairIsPlan(policy: Policy, q: Root, r: Root)
    requires policy.Cost(r) < 0 < policy.Cost(q) && !policy.Linked(q, r)
    ensures IsPlan(policy, PairLayout(q, r))
  {
    hide Policy.Cost, Policy.Linked, Components, Greedy, FirstFit, InOrder, Placed, Sorted, Lists;
    PairIsComponents(policy, q, r);
    PairIsBalanced(policy, q, r);
    PairIsPlaced(q, r);
    var plan := PairLayout(q, r);
    assert plan.Shaped();
    assert plan.Grouped(policy);
    assert plan.Balanced(policy);
    assert plan.Filled();
  }

  /** With costs 1 and -c on two shards the bound fails; here for any positive and negative cost. */
  lemma PairBreaksBound(policy: Policy, q: Root, r: Root)
    requires policy.Cost(r) < 0 < policy.Cost(q) && !policy.Linked(q, r)
    ensures PairLayout(q, r).Shaped() && !WithinBound(policy, PairLayout(q, r))
  {
    hide Policy.Cost, Policy.Linked, IsPlan;
    PairIsPlan(policy, q, r);
    PairIsBalanced(policy, q, r);
    CostOfOne(policy, q);
    var plan, costs := PairLayout(q, r), [policy.Cost(q), policy.Cost(r)];
    TotalOfTwo(policy.Cost(q), policy.Cost(r));
    assert AtMost(costs, policy.Cost(q));
    assert plan.shards[0] == [q];
    assert !ShardBound(policy, plan, 0, policy.Cost(q));
  }

  /**
  The balance bound holds of every plan of every root set if and only if no root has a negative cost:
  two roots that need nothing in common break it as soon as one of them has.
  */
  lemma BalanceNeedsNonNegativeCosts(policy: Policy)
    requires policy.defaultCost >= 1
    ensures (forall plan :: IsPlan(policy, plan) ==> WithinBound(policy, plan)) <==>
      forall r: Root :: policy.Cost(r) >= 0
  {
    if forall r: Root :: policy.Cost(r) >= 0 {
      forall plan | IsPlan(policy, plan)
        ensures WithinBound(policy, plan)
      {
        PlanIsWithinBound(policy, plan);
      }
    } else {
      var r: Root :| policy.Cost(r) < 0;
      var q := RootBeyond(policy.closures.Keys + policy.costs.Keys + policy.Closure(r) + {r});
      assert policy.Cost(q) == policy.defaultCost && policy.Closure(q) == {q};
      assert !policy.Linked(q, r);
      PairIsPlan(policy, q, r);
      PairBreaksBound(policy, q, r);
    }
  }

  lemma TotalOfTwo(a: int, b: int)
    ensures Total([a, b]) == a + b
  {
    assert [a, b][..1] == [a] && [a][..0] == [];
    assert Total([a]) == a;
  }

  lemma GroupsCostSomething(policy: Policy, groups: seq<set<Root>>)
    requires forall r: Root :: policy.Cost(r) >= 0
    ensures NonNegative(Costs(policy, groups))
  {
    hide Policy.Cost, CostOf, Sorted;
    forall j | 0 <= j < |groups|
      ensures GroupCost(policy, groups[j]) >= 0
    {
      CostOfNonNegative(policy, Sorted(groups[j]));
    }
  }

  lemma ShardIsWithinBound(policy: Policy, plan: Layout, i: nat, largest: int)
    requires IsPlan(policy, plan) && NonNegative(Costs(policy, plan.groups))
    requires |plan.heavy| <= i < plan.count && largest >= 0 && AtMost(Costs(policy, plan.groups), largest)
    ensures ShardBound(policy, plan, i, largest)
  {
    hide Policy.Cost, CostOf, Components, InOrder, Greedy, FirstFit, Placed, Load, Sorted, Layout.Grouped;
    ShardCost(policy, plan, i);
    GreedyBound(Costs(policy, plan.groups), plan.assign, plan.Machines(), largest, i - |plan.heavy|);
  }

  lemma PlanIsWithinBound(policy: Policy, plan: Layout)
    requires IsPlan(policy, plan) && forall r: Root :: policy.Cost(r) >= 0
    ensures WithinBound(policy, plan)
  {
    GroupsCostSomething(policy, plan.groups);
    hide Policy.Cost, Layout.Filled, Layout.Balanced, Layout.Grouped, Costs, AtMost, ShardBound;
    forall i, largest | |plan.heavy| <= i < plan.count && largest >= 0 && AtMost(Costs(policy, plan.groups), largest)
      ensures ShardBound(policy, plan, i, largest)
    {
      ShardIsWithinBound(policy, plan, i, largest);
    }
  }

  // ---------------------------------------------------------------- determinism

  lemma ComponentsAreUnique(policy: Policy, scope: set<Root>, a: set<set<Root>>, b: set<set<Root>>)
    requires Components(policy, scope, a) && Components(policy, scope, b)
    ensures a <= b
  {
    hide Connected, Unlinked, Tied;
    forall g | g in a ensures g in b {
      assert g != {};
      var x :| x in g;
      var h :| h in b && x in h;
      forall y | y in scope ensures y in g <==> y in h {
        ComponentsAreConnectivity(policy, scope, a, g, x, y);
        ComponentsAreConnectivity(policy, scope, b, h, x, y);
      }
      assert g == h;
    }
  }

  ghost predicate PairwiseDisjoint(groups: set<set<Root>>) {
    {} !in groups && forall g, h :: g in groups && h in groups && g != h ==> g !! h
  }

  lemma FirstIsUnique(policy: Policy, groups: set<set<Root>>, a: seq<set<Root>>, b: seq<set<Root>>)
    requires PairwiseDisjoint(groups) && a != [] && b != []
    requires Lists(a, groups) && Lists(b, groups) && InOrder(policy, a) && InOrder(policy, b)
    ensures a[0] == b[0]
  {
    hide GroupCost;
    assert b[0] in groups && b[0] in a && a[0] in groups && a[0] in b;
    var i :| 0 <= i < |a| && a[i] == b[0];
    var j :| 0 <= j < |b| && b[j] == a[0];
    assert i == 0 || Precedes(policy, a[0], a[i]);
    assert j == 0 || Precedes(policy, b[0], b[j]);
    assert Least(a[0]) in a[0] && Least(b[0]) in b[0];
  }

  lemma {:induction false} OrderIsUnique(policy: Policy, groups: set<set<Root>>, a: seq<set<Root>>, b: seq<set<Root>>)
    requires PairwiseDisjoint(groups)
    requires Lists(a, groups) && Lists(b, groups) && InOrder(policy, a) && InOrder(policy, b)
    ensures a == b
    decreases |a|
  {
    hide Precedes;
    if a != [] {
      FirstIsUnique(policy, groups, a, b);
      RestIsListed(a, groups);
      RestIsListed(b, groups);
      OrderIsUnique(policy, groups - {a[0]}, a[1..], b[1..]);
      assert a == [a[0]] + a[1..] && b == [b[0]] + b[1..];
    }
  }

  lemma RestIsListed(list: seq<set<Root>>, groups: set<set<Root>>)
    requires Lists(list, groups) && list != []
    ensures Lists(list[1..], groups - {list[0]})
  {
    ListsIsSet(list, groups);
    assert list == [list[0]] + list[1..];
    forall g ensures g in list[1..] <==> g in groups - {list[0]} {
      if g in list[1..] {
        var i :| 0 <= i < |list[1..]| && list[1..][i] == g;
        ListHasNoDuplicates(list, 0, i + 1);
        assert list[i + 1] == g;
      }
    }
  }

  lemma GroupsArePairwiseDisjoint(policy: Policy, scope: set<Root>, groups: set<set<Root>>)
    requires Components(policy, scope, groups)
    ensures PairwiseDisjoint(groups)
  {
    hide Tied, Unlinked;
  }

  /** The plan depends on the requested roots alone, not on their order or on any choice along the way. */
  lemma PlanIsDeterministic(policy: Policy, p: Layout, q: Layout)
    requires IsPlan(policy, p) && IsPlan(policy, q)
    requires p.heavy == q.heavy && p.light == q.light && p.count == q.count
    ensures p.shards == q.shards
  {
    hide Components, GroupCost, InOrder, Greedy, FirstFit, Placed, Sorted;
    ComponentsAreUnique(policy, p.light, AsSet(p.groups), AsSet(q.groups));
    ComponentsAreUnique(policy, p.light, AsSet(q.groups), AsSet(p.groups));
    assert AsSet(p.groups) == AsSet(q.groups);
    GroupsArePairwiseDisjoint(policy, p.light, AsSet(p.groups));
    OrderIsUnique(policy, AsSet(p.groups), p.groups, q.groups);
    FirstFitIsUnique(Costs(policy, p.groups), p.assign, q.assign, p.Machines(), |p.groups|);
    assert p.assign[..|p.groups|] == p.assign && q.assign[..|p.groups|] == q.assign;
    forall i | 0 <= i < p.count ensures p.shards[i] == q.shards[i] {
      if i >= |p.heavy| {
        assert p.shards[|p.heavy| + (i - |p.heavy|)] == Placed(p.groups, p.assign, i - |p.heavy|);
        assert q.shards[|q.heavy| + (i - |p.heavy|)] == Placed(q.groups, q.assign, i - |p.heavy|);
      }
    }
  }
}
