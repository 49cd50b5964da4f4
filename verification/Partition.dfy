/**
Shard planning: roots whose dependency closures overlap stay together, measured heavy roots stand
alone, and the remaining groups are balanced largest first. A root is the rank of its origin in the
sorted order of all origins.
*/
module Partition {
  type Root = nat

  datatype Policy = Policy(closures: map<Root, set<Root>>, costs: map<Root, int>, defaultCost: int) {
    function Cost(r: Root): int {
      if r in costs then costs[r] else defaultCost
    }

    /** A root with everything it needs. */
    function Closure(r: Root): set<Root> {
      (if r in closures then closures[r] else {r}) + {r}
    }

    predicate Linked(a: Root, b: Root) {
      Closure(a) * Closure(b) != {}
    }
  }

  // ---------------------------------------------------------------- sorting

  lemma {:induction false} LeastExists(s: set<nat>) returns (m: nat)
    requires s != {}
    ensures m in s && forall x :: x in s ==> m <= x
  {
    var y :| y in s;
    var others := s - {y};
    m := y;
    if others != {} {
      var rest := LeastExists(others);
      m := if rest < y then rest else y;
    }
    forall x | x in s ensures m <= x {
      assert x == y || x in others;
    }
  }

  function Least(s: set<nat>): (m: nat)
    requires s != {}
    ensures m in s && forall x :: x in s ==> m <= x
  {
    assert exists m :: m in s && forall x :: x in s ==> m <= x by {
      var m := LeastExists(s);
    }
    var m :| m in s && forall x :: x in s ==> m <= x;
    m
  }

  predicate Ascending(s: seq<nat>) {
    forall i, j :: 0 <= i < j < |s| ==> s[i] < s[j]
  }

  /** The elements in order, each once. */
  function Sorted(s: set<nat>): (r: seq<nat>)
    ensures Ascending(r) && |r| == |s|
    ensures forall x :: x in r <==> x in s
  {
    if s == {} then [] else [Least(s)] + Sorted(s - {Least(s)})
  }

  function CostOf(policy: Policy, roots: seq<Root>): int {
    if roots == [] then 0 else CostOf(policy, roots[..|roots| - 1]) + policy.Cost(roots[|roots| - 1])
  }

  function GroupCost(policy: Policy, group: set<Root>): int {
    CostOf(policy, Sorted(group))
  }

  /** More expensive groups come first; equally expensive ones by their first root. */
  predicate Precedes(policy: Policy, a: set<Root>, b: set<Root>)
    requires a != {} && b != {}
  {
    GroupCost(policy, a) > GroupCost(policy, b)
    || (GroupCost(policy, a) == GroupCost(policy, b) && Least(a) <= Least(b))
  }

  predicate InOrder(policy: Policy, groups: seq<set<Root>>) {
    && (forall i :: 0 <= i < |groups| ==> groups[i] != {})
    && forall i, j :: 0 <= i < j < |groups| ==> Precedes(policy, groups[i], groups[j])
  }

  ghost predicate Lists(list: seq<set<Root>>, groups: set<set<Root>>) {
    && |list| == |groups|
    && (forall g :: g in list <==> g in groups)
  }

  /** Places one more group behind everything that precedes it. */
  method Insert(policy: Policy, group: set<Root>, list: seq<set<Root>>) returns (r: seq<set<Root>>)
    requires group != {} && InOrder(policy, list)
    ensures InOrder(policy, r) && |r| == |list| + 1
    ensures forall g :: g in r <==> g == group || g in list
  {
    hide GroupCost;
    var p := 0;
    while p < |list| && !Precedes(policy, group, list[p])
      invariant p <= |list|
      invariant forall j :: 0 <= j < p ==> Precedes(policy, list[j], group)
    {
      p := p + 1;
    }
    forall j | p <= j < |list| ensures Precedes(policy, group, list[j]) {
      if j > p {
        assert Precedes(policy, list[p], list[j]);
      }
    }
    r := list[..p] + [group] + list[p..];
    assert list == list[..p] + list[p..];
  }

  method SortGroups(policy: Policy, groups: set<set<Root>>) returns (list: seq<set<Root>>)
    requires {} !in groups
    ensures InOrder(policy, list) && Lists(list, groups)
  {
    list := [];
    var todo := groups;
    while todo != {}
      invariant todo <= groups && InOrder(policy, list) && Lists(list, groups - todo)
      decreases todo
    {
      var group :| group in todo;
      list := Insert(policy, group, list);
      assert groups - (todo - {group}) == (groups - todo) + {group};
      todo := todo - {group};
    }
    assert groups - todo == groups;
  }

  // ---------------------------------------------------------------- connected components

  /** The set contains every root of scope linked to one of its own. */
  ghost predicate ClosedUnderLinks(policy: Policy, scope: set<Root>, c: set<Root>) {
    forall x, y :: x in c && x in scope && y in scope && policy.Linked(x, y) ==> y in c
  }

  /** b belongs to every link-closed set around a: a chain of overlapping closures joins them. */
  ghost predicate Connected(policy: Policy, scope: set<Root>, a: Root, b: Root) {
    forall c: set<Root> :: a in c && ClosedUnderLinks(policy, scope, c) ==> b in c
  }

  predicate Unlinked(policy: Policy, a: set<Root>, b: set<Root>) {
    forall x, y :: x in a && y in b ==> !policy.Linked(x, y)
  }

  ghost predicate Tied(policy: Policy, scope: set<Root>, group: set<Root>) {
    forall a, b :: a in group && b in group ==> Connected(policy, scope, a, b)
  }

  ghost predicate Separate(policy: Policy, groups: set<set<Root>>) {
    forall g, h :: g in groups && h in groups && g != h ==> g !! h && Unlinked(policy, g, h)
  }

  ghost predicate Covers(groups: set<set<Root>>, scope: set<Root>) {
    && (forall g :: g in groups ==> g <= scope)
    && forall r :: r in scope ==> exists g :: g in groups && r in g
  }

  /** The groups partition the roots into the components of "closures overlap". */
  ghost predicate Components(policy: Policy, scope: set<Root>, groups: set<set<Root>>) {
    && {} !in groups && Covers(groups, scope) && Separate(policy, groups)
    && forall g :: g in groups ==> Tied(policy, scope, g)
  }

  /** Two roots share a group exactly when a chain of overlapping closures joins them. */
  lemma ComponentsAreConnectivity(policy: Policy, scope: set<Root>, groups: set<set<Root>>, g: set<Root>, a: Root,
                                  b: Root)
    requires Components(policy, scope, groups) && g in groups && a in g && b in scope
    ensures b in g <==> Connected(policy, scope, a, b)
  {
    assert Tied(policy, scope, g);
    forall x, y | x in g && y in scope && policy.Linked(x, y) ensures y in g {
      var h :| h in groups && y in h;
      if h != g {
        assert Unlinked(policy, g, h);
      }
    }
    assert ClosedUnderLinks(policy, scope, g);
  }

  lemma TiedInWider(policy: Policy, scope: set<Root>, wider: set<Root>, group: set<Root>)
    requires scope <= wider && Tied(policy, scope, group)
    ensures Tied(policy, wider, group)
  {
    forall a, b | a in group && b in group ensures Connected(policy, wider, a, b) {
      forall c: set<Root> | a in c && ClosedUnderLinks(policy, wider, c) ensures b in c {
        assert ClosedUnderLinks(policy, scope, c);
        assert Connected(policy, scope, a, b);
      }
    }
  }

  /** A root ties together the groups it overlaps. */
  lemma MergeIsTied(policy: Policy, scope: set<Root>, root: Root, merged: set<Root>, group: set<Root>)
    requires root in scope && group <= scope && merged <= scope
    requires root in merged && Tied(policy, scope, merged) && Tied(policy, scope, group)
    requires exists item :: item in group && policy.Linked(root, item)
    ensures Tied(policy, scope, merged + group)
  {
    var item :| item in group && policy.Linked(root, item);
    LinkedIsSymmetric(policy, root, item);
    forall a, b | a in merged + group && b in merged + group ensures Connected(policy, scope, a, b) {
      forall c: set<Root> | a in c && ClosedUnderLinks(policy, scope, c) ensures b in c {
        assert if a in merged then Connected(policy, scope, a, root) else Connected(policy, scope, a, item);
        assert root in c && item in c;
        assert if b in merged then Connected(policy, scope, root, b) else Connected(policy, scope, item, b);
      }
    }
  }

  lemma LinkedIsSymmetric(policy: Policy, a: Root, b: Root)
    ensures policy.Linked(a, b) == policy.Linked(b, a)
  {
    assert policy.Closure(a) * policy.Closure(b) == policy.Closure(b) * policy.Closure(a);
  }

  lemma UnlinkedIsSymmetric(policy: Policy, a: set<Root>, b: set<Root>)
    requires Unlinked(policy, a, b)
    ensures Unlinked(policy, b, a)
  {
    forall x, y | x in b && y in a ensures !policy.Linked(x, y) {
      LinkedIsSymmetric(policy, x, y);
    }
  }

  /** Joins one root with every group that its closure overlaps. */
  method Join(policy: Policy, groups: set<set<Root>>, ghost scope: set<Root>, root: Root) returns (r: set<set<Root>>)
    requires Components(policy, scope, groups) && root !in scope
    ensures Components(policy, scope + {root}, r)
  {
    hide Connected, Policy.Linked;
    ghost var wider := scope + {root};
    forall g | g in groups ensures Tied(policy, wider, g) {
      TiedInWider(policy, scope, wider, g);
    }
    SingletonIsTied(policy, wider, root);
    var merged, kept, todo := {root}, groups, groups;
    while todo != {}
      invariant todo <= kept <= groups
      invariant root in merged && merged <= wider && Tied(policy, wider, merged)
      invariant forall g :: g in kept ==> merged !! g && Unlinked(policy, merged - {root}, g)
      invariant forall g :: g in kept - todo ==> Unlinked(policy, {root}, g)
      invariant forall x :: x in wider && x !in merged ==> exists g :: g in kept && x in g
      decreases todo
    {
      var group :| group in todo;
      todo := todo - {group};
      if exists item :: item in group && policy.Linked(root, item) {
        MergeIsTied(policy, wider, root, merged, group);
        kept := kept - {group};
        forall g | g in kept ensures Unlinked(policy, merged + group - {root}, g) {
          assert Unlinked(policy, group, g);
        }
        merged := merged + group;
      }
    }
    r := kept + {merged};
    forall g, h | g in r && h in r && g != h ensures g !! h && Unlinked(policy, g, h) {
      if g == merged {
        assert Unlinked(policy, {root}, h);
      } else if h == merged {
        assert Unlinked(policy, {root}, g);
        UnlinkedIsSymmetric(policy, merged, g);
      }
    }
    assert forall x :: x in merged ==> merged in r && x in merged;
  }

  lemma SingletonIsTied(policy: Policy, scope: set<Root>, root: Root)
    ensures Tied(policy, scope, {root})
  {
  }
}
