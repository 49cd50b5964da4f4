/**
The capped deletion batch: oldest first within each bucket, or exactly the batch that the previous
run recorded, as long as every one of its groups is still eligible.
*/
module DeletionBatch {
  import opened Wrappers

  /** One group of objects that may be deleted together. */
  datatype Candidate = Candidate(bucket: string, prefix: string, keys: seq<string>, bytes: nat, modified: int) {
    /** What the group digest identifies: bucket, prefix and the keys in any order. */
    function Id(): GroupId {
      GroupId(bucket, prefix, multiset(keys))
    }
  }

  datatype GroupId = GroupId(bucket: string, prefix: string, keys: multiset<string>)

  datatype Caps = Caps(objects: nat, bytes: nat)

  datatype Failed = Failed

  // ---------------------------------------------------------------- order

  predicate TextLeq(a: string, b: string) {
    if a == "" then true else if b == "" then false
    else if a[0] != b[0] then a[0] < b[0] else TextLeq(a[1..], b[1..])
  }

  lemma {:induction false} TextLeqIsTotal(a: string, b: string)
    ensures TextLeq(a, b) || TextLeq(b, a)
    ensures TextLeq(a, b) && TextLeq(b, a) ==> a == b
    decreases |a|
  {
    if a != "" && b != "" && a[0] == b[0] {
      TextLeqIsTotal(a[1..], b[1..]);
      assert a == [a[0]] + a[1..] && b == [b[0]] + b[1..];
    }
  }

  lemma {:induction false} TextLeqIsTransitive(a: string, b: string, c: string)
    requires TextLeq(a, b) && TextLeq(b, c)
    ensures TextLeq(a, c)
    decreases |a|
  {
    if a != "" && a[0] == b[0] && b[0] == c[0] {
      TextLeqIsTransitive(a[1..], b[1..], c[1..]);
    }
  }

  /** Older first; then by bucket and prefix. */
  predicate Precedes(a: Candidate, b: Candidate) {
    a.modified < b.modified
    || (a.modified == b.modified
        && (if a.bucket == b.bucket then TextLeq(a.prefix, b.prefix) else TextLeq(a.bucket, b.bucket)))
  }

  lemma PrecedesIsTotal(a: Candidate, b: Candidate)
    ensures Precedes(a, b) || Precedes(b, a)
  {
    TextLeqIsTotal(a.prefix, b.prefix);
    TextLeqIsTotal(a.bucket, b.bucket);
  }

  lemma PrecedesIsTransitive(a: Candidate, b: Candidate, c: Candidate)
    requires Precedes(a, b) && Precedes(b, c)
    ensures Precedes(a, c)
  {
    if a.modified == b.modified == c.modified {
      if a.bucket == b.bucket == c.bucket {
        TextLeqIsTransitive(a.prefix, b.prefix, c.prefix);
      } else if a.bucket != b.bucket && b.bucket != c.bucket {
        TextLeqIsTransitive(a.bucket, b.bucket, c.bucket);
        TextLeqIsTotal(a.bucket, b.bucket);
      }
    }
  }

  predicate InOrder(s: seq<Candidate>) {
    forall i, j :: 0 <= i < j < |s| ==> Precedes(s[i], s[j])
  }

  function Insert(c: Candidate, s: seq<Candidate>): (r: seq<Candidate>)
    ensures multiset(r) == multiset{c} + multiset(s)
  {
    if s == [] then [c]
    else if Precedes(c, s[0]) then [c] + s
    else
      assert s == [s[0]] + s[1..];
      [s[0]] + Insert(c, s[1..])
  }

  function Ordered(s: seq<Candidate>): (r: seq<Candidate>)
    ensures multiset(r) == multiset(s)
  {
    if s == [] then []
    else
      assert s == [s[0]] + s[1..];
      Insert(s[0], Ordered(s[1..]))
  }

  lemma {:induction false} InsertKeepsOrder(c: Candidate, s: seq<Candidate>)
    requires InOrder(s)
    ensures InOrder(Insert(c, s))
  {
    hide Precedes;
    if s != [] {
      if Precedes(c, s[0]) {
        forall j | 0 < j < |s| ensures Precedes(c, s[j]) {
          PrecedesIsTransitive(c, s[0], s[j]);
        }
      } else {
        PrecedesIsTotal(c, s[0]);
        InsertKeepsOrder(c, s[1..]);
        var rest := Insert(c, s[1..]);
        forall x | x in rest ensures Precedes(s[0], x) {
          assert x in multiset(rest);
          if x != c {
            assert x in s[1..];
          }
        }
      }
    }
  }

  lemma {:induction false} OrderedIsInOrder(s: seq<Candidate>)
    ensures InOrder(Ordered(s))
  {
    if s != [] {
      OrderedIsInOrder(s[1..]);
      InsertKeepsOrder(s[0], Ordered(s[1..]));
    }
  }

  // ---------------------------------------------------------------- totals of one bucket

  function InBucket(s: seq<Candidate>, bucket: string): seq<Candidate> {
    if s == [] then [] else
    InBucket(s[..|s| - 1], bucket) + if s[|s| - 1].bucket == bucket then [s[|s| - 1]] else []
  }

  function Objects(s: seq<Candidate>): nat {
    if s == [] then 0 else Objects(s[..|s| - 1]) + |s[|s| - 1].keys|
  }

  function Bytes(s: seq<Candidate>): nat {
    if s == [] then 0 else Bytes(s[..|s| - 1]) + s[|s| - 1].bytes
  }

  predicate Fits(caps: Caps, s: seq<Candidate>) {
    Objects(s) <= caps.objects && Bytes(s) <= caps.bytes
  }

  /** What one run may delete in each bucket. */
  ghost predicate Affordable(caps: Caps, s: seq<Candidate>) {
    forall b :: Fits(caps, InBucket(s, b))
  }

  lemma Snoc(s: seq<Candidate>, c: Candidate, bucket: string)
    ensures InBucket(s + [c], bucket) == InBucket(s, bucket) + if c.bucket == bucket then [c] else []
    ensures Objects(s + [c]) == Objects(s) + |c.keys| && Bytes(s + [c]) == Bytes(s) + c.bytes
  {
    assert (s + [c])[..|s|] == s;
  }

  // ---------------------------------------------------------------- the greedy batch

  /** Every bucket gives an oldest-first prefix that fits, and its next group would not fit. */
  ghost predicate OldestFirst(caps: Caps, ordered: seq<Candidate>, selected: seq<Candidate>, deferred: seq<Candidate>) {
    && multiset(selected) + multiset(deferred) == multiset(ordered)
    && forall bucket ::
      BucketPrefix(caps, InBucket(ordered, bucket), InBucket(selected, bucket), InBucket(deferred, bucket))
  }

  ghost predicate BucketPrefix(caps: Caps, all: seq<Candidate>, taken: seq<Candidate>, left: seq<Candidate>) {
    && all == taken + left && Fits(caps, taken)
    && (left != [] ==> !Fits(caps, taken + [left[0]]))
  }

  /** One bucket after one more of its groups was looked at. */
  lemma TakesNext(caps: Caps, all: seq<Candidate>, taken: seq<Candidate>, left: seq<Candidate>, c: Candidate)
    requires BucketPrefix(caps, all, taken, left)
    ensures left == [] && Fits(caps, taken + [c]) ==> BucketPrefix(caps, all + [c], taken + [c], [])
    ensures left != [] || !Fits(caps, taken + [c]) ==> BucketPrefix(caps, all + [c], taken, left + [c])
  {
    if left == [] {
      assert taken + [] == taken && all + [c] == taken + [c] + [];
      assert (left + [c])[0] == c;
    } else {
      assert (left + [c])[0] == left[0];
    }
    assert all + [c] == taken + (left + [c]);
  }

  /** Adding one group to a list changes only what its own bucket holds. */
  lemma Extends(s: seq<Candidate>, c: Candidate)
    ensures forall b :: InBucket(s + [c], b) == if c.bucket == b then InBucket(s, b) + [c] else InBucket(s, b)
    ensures Objects(InBucket(s + [c], c.bucket)) == Objects(InBucket(s, c.bucket)) + |c.keys|
    ensures Bytes(InBucket(s + [c], c.bucket)) == Bytes(InBucket(s, c.bucket)) + c.bytes
  {
    hide Objects, Bytes;
    forall b
      ensures InBucket(s + [c], b) == if c.bucket == b then InBucket(s, b) + [c] else InBucket(s, b)
    {
      Snoc(s, c, b);
      assert InBucket(s, b) + [] == InBucket(s, b);
    }
    Snoc(InBucket(s, c.bucket), c, c.bucket);
  }

  predicate Takes(caps: Caps, selected: seq<Candidate>, deferred: seq<Candidate>, c: Candidate) {
    InBucket(deferred, c.bucket) == [] && Fits(caps, InBucket(selected, c.bucket) + [c])
  }

  lemma MembersExtend(ordered: seq<Candidate>, selected: seq<Candidate>, deferred: seq<Candidate>, c: Candidate)
    requires multiset(selected) + multiset(deferred) == multiset(ordered)
    ensures multiset(selected + [c]) + multiset(deferred) == multiset(ordered + [c])
    ensures multiset(selected) + multiset(deferred + [c]) == multiset(ordered + [c])
  {
  }

  lemma BucketsExtend(caps: Caps, ordered: seq<Candidate>, selected: seq<Candidate>, deferred: seq<Candidate>,
                      c: Candidate, b: string)
    requires BucketPrefix(caps, InBucket(ordered, b), InBucket(selected, b), InBucket(deferred, b))
    ensures Takes(caps, selected, deferred, c) ==>
      BucketPrefix(caps, InBucket(ordered + [c], b), InBucket(selected + [c], b), InBucket(deferred, b))
    ensures !Takes(caps, selected, deferred, c) ==>
      BucketPrefix(caps, InBucket(ordered + [c], b), InBucket(selected, b), InBucket(deferred + [c], b))
  {
    hide BucketPrefix, InBucket, Fits;
    Extends(ordered, c);
    Extends(selected, c);
    Extends(deferred, c);
    TakesNext(caps, InBucket(ordered, b), InBucket(selected, b), InBucket(deferred, b), c);
  }

  lemma TakesOrDefers(caps: Caps, ordered: seq<Candidate>, selected: seq<Candidate>, deferred: seq<Candidate>,
                      c: Candidate)
    requires OldestFirst(caps, ordered, selected, deferred)
    ensures Takes(caps, selected, deferred, c) ==> OldestFirst(caps, ordered + [c], selected + [c], deferred)
    ensures !Takes(caps, selected, deferred, c) ==> OldestFirst(caps, ordered + [c], selected, deferred + [c])
  {
    hide BucketPrefix, InBucket, Fits;
    hide Takes;
    MembersExtend(ordered, selected, deferred, c);
    forall b
      ensures Takes(caps, selected, deferred, c) ==>
        BucketPrefix(caps, InBucket(ordered + [c], b), InBucket(selected + [c], b), InBucket(deferred, b))
      ensures !Takes(caps, selected, deferred, c) ==>
        BucketPrefix(caps, InBucket(ordered + [c], b), InBucket(selected, b), InBucket(deferred + [c], b))
    {
      BucketsExtend(caps, ordered, selected, deferred, c, b);
    }
  }

  lemma KeepsOrder(ordered: seq<Candidate>, i: nat, part: seq<Candidate>)
    requires i < |ordered| && InOrder(ordered) && InOrder(part)
    requires forall c :: c in part ==> c in ordered[..i]
    ensures InOrder(part + [ordered[i]])
  {
    hide Precedes;
    forall k | 0 <= k < |part|
      ensures Precedes(part[k], ordered[i])
    {
      assert part[k] in ordered[..i];
    }
  }

  lemma PartsOf(whole: seq<Candidate>, a: seq<Candidate>, b: seq<Candidate>)
    requires multiset(a) + multiset(b) == multiset(whole)
    ensures forall c :: c in a || c in b <==> c in whole
  {
    forall c
      ensures c in a || c in b <==> c in whole
    {
      assert c in whole <==> c in multiset(whole);
      assert c in a <==> c in multiset(a);
      assert c in b <==> c in multiset(b);
    }
  }

  /** The running usage of every bucket, and the buckets that already deferred a group. */
  ghost predicate Tallies(selected: seq<Candidate>, deferred: seq<Candidate>, used: map<string, (nat, nat)>,
                          blocked: set<string>) {
    && (forall b :: (Objects(InBucket(selected, b)), Bytes(InBucket(selected, b))) == Usage(used, b))
    && (forall b :: b in blocked <==> InBucket(deferred, b) != [])
  }

  function Usage(used: map<string, (nat, nat)>, b: string): (nat, nat) {
    if b in used then used[b] else (0, 0)
  }

  lemma TalliesTaken(selected: seq<Candidate>, deferred: seq<Candidate>, used: map<string, (nat, nat)>,
                     blocked: set<string>, c: Candidate)
    requires Tallies(selected, deferred, used, blocked)
    ensures Tallies(selected + [c], deferred,
                    used[c.bucket := (Usage(used, c.bucket).0 + |c.keys|, Usage(used, c.bucket).1 + c.bytes)], blocked)
  {
    hide InBucket, Objects, Bytes;
    Extends(selected, c);
  }

  lemma TalliesDeferred(selected: seq<Candidate>, deferred: seq<Candidate>, used: map<string, (nat, nat)>,
                        blocked: set<string>, c: Candidate)
    requires Tallies(selected, deferred, used, blocked)
    ensures Tallies(selected, deferred + [c], used, blocked + {c.bucket})
  {
    hide InBucket, Objects, Bytes;
    Extends(deferred, c);
  }

  lemma TalliesDecide(caps: Caps, selected: seq<Candidate>, deferred: seq<Candidate>, used: map<string, (nat, nat)>,
                      blocked: set<string>, c: Candidate)
    requires Tallies(selected, deferred, used, blocked)
    ensures Takes(caps, selected, deferred, c) <==>
      c.bucket !in blocked && Usage(used, c.bucket).0 + |c.keys| <= caps.objects
        && Usage(used, c.bucket).1 + c.bytes <= caps.bytes
  {
    hide InBucket, Objects, Bytes, Usage;
    Snoc(InBucket(selected, c.bucket), c, c.bucket);
    assert (Objects(InBucket(selected, c.bucket)), Bytes(InBucket(selected, c.bucket))) == Usage(used, c.bucket);
  }

  method SelectOldest(caps: Caps, ordered: seq<Candidate>) returns (selected: seq<Candidate>, deferred: seq<Candidate>)
    requires InOrder(ordered)
    ensures OldestFirst(caps, ordered, selected, deferred)
    ensures InOrder(selected) && InOrder(deferred)
  {
    hide OldestFirst, InOrder, Tallies, Takes;
    selected, deferred := [], [];
    var used: map<string, (nat, nat)> := map[];
    var blocked: set<string> := {};
    NothingTaken(caps);
    for i := 0 to |ordered|
      invariant OldestFirst(caps, ordered[..i], selected, deferred)
      invariant InOrder(selected) && InOrder(deferred)
      invariant Tallies(selected, deferred, used, blocked)
    {
      var item := ordered[i];
      var usage := Usage(used, item.bucket);
      var exceeds := usage.0 + |item.keys| > caps.objects || usage.1 + item.bytes > caps.bytes;
      assert ordered[..i + 1] == ordered[..i] + [item];
      OldestFirstFits(caps, ordered[..i], selected, deferred);
      PartsOf(ordered[..i], selected, deferred);
      TalliesDecide(caps, selected, deferred, used, blocked, item);
      TakesOrDefers(caps, ordered[..i], selected, deferred, item);
      if item.bucket in blocked || exceeds {
        KeepsOrder(ordered, i, deferred);
        TalliesDeferred(selected, deferred, used, blocked, item);
        blocked := blocked + {item.bucket};
        deferred := deferred + [item];
      } else {
        KeepsOrder(ordered, i, selected);
        TalliesTaken(selected, deferred, used, blocked, item);
        selected := selected + [item];
        used := used[item.bucket := (usage.0 + |item.keys|, usage.1 + item.bytes)];
      }
    }
    assert ordered[..|ordered|] == ordered;
  }

  lemma NothingTaken(caps: Caps)
    ensures OldestFirst(caps, [], [], []) && InOrder([])
    ensures Tallies([], [], map[], {})
  {
  }

  // ---------------------------------------------------------------- the pinned batch

  predicate Distinct<T(==)>(s: seq<T>) {
    forall i, j :: 0 <= i < j < |s| ==> s[i] != s[j]
  }

  function Ids(s: seq<Candidate>): seq<GroupId> {
    seq(|s|, i requires 0 <= i < |s| => s[i].Id())
  }

  /** No group occurs twice, and no two groups have the same bucket, prefix and keys. */
  ghost predicate NoTwins(m: multiset<Candidate>) {
    && (forall c :: c in m ==> m[c] == 1)
    && forall c, d :: c in m && d in m && c.Id() == d.Id() ==> c == d
  }

  /** A group that candidate_group_digest accepts. */
  predicate Named(c: Candidate) {
    && c.bucket != "" && "v1/" <= c.prefix && c.keys != []
    && forall key :: key in c.keys ==> "v1/" <= key
  }

  predicate Single(caps: Caps, c: Candidate) {
    |c.keys| <= caps.objects && c.bytes <= caps.bytes
  }

  ghost predicate Plannable(caps: Caps, candidates: seq<Candidate>) {
    && (forall c :: c in candidates ==> Named(c) && Single(caps, c))
    && NoTwins(multiset(candidates))
  }

  /** The previous run recorded a batch and every one of its groups is still eligible. */
  predicate Pinned(candidates: seq<Candidate>, previous: seq<GroupId>) {
    previous != [] && forall id :: id in previous ==> Holds(candidates, id)
  }

  ghost predicate IsBatch(caps: Caps, candidates: seq<Candidate>, previous: seq<GroupId>,
                          selected: seq<Candidate>, deferred: seq<Candidate>) {
    && multiset(selected) + multiset(deferred) == multiset(candidates)
    && InOrder(deferred)
    && Affordable(caps, selected)
    && if Pinned(candidates, previous) then Ids(selected) == previous
       else InOrder(selected) && OldestFirst(caps, Ordered(candidates), selected, deferred)
  }

  function Members(ids: seq<GroupId>): set<GroupId> {
    set id | id in ids
  }

  function Without(s: seq<Candidate>, ids: set<GroupId>): seq<Candidate> {
    if s == [] then [] else
    Without(s[..|s| - 1], ids) + if s[|s| - 1].Id() in ids then [] else [s[|s| - 1]]
  }

  lemma {:induction false} WithoutKeepsOrder(s: seq<Candidate>, ids: set<GroupId>)
    requires InOrder(s)
    ensures InOrder(Without(s, ids))
    ensures forall c :: c in Without(s, ids) ==> c in s
  {
    hide Precedes;
    if s != [] {
      var n := |s| - 1;
      WithoutKeepsOrder(s[..n], ids);
      KeepsOrder(s, n, Without(s[..n], ids));
    }
  }

  lemma {:induction false} WithoutAbsent(s: seq<Candidate>, ids: set<GroupId>, id: GroupId)
    requires forall c :: c in s ==> c.Id() != id
    ensures Without(s, ids + {id}) == Without(s, ids)
  {
    if s != [] {
      WithoutAbsent(s[..|s| - 1], ids, id);
    }
  }

  lemma WithoutLast(s: seq<Candidate>, ids: set<GroupId>)
    requires s != []
    ensures Without(s, ids) == Without(s[..|s| - 1], ids) + if s[|s| - 1].Id() in ids then [] else [s[|s| - 1]]
  {
  }

  lemma {:induction false} WithoutOne(s: seq<Candidate>, ids: set<GroupId>, c: Candidate)
    requires NoTwins(multiset(s)) && c in s && c.Id() !in ids
    ensures multiset(Without(s, ids + {c.Id()})) + multiset{c} == multiset(Without(s, ids))
  {
    hide Without;
    var n := |s| - 1;
    var front := s[..n];
    WithoutLast(s, ids);
    WithoutLast(s, ids + {c.Id()});
    assert s == front + [s[n]];
    assert multiset(s) == multiset(front) + multiset{s[n]};
    if s[n] == c {
      forall d | d in front
        ensures d.Id() != c.Id()
      {
        assert d in multiset(front);
      }
      WithoutAbsent(front, ids, c.Id());
    } else {
      assert c in multiset(s) && s[n] in multiset(s);
      OneMore(front, s[n]);
      WithoutOne(front, ids, c);
    }
  }

  /** The pinned batch and the rest of the candidates are together exactly the candidates. */
  lemma {:induction false} PinnedConserves(s: seq<Candidate>, previous: seq<GroupId>, selected: seq<Candidate>)
    requires NoTwins(multiset(s)) && Distinct(previous)
    requires Ids(selected) == previous && forall c :: c in selected ==> c in s
    ensures multiset(selected) + multiset(Without(s, Members(previous))) == multiset(s)
    decreases |previous|
  {
    hide NoTwins, Without;
    if previous == [] {
      assert Members(previous) == {};
      WithoutNothing(s);
    } else {
      var n := |previous| - 1;
      var c := selected[n];
      var ids := Members(previous[..n]);
      assert previous[n] == c.Id();
      assert Members(previous) == ids + {c.Id()} by {
        assert previous == previous[..n] + [c.Id()];
      }
      assert selected == selected[..n] + [c];
      PinnedConserves(s, previous[..n], selected[..n]);
      WithoutOne(s, ids, c);
    }
  }

  lemma {:induction false} WithoutNothing(s: seq<Candidate>)
    ensures Without(s, {}) == s
  {
    if s != [] {
      WithoutNothing(s[..|s| - 1]);
    }
  }

  /** A recorded batch names its groups without room for choice. */
  lemma RecallIsUnique(candidates: seq<Candidate>, a: seq<Candidate>, b: seq<Candidate>)
    requires NoTwins(multiset(candidates)) && Ids(a) == Ids(b)
    requires forall c :: c in a || c in b ==> c in candidates
    ensures a == b
  {
    assert |a| == |Ids(a)| == |b|;
    forall i | 0 <= i < |a|
      ensures a[i] == b[i]
    {
      assert a[i].Id() == Ids(a)[i] == Ids(b)[i] == b[i].Id();
      assert a[i] in a && b[i] in b;
      assert a[i] in multiset(candidates) && b[i] in multiset(candidates);
    }
  }

  predicate Holds(s: seq<Candidate>, id: GroupId) {
    exists c :: c in s && c.Id() == id
  }

  lemma OneMore(s: seq<Candidate>, item: Candidate)
    ensures NoTwins(multiset(s + [item])) <==> NoTwins(multiset(s)) && !Holds(s, item.Id())
  {
    var m, more := multiset(s), multiset(s + [item]);
    assert more == m + multiset{item};
    forall d | d in s ensures d in m && d in more {}
    if Holds(s, item.Id()) {
      var d :| d in s && d.Id() == item.Id();
      assert d in more && item in more;
    } else {
      assert item !in m by { assert item in m ==> item in s; }
      forall c | c in m ensures c in s && more[c] == m[c] {}
    }
  }

  /** The groups by identity: fewer entries than groups exactly when two groups share an identity. */
  ghost predicate Indexes(indexed: map<GroupId, Candidate>, s: seq<Candidate>) {
    && (forall id :: id in indexed ==> indexed[id] in s && indexed[id].Id() == id)
    && (forall c :: c in s ==> c.Id() in indexed)
    && |indexed| <= |s|
    && (|indexed| == |s| <==> NoTwins(multiset(s)))
  }

  lemma OneKeyMore(m: map<GroupId, Candidate>, id: GroupId, c: Candidate)
    ensures |m[id := c]| == if id in m then |m| else |m| + 1
  {
    var more := m[id := c];
    assert |more| == |more.Keys| && |m| == |m.Keys|;
    assert more.Keys == m.Keys + {id};
  }

  lemma IndexesMore(indexed: map<GroupId, Candidate>, s: seq<Candidate>, item: Candidate)
    requires Indexes(indexed, s)
    ensures Indexes(indexed[item.Id() := item], s + [item])
  {
    hide NoTwins, Holds;
    OneMore(s, item);
    var id := item.Id();
    OneKeyMore(indexed, id, item);
    assert item in s + [item];
    assert id in indexed <==> Holds(s, id) by {
      IndexHolds(indexed, s, id);
    }
  }

  lemma IndexHolds(indexed: map<GroupId, Candidate>, s: seq<Candidate>, id: GroupId)
    requires Indexes(indexed, s)
    ensures id in indexed <==> Holds(s, id)
  {
    hide NoTwins;
  }

  method Index(ordered: seq<Candidate>) returns (indexed: map<GroupId, Candidate>)
    ensures Indexes(indexed, ordered)
  {
    indexed := map[];
    for i := 0 to |ordered|
      invariant Indexes(indexed, ordered[..i])
    {
      hide Indexes;
      IndexesMore(indexed, ordered[..i], ordered[i]);
      assert ordered[..i + 1] == ordered[..i] + [ordered[i]];
      indexed := indexed[ordered[i].Id() := ordered[i]];
    }
    assert ordered[..|ordered|] == ordered;
  }

  // ---------------------------------------------------------------- the batch of one run

  method WithinCaps(caps: Caps, selected: seq<Candidate>) returns (fits: bool)
    ensures fits <==> Affordable(caps, selected)
  {
    hide Objects, Bytes, InBucket;
    var buckets := set c | c in selected :: c.bucket;
    forall b | b !in buckets
      ensures InBucket(selected, b) == []
    {
      NoneInBucket(selected, b);
    }
    NothingFits(caps);
    var left := buckets;
    while left != {}
      invariant left <= buckets
      invariant forall b :: b in buckets && b !in left ==> Fits(caps, InBucket(selected, b))
      decreases |left|
    {
      var b :| b in left;
      var bucketCandidates := InBucket(selected, b);
      if Objects(bucketCandidates) > caps.objects || Bytes(bucketCandidates) > caps.bytes {
        assert !Fits(caps, InBucket(selected, b));
        return false;
      }
      left := left - {b};
    }
    forall b
      ensures Fits(caps, InBucket(selected, b))
    {
      assert b in buckets || InBucket(selected, b) == [];
    }
    return true;
  }

  lemma NothingFits(caps: Caps)
    ensures Fits(caps, [])
  {
  }

  lemma {:induction false} NoneInBucket(s: seq<Candidate>, b: string)
    requires forall c :: c in s ==> c.bucket != b
    ensures InBucket(s, b) == []
  {
    if s != [] {
      NoneInBucket(s[..|s| - 1], b);
    }
  }

  lemma OldestFirstFits(caps: Caps, ordered: seq<Candidate>, selected: seq<Candidate>, deferred: seq<Candidate>)
    requires OldestFirst(caps, ordered, selected, deferred)
    ensures Affordable(caps, selected)
    ensures multiset(selected) + multiset(deferred) == multiset(ordered)
  {
    hide InBucket, Fits;
    forall b
      ensures Fits(caps, InBucket(selected, b))
    {
      assert BucketPrefix(caps, InBucket(ordered, b), InBucket(selected, b), InBucket(deferred, b));
    }
  }

  lemma SameMembers(a: seq<Candidate>, b: seq<Candidate>)
    requires multiset(a) == multiset(b)
    ensures |a| == |b|
    ensures forall c :: c in a <==> c in b
    ensures forall id :: Holds(a, id) <==> Holds(b, id)
  {
    assert |multiset(a)| == |a| && |multiset(b)| == |b|;
    forall c
      ensures c in a <==> c in b
    {
      assert c in a <==> c in multiset(a);
      assert c in b <==> c in multiset(b);
    }
  }

  method Recall(indexed: map<GroupId, Candidate>, ordered: seq<Candidate>, previous: seq<GroupId>)
    returns (selected: seq<Candidate>, deferred: seq<Candidate>)
    requires Indexes(indexed, ordered) && forall id :: id in previous ==> id in indexed
    ensures Ids(selected) == previous && forall c :: c in selected ==> c in ordered
    ensures deferred == Without(ordered, Members(previous))
  {
    selected, deferred := [], [];
    for i := 0 to |previous|
      invariant Ids(selected) == previous[..i] && forall c :: c in selected ==> c in ordered
    {
      selected := selected + [indexed[previous[i]]];
    }
    var selectedGroups := Members(previous);
    for i := 0 to |ordered|
      invariant deferred == Without(ordered[..i], selectedGroups)
    {
      assert ordered[..i + 1][..i] == ordered[..i];
      if ordered[i].Id() !in selectedGroups {
        deferred := deferred + [ordered[i]];
      }
    }
    assert ordered[..|ordered|] == ordered;
  }

  /** What the previous batch recalls is this run's batch when it fits, and otherwise there is none. */
  lemma RecalledBatch(caps: Caps, candidates: seq<Candidate>, previous: seq<GroupId>, selected: seq<Candidate>)
    requires NoTwins(multiset(candidates)) && Distinct(previous) && Pinned(candidates, previous)
    requires Ids(selected) == previous && forall c :: c in selected ==> c in Ordered(candidates)
    ensures var deferred := Without(Ordered(candidates), Members(previous));
      if Affordable(caps, selected)
      then IsBatch(caps, candidates, previous, selected, deferred)
      else forall s, d :: !IsBatch(caps, candidates, previous, s, d)
  {
    hide OldestFirst, InOrder, Fits, InBucket, NoTwins, Without, Distinct, Pinned, Ordered;
    var ordered := Ordered(candidates);
    OrderedIsInOrder(candidates);
    SameMembers(ordered, candidates);
    if Affordable(caps, selected) {
      PinnedConserves(ordered, previous, selected);
      WithoutKeepsOrder(ordered, Members(previous));
    } else {
      forall s, d
        ensures !IsBatch(caps, candidates, previous, s, d)
      {
        if IsBatch(caps, candidates, previous, s, d) {
          PartsOf(candidates, s, d);
          RecallIsUnique(candidates, s, selected);
          assert false;
        }
      }
    }
  }

  lemma OldestBatch(caps: Caps, candidates: seq<Candidate>, previous: seq<GroupId>,
                    selected: seq<Candidate>, deferred: seq<Candidate>)
    requires !Pinned(candidates, previous) && OldestFirst(caps, Ordered(candidates), selected, deferred)
    requires InOrder(selected) && InOrder(deferred)
    ensures IsBatch(caps, candidates, previous, selected, deferred)
  {
    hide OldestFirst, InOrder, Fits, InBucket, Pinned, Ordered;
    OldestFirstFits(caps, Ordered(candidates), selected, deferred);
  }

  /** The batch exists and is the one of this run, or there is none and the run fails. */
  method SelectDeletionBatch(caps: Caps, candidates: seq<Candidate>, previous: seq<GroupId>)
    returns (r: Result<(seq<Candidate>, seq<Candidate>), Failed>)
    requires Distinct(previous)
    ensures r.Ok? ==> Plannable(caps, candidates) && IsBatch(caps, candidates, previous, r.value.0, r.value.1)
    ensures r.Err? && Plannable(caps, candidates) ==> Pinned(candidates, previous)
    ensures r.Err? && Plannable(caps, candidates) ==> forall s, d :: !IsBatch(caps, candidates, previous, s, d)
  {
    hide OldestFirst, InOrder, Fits, InBucket, NoTwins, Without, Distinct, IsBatch, Ordered, Named, Single;
    var ordered := Ordered(candidates);
    OrderedIsInOrder(candidates);
    SameMembers(ordered, candidates);
    for i := 0 to |ordered|
      invariant forall c :: c in ordered[..i] ==> Named(c) && Single(caps, c)
    {
      if !Single(caps, ordered[i]) || !Named(ordered[i]) {
        assert ordered[i] in candidates;
        return Err(Failed);
      }
    }
    assert ordered[..|ordered|] == ordered;
    var indexed := Index(ordered);
    if |indexed| != |ordered| {
      return Err(Failed);
    }
    assert Plannable(caps, candidates);
    if previous != [] && forall id :: id in previous ==> id in indexed {
      assert Pinned(candidates, previous);
      var selected, deferred := Recall(indexed, ordered, previous);
      RecalledBatch(caps, candidates, previous, selected);
      var fits := WithinCaps(caps, selected);
      return if fits then Ok((selected, deferred)) else Err(Failed);
    }
    assert !Pinned(candidates, previous);
    var selected, deferred := SelectOldest(caps, ordered);
    OldestBatch(caps, candidates, previous, selected, deferred);
    return Ok((selected, deferred));
  }

  // ---------------------------------------------------------------- what oldest means

  /** The order of texts: a proper beginning first, otherwise by the first character that differs. */
  lemma {:induction false} TextLeqExactly(a: string, b: string)
    ensures TextLeq(a, b) <==>
      a <= b || DiffersLower(a, b)
    decreases |a|
  {
    if a != "" && b != "" && a[0] == b[0] {
      TextLeqExactly(a[1..], b[1..]);
      SameFirstCharacter(a[0], a[1..], b[1..]);
      assert a == [a[0]] + a[1..] && b == [b[0]] + b[1..];
    } else if a != "" && b != "" {
      assert a[0] < b[0] ==> a[..0] == b[..0] && a[0] < b[0];
    }
  }

  /** Some first difference puts a before b. */
  predicate DiffersLower(a: string, b: string) {
    exists i :: 0 <= i < |a| && i < |b| && a[..i] == b[..i] && a[i] < b[i]
  }

  lemma SameFirstCharacter(c: char, x: string, y: string)
    ensures [c] + x <= [c] + y <==> x <= y
    ensures DiffersLower([c] + x, [c] + y) <==> DiffersLower(x, y)
  {
    var a, b := [c] + x, [c] + y;
    if i :| 0 <= i < |x| && i < |y| && x[..i] == y[..i] && x[i] < y[i] {
      assert a[..i + 1] == [c] + x[..i] && b[..i + 1] == [c] + y[..i] && a[i + 1] < b[i + 1];
    }
    if i :| 0 <= i < |a| && i < |b| && a[..i] == b[..i] && a[i] < b[i] {
      assert x[..i - 1] == a[..i][1..] && y[..i - 1] == b[..i][1..] && x[i - 1] < y[i - 1];
    }
    assert x == a[1..] && y == b[1..];
    assert x <= y ==> b == [c] + x + y[|x|..];
    assert a <= b ==> b[..|a|] == a && y == b[..|a|][1..] + b[|a|..];
  }

  lemma {:induction false} InBucketKeepsOrder(s: seq<Candidate>, bucket: string)
    requires InOrder(s)
    ensures InOrder(InBucket(s, bucket)) && forall c :: c in InBucket(s, bucket) <==> c in s && c.bucket == bucket
  {
    hide Precedes;
    if s != [] {
      var n := |s| - 1;
      InBucketKeepsOrder(s[..n], bucket);
      assert s == s[..n] + [s[n]];
      forall c | c in s[..n] ensures Precedes(c, s[n]) {
      }
    }
  }

  lemma {:induction false} InBucketMembers(s: seq<Candidate>, bucket: string)
    ensures forall c :: c in InBucket(s, bucket) <==> c in s && c.bucket == bucket
  {
    if s != [] {
      InBucketMembers(s[..|s| - 1], bucket);
      assert s == s[..|s| - 1] + [s[|s| - 1]];
    }
  }

  /** With no batch to repeat, nothing of a bucket is deleted before something older in it. */
  lemma OlderAreTakenFirst(caps: Caps, candidates: seq<Candidate>, previous: seq<GroupId>,
                           selected: seq<Candidate>, deferred: seq<Candidate>, c: Candidate, d: Candidate)
    requires IsBatch(caps, candidates, previous, selected, deferred) && !Pinned(candidates, previous)
    requires c in selected && d in deferred && c.bucket == d.bucket
    ensures c.modified < d.modified || (c.modified == d.modified && TextLeq(c.prefix, d.prefix))
  {
    hide Pinned, Fits, TextLeq, Ordered, Affordable;
    hide InBucket, InOrder;
    var b := c.bucket;
    assert BucketPrefix(caps, InBucket(Ordered(candidates), b), InBucket(selected, b), InBucket(deferred, b));
    OrderedIsInOrder(candidates);
    InBucketKeepsOrder(Ordered(candidates), b);
    InBucketMembers(selected, b);
    InBucketMembers(deferred, b);
    hide OldestFirst, IsBatch;
    TakenPrecedesLeft(InBucket(selected, b), InBucket(deferred, b), c, d);
  }

  lemma TakenPrecedesLeft(taken: seq<Candidate>, left: seq<Candidate>, c: Candidate, d: Candidate)
    requires InOrder(taken + left) && c in taken && d in left
    ensures Precedes(c, d)
  {
    hide Precedes;
    var i :| 0 <= i < |taken| && taken[i] == c;
    var j :| 0 <= j < |left| && left[j] == d;
    assert (taken + left)[i] == c && (taken + left)[|taken| + j] == d;
  }

  /** And the whole batch is listed by age. */
  lemma BatchIsByAge(caps: Caps, candidates: seq<Candidate>, previous: seq<GroupId>,
                     selected: seq<Candidate>, deferred: seq<Candidate>)
    requires IsBatch(caps, candidates, previous, selected, deferred) && !Pinned(candidates, previous)
    ensures forall i, j :: 0 <= i < j < |selected| ==> selected[i].modified <= selected[j].modified
    ensures forall i, j :: 0 <= i < j < |deferred| ==> deferred[i].modified <= deferred[j].modified
  {
    hide OldestFirst, Affordable, Pinned, TextLeq;
  }

  /** The two groups have the same bucket and prefix, and the same keys in some order. */
  predicate Twins(c: Candidate, d: Candidate) {
    c.bucket == d.bucket && c.prefix == d.prefix && multiset(c.keys) == multiset(d.keys)
  }

  /** What can be planned: named groups, each within the caps on its own, and no group twice. */
  lemma PlannableExactly(caps: Caps, candidates: seq<Candidate>)
    ensures Plannable(caps, candidates) <==>
      && (forall c :: c in candidates ==>
            && c.bucket != "" && |c.prefix| >= 3 && c.prefix[..3] == "v1/"
            && |c.keys| > 0 && (forall key :: key in c.keys ==> |key| >= 3 && key[..3] == "v1/")
            && |c.keys| <= caps.objects && c.bytes <= caps.bytes)
      && forall i, j :: 0 <= i < j < |candidates| ==> !Twins(candidates[i], candidates[j])
  {
    TwinsExactly(candidates);
    hide NoTwins, Twins;
  }

  lemma {:induction false} TwinsExactly(s: seq<Candidate>)
    ensures NoTwins(multiset(s)) <==> forall i, j :: 0 <= i < j < |s| ==> !Twins(s[i], s[j])
  {
    hide NoTwins;
    if s == [] {
      NothingHasTwins();
    } else {
      var n := |s| - 1;
      TwinsExactly(s[..n]);
      OneMore(s[..n], s[n]);
      assert s == s[..n] + [s[n]];
      assert Holds(s[..n], s[n].Id()) <==> exists i :: 0 <= i < n && Twins(s[i], s[n]) by {
        forall i | 0 <= i < n ensures s[i] in s[..n] && (Twins(s[i], s[n]) <==> s[i].Id() == s[n].Id()) {
          assert s[..n][i] == s[i];
        }
      }
    }
  }

  lemma NothingHasTwins()
    ensures NoTwins(multiset([]))
  {
  }
}
