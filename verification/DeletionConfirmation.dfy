/**
Two matching observations before anything is deleted: the state machine that runs once a day, and
what its decision to delete means over a whole history of runs.
*/
module DeletionConfirmation {
  import opened Wrappers
  import opened DeletionBatch

  /** Twenty hours, in seconds. */
  const MINIMUM_INTERVAL := 72000

  type Positive = n: int | 1 <= n witness 1

  type Pair = (string, string)

  datatype State = State(pairs: multiset<Pair>, groups: seq<GroupId>, observations: Positive, first: int, last: int)

  function KeyPairs(bucket: string, keys: seq<string>): multiset<Pair> {
    if keys == [] then multiset{} else KeyPairs(bucket, keys[1..]) + multiset{(bucket, keys[0])}
  }

  /** The content that the candidate digest identifies. */
  function Pairs(batch: seq<Candidate>): multiset<Pair> {
    if batch == [] then multiset{} else Pairs(batch[1..]) + KeyPairs(batch[0].bucket, batch[0].keys)
  }

  /** The decision of one run, and the state it leaves for the next. */
  function Confirm(previous: Option<State>, batch: seq<Candidate>, now: int): (bool, State) {
    var pairs := Pairs(batch);
    var groups := Ids(batch);
    if previous.Some? && previous.value.pairs == pairs then
      var before := previous.value;
      if now - before.last >= MINIMUM_INTERVAL then
        (Objects(batch) > 0, State(pairs, groups, before.observations + 1, before.first, now))
      else
        (false, State(pairs, groups, before.observations, before.first, before.last))
    else
      (false, State(pairs, groups, 1, now, now))
  }

  // ---------------------------------------------------------------- histories

  /** One run that planned a batch; a run that fails leaves the stored state alone. */
  datatype Run = Run(now: int, eligible: seq<Candidate>, batch: seq<Candidate>, deferred: seq<Candidate>)

  function After(history: seq<Run>): Option<State> {
    if history == [] then None else
    var run := history[|history| - 1];
    Some(Confirm(After(history[..|history| - 1]), run.batch, run.now).1)
  }

  predicate Ready(history: seq<Run>, i: nat)
    requires i < |history|
  {
    Confirm(After(history[..i]), history[i].batch, history[i].now).0
  }

  predicate SameSet(history: seq<Run>, from: nat, to: nat)
    requires to < |history|
  {
    forall k :: from <= k <= to ==> Pairs(history[k].batch) == Pairs(history[to].batch)
  }

  predicate ClockAdvances(history: seq<Run>) {
    forall i, j :: 0 <= i <= j < |history| ==> history[i].now <= history[j].now
  }

  /** The runs that a state has counted: its first and last observation and its number of observations. */
  ghost predicate Counts(history: seq<Run>, s: State, counted: seq<nat>) {
    && |counted| == s.observations
    && (forall i :: 0 <= i < |counted| ==> counted[i] < |history|)
    && history[counted[0]].now == s.first && history[counted[|counted| - 1]].now == s.last
    && (forall i, j :: 0 <= i < j < |counted| && j == i + 1 ==>
          counted[i] < counted[j] && history[counted[j]].now - history[counted[i]].now >= MINIMUM_INTERVAL)
    && forall k :: counted[0] <= k < |history| ==> Pairs(history[k].batch) == s.pairs
  }

  lemma Earlier(history: seq<Run>, i: nat)
    requires i < |history|
    ensures history[..i + 1][..i] == history[..i]
    ensures After(history[..i + 1]) == Some(Confirm(After(history[..i]), history[i].batch, history[i].now).1)
  {
    assert history[..i + 1][..i] == history[..i];
  }

  lemma CountedStay(history: seq<Run>, s: State, counted: seq<nat>, run: Run)
    requires Counts(history, s, counted) && Pairs(run.batch) == s.pairs
    ensures Counts(history + [run], s, counted)
    ensures run.now - s.last >= MINIMUM_INTERVAL ==>
      Counts(history + [run], s.(observations := s.observations + 1, last := run.now), counted + [|history|])
  {
    hide Pairs;
  }

  lemma CountsIgnoresGroups(history: seq<Run>, s: State, counted: seq<nat>, groups: seq<GroupId>)
    requires Counts(history, s, counted)
    ensures Counts(history, s.(groups := groups), counted)
  {
    hide Pairs;
  }

  lemma CountedAnew(history: seq<Run>, run: Run, groups: seq<GroupId>)
    ensures Counts(history + [run], State(Pairs(run.batch), groups, 1, run.now, run.now), [|history|])
  {
    hide Pairs;
  }

  /** Every counted observation is a run of its own, twenty hours after the one counted before it. */
  lemma {:induction false} ObservationsAreRuns(history: seq<Run>) returns (counted: seq<nat>)
    requires history != []
    ensures Counts(history, After(history).value, counted)
  {
    hide Pairs, Ids, Objects, Counts;
    var n := |history| - 1;
    var run := history[n];
    assert history == history[..n] + [run];
    if n == 0 || After(history[..n]).value.pairs != Pairs(run.batch) {
      counted := [n];
      CountedAnew(history[..n], run, Ids(run.batch));
    } else {
      var before := After(history[..n]).value;
      var earlier := ObservationsAreRuns(history[..n]);
      CountsIgnoresGroups(history[..n], before, earlier, Ids(run.batch));
      CountedStay(history[..n], before.(groups := Ids(run.batch)), earlier, run);
      counted := if run.now - before.last >= MINIMUM_INTERVAL then earlier + [n] else earlier;
    }
  }

  /** The counted observations span at least twenty hours each. */
  lemma {:induction false} SpanGrows(history: seq<Run>)
    requires history != []
    ensures var s := After(history).value; s.last - s.first >= (s.observations - 1) * MINIMUM_INTERVAL
  {
    hide Pairs, Ids, Objects;
    var n := |history| - 1;
    if n > 0 {
      SpanGrows(history[..n]);
    }
  }

  lemma {:induction false} EmptyBatchHasNoPairs(batch: seq<Candidate>)
    ensures |Pairs(batch)| == Objects(batch)
  {
    if batch != [] {
      var n := |batch| - 1;
      EmptyBatchHasNoPairs(batch[..n]);
      PairsOfLast(batch);
      KeyPairsCount(batch[n].bucket, batch[n].keys);
    }
  }

  lemma {:induction false} KeyPairsCount(bucket: string, keys: seq<string>)
    ensures |KeyPairs(bucket, keys)| == |keys|
  {
    if keys != [] {
      KeyPairsCount(bucket, keys[1..]);
    }
  }

  lemma {:induction false} PairsOfLast(batch: seq<Candidate>)
    requires batch != []
    ensures var n := |batch| - 1; Pairs(batch) == Pairs(batch[..n]) + KeyPairs(batch[n].bucket, batch[n].keys)
  {
    hide KeyPairs, Pairs;
    var n := |batch| - 1;
    PairsOfFirst(batch);
    if n == 0 {
      assert batch[1..] == [] == batch[..n];
    } else {
      var rest, front := batch[1..], batch[..n];
      assert rest[..n - 1] == front[1..] && rest[n - 1] == batch[n] && front[0] == batch[0];
      PairsOfFirst(front);
      PairsOfLast(rest);
    }
  }

  lemma PairsOfFirst(batch: seq<Candidate>)
    requires batch != []
    ensures Pairs(batch) == KeyPairs(batch[0].bucket, batch[0].keys) + Pairs(batch[1..])
    ensures Pairs([]) == multiset{}
  {
  }

  lemma {:induction false} CountedAscend(counted: seq<nat>)
    requires counted != []
    requires forall i, j :: 0 <= i < j < |counted| && j == i + 1 ==> counted[i] < counted[j]
    ensures counted[0] <= counted[|counted| - 1]
  {
    if |counted| > 1 {
      CountedAscend(counted[..|counted| - 1]);
    }
  }

  lemma LastIsARun(history: seq<Run>, s: State, counted: seq<nat>)
    requires Counts(history, s, counted)
    ensures counted != []
    ensures var j := counted[|counted| - 1]; j < |history| && history[j].now == s.last
    ensures forall k :: counted[|counted| - 1] <= k < |history| ==> Pairs(history[k].batch) == s.pairs
  {
    hide Pairs;
    CountedAscend(counted);
  }

  /** A run deletes only what an earlier run recorded at least twenty hours before, unchanged since. */
  lemma ReadyWasObserved(history: seq<Run>, i: nat)
    requires i < |history| && Ready(history, i)
    ensures Pairs(history[i].batch) != multiset{}
    ensures exists j :: 0 <= j < i && history[j].now + MINIMUM_INTERVAL <= history[i].now && SameSet(history, j, i)
  {
    hide Pairs, Objects, Counts, After, Ids;
    EmptyBatchHasNoPairs(history[i].batch);
    var before := history[..i];
    assert before != [] by { NothingBefore(); }
    var counted := ObservationsAreRuns(before);
    LastIsARun(before, After(before).value, counted);
    var j := counted[|counted| - 1];
    StateFollows(before);
    forall k | j <= k < i
      ensures Pairs(history[k].batch) == Pairs(history[i].batch)
    {
      assert history[k] == before[k];
    }
    assert SameSet(history, j, i);
  }

  lemma NothingBefore()
    ensures After([]) == None
  {
  }

  lemma StateFollows(history: seq<Run>)
    requires history != []
    ensures After(history).Some?
  {
  }

  /** The last counted observation of a state is not later than its last run. */
  lemma LastIsPast(history: seq<Run>, i: nat)
    requires i < |history| && ClockAdvances(history)
    ensures After(history[..i + 1]).value.last <= history[i].now
  {
    hide Pairs, Objects, Counts, After;
    var counted := ObservationsAreRuns(history[..i + 1]);
    StateFollows(history[..i + 1]);
    LastIsARun(history[..i + 1], After(history[..i + 1]).value, counted);
    var j := counted[|counted| - 1];
    assert history[..i + 1][j] == history[j];
  }

  /** Until a run is ready, runs that see one set leave its last observation where it was. */
  lemma {:induction false} LastStays(history: seq<Run>, j: nat, i: nat)
    requires j <= i < |history| && SameSet(history, j, i)
    requires forall k :: j <= k <= i ==> Objects(history[k].batch) > 0
    requires forall k :: j < k <= i ==> !Ready(history, k)
    ensures var s := After(history[..i + 1]).value;
      s.last == After(history[..j + 1]).value.last && s.pairs == Pairs(history[i].batch)
    decreases i
  {
    hide Pairs, Objects, After, Ids;
    Earlier(history, i);
    StateFollows(history[..i + 1]);
    StateFollows(history[..j + 1]);
    if j < i {
      StateFollows(history[..i]);
      var p := i - 1;
      assert Pairs(history[p].batch) == Pairs(history[i].batch);
      assert SameSet(history, j, p);
      LastStays(history, j, p);
      assert !Ready(history, i);
    }
  }

  /** One set seen for twenty hours on end is ready at some run after the first that saw it. */
  lemma SteadySetBecomesReady(history: seq<Run>, j: nat, i: nat)
    requires j < i < |history| && ClockAdvances(history)
    requires SameSet(history, j, i) && Pairs(history[i].batch) != multiset{}
    requires history[j].now + MINIMUM_INTERVAL <= history[i].now
    ensures exists k :: j < k <= i && Ready(history, k)
  {
    hide Pairs, Objects, After, Ids;
    forall k | j <= k <= i
      ensures Objects(history[k].batch) > 0
    {
      EmptyBatchHasNoPairs(history[k].batch);
      assert |Pairs(history[k].batch)| > 0;
    }
    var p := i - 1;
    if forall k :: j < k <= p ==> !Ready(history, k) {
      assert Pairs(history[p].batch) == Pairs(history[i].batch);
      assert SameSet(history, j, p);
      LastStays(history, j, p);
      LastIsPast(history, j);
      StateFollows(history[..i]);
      assert Ready(history, i);
    }
  }

  // ---------------------------------------------------------------- the pinned batch across runs

  function RecordedGroups(state: Option<State>): seq<GroupId> {
    if state.None? then [] else state.value.groups
  }

  /** Every run planned its batch from what was eligible and from the groups the run before recorded. */
  ghost predicate Planned(caps: Caps, history: seq<Run>) {
    forall i :: 0 <= i < |history| ==> PlannedRun(caps, history, i)
  }

  ghost predicate PlannedRun(caps: Caps, history: seq<Run>, i: nat)
    requires i < |history|
  {
    && Plannable(caps, history[i].eligible)
    && IsBatch(caps, history[i].eligible, RecordedGroups(After(history[..i])), history[i].batch, history[i].deferred)
  }

  /** Every group of the batch is still eligible, with the same keys and the same size. */
  ghost predicate StillEligible(batch: seq<Candidate>, eligible: seq<Candidate>) {
    forall c :: c in batch ==> Again(c, eligible)
  }

  predicate SameGroup(c: Candidate, d: Candidate) {
    c.Id() == d.Id() && c.bytes == d.bytes
  }

  predicate Again(c: Candidate, eligible: seq<Candidate>) {
    exists d :: d in eligible && SameGroup(c, d)
  }

  lemma RecordedIsBatch(history: seq<Run>, i: nat)
    requires i < |history|
    ensures RecordedGroups(After(history[..i + 1])) == Ids(history[i].batch)
  {
    Earlier(history, i);
  }

  lemma {:induction false} SameKeysSamePairs(bucket: string, a: seq<string>, b: seq<string>)
    requires multiset(a) == multiset(b)
    ensures KeyPairs(bucket, a) == KeyPairs(bucket, b)
  {
    KeyPairsAre(bucket, a);
    KeyPairsAre(bucket, b);
    forall p
      ensures KeyPairs(bucket, a)[p] == KeyPairs(bucket, b)[p]
    {
      assert multiset(a)[p.1] == multiset(b)[p.1];
    }
  }

  lemma {:induction false} KeyPairsAre(bucket: string, keys: seq<string>)
    ensures forall p :: KeyPairs(bucket, keys)[p] == if p.0 == bucket then multiset(keys)[p.1] else 0
  {
    if keys != [] {
      KeyPairsAre(bucket, keys[1..]);
      assert keys == [keys[0]] + keys[1..];
      assert multiset(keys) == multiset{keys[0]} + multiset(keys[1..]);
    }
  }

  lemma {:induction false} SameGroupsSamePairs(a: seq<Candidate>, b: seq<Candidate>)
    requires Ids(a) == Ids(b)
    ensures Pairs(a) == Pairs(b)
  {
    assert |a| == |Ids(a)| == |Ids(b)| == |b|;
    if a != [] {
      assert a[0].Id() == Ids(a)[0] == Ids(b)[0] == b[0].Id();
      SameKeysSamePairs(a[0].bucket, a[0].keys, b[0].keys);
      assert Ids(a[1..]) == Ids(a)[1..] == Ids(b)[1..] == Ids(b[1..]);
      SameGroupsSamePairs(a[1..], b[1..]);
    }
  }

  lemma EligibleGroupsArePinned(batch: seq<Candidate>, eligible: seq<Candidate>)
    requires batch != [] && StillEligible(batch, eligible)
    ensures Pinned(eligible, Ids(batch))
  {
    var ids := Ids(batch);
    forall id | id in ids
      ensures Holds(eligible, id)
    {
      var i :| 0 <= i < |ids| && ids[i] == id;
      assert batch[i].Id() == id && Again(batch[i], eligible);
    }
    assert |ids| == |batch|;
  }

  /** Newly eligible groups do not change the batch while its own groups stay eligible. */
  lemma {:induction false} PinnedBatchStays(caps: Caps, history: seq<Run>, j: nat, i: nat)
    requires Planned(caps, history) && j <= i < |history| && history[j].batch != []
    requires forall k :: j < k <= i ==> StillEligible(history[j].batch, history[k].eligible)
    ensures Ids(history[i].batch) == Ids(history[j].batch)
    ensures Pairs(history[i].batch) == Pairs(history[j].batch)
    decreases i
  {
    hide Pairs, Ids, Plannable, IsBatch, StillEligible, Pinned;
    if j < i {
      PinnedBatchStays(caps, history, j, i - 1);
      RecordedIsBatch(history, i - 1);
      EligibleGroupsArePinned(history[j].batch, history[i].eligible);
      assert PlannedRun(caps, history, i);
      PinnedBatchIsRecorded(caps, history[i], Ids(history[j].batch));
      SameGroupsSamePairs(history[i].batch, history[j].batch);
    }
  }

  lemma PinnedBatchIsRecorded(caps: Caps, run: Run, previous: seq<GroupId>)
    requires IsBatch(caps, run.eligible, previous, run.batch, run.deferred) && Pinned(run.eligible, previous)
    ensures Ids(run.batch) == previous
  {
    hide Pinned, InOrder, Ids, OldestFirst, Affordable;
  }

  /** A batch whose groups stay eligible for twenty hours gets its second observation in that time. */
  lemma PinnedBatchBecomesReady(caps: Caps, history: seq<Run>, j: nat, i: nat)
    requires Planned(caps, history) && ClockAdvances(history)
    requires j < i < |history| && history[j].batch != []
    requires forall k :: j < k <= i ==> StillEligible(history[j].batch, history[k].eligible)
    requires history[j].now + MINIMUM_INTERVAL <= history[i].now
    ensures exists k :: j < k <= i && Ready(history, k) && Ids(history[k].batch) == Ids(history[j].batch)
  {
    hide Ids, PlannedRun, StillEligible, Ready, Pairs;
    forall k | j <= k <= i
      ensures Pairs(history[k].batch) == Pairs(history[j].batch) && Ids(history[k].batch) == Ids(history[j].batch)
    {
      PinnedBatchStays(caps, history, j, k);
    }
    BatchHasPairs(caps, history, j);
    SteadySetBecomesReady(history, j, i);
  }

  lemma BatchHasPairs(caps: Caps, history: seq<Run>, j: nat)
    requires Planned(caps, history) && j < |history| && history[j].batch != []
    ensures Pairs(history[j].batch) != multiset{}
  {
    assert PlannedRun(caps, history, j);
    var run := history[j];
    hide InOrder, Ids, OldestFirst, Affordable, Pinned, NoTwins;
    PartsOf(run.eligible, run.batch, run.deferred);
    assert run.batch[0] in run.eligible;
    KeyPairsCount(run.batch[0].bucket, run.batch[0].keys);
    assert Named(run.batch[0]);
  }

  // ---------------------------------------------------------------- the pinned run does not fail

  lemma {:induction false} SameTotals(a: seq<Candidate>, b: seq<Candidate>, bucket: string)
    requires |a| == |b| && forall i :: 0 <= i < |a| ==> SameGroup(a[i], b[i])
    ensures Objects(InBucket(a, bucket)) == Objects(InBucket(b, bucket))
    ensures Bytes(InBucket(a, bucket)) == Bytes(InBucket(b, bucket))
  {
    hide InBucket, Objects, Bytes, SameGroup;
    if a == [] {
      assert b == [];
    } else {
      var n := |a| - 1;
      var c, d := a[n], b[n];
      SameTotals(a[..n], b[..n], bucket);
      LastGroup(a);
      LastGroup(b);
      SameGroupSameSize(c, d);
      TotalsExtend(a[..n], c, bucket);
      TotalsExtend(b[..n], d, bucket);
    }
  }

  lemma LastGroup(s: seq<Candidate>)
    requires s != []
    ensures s == s[..|s| - 1] + [s[|s| - 1]]
  {
  }

  lemma SameGroupSameSize(c: Candidate, d: Candidate)
    requires SameGroup(c, d)
    ensures c.bucket == d.bucket && c.bytes == d.bytes && |c.keys| == |d.keys|
  {
    assert |c.keys| == |multiset(c.keys)| == |multiset(d.keys)| == |d.keys|;
  }

  lemma TotalsExtend(s: seq<Candidate>, c: Candidate, bucket: string)
    ensures Objects(InBucket(s + [c], bucket))
         == Objects(InBucket(s, bucket)) + if c.bucket == bucket then |c.keys| else 0
    ensures Bytes(InBucket(s + [c], bucket)) == Bytes(InBucket(s, bucket)) + if c.bucket == bucket then c.bytes else 0
  {
    hide InBucket, Objects, Bytes;
    Extends(s, c);
  }

  lemma {:induction false} FindAgain(batch: seq<Candidate>, eligible: seq<Candidate>) returns (again: seq<Candidate>)
    requires StillEligible(batch, eligible)
    ensures |again| == |batch| && forall c :: c in again ==> c in eligible
    ensures forall i :: 0 <= i < |batch| ==> SameGroup(batch[i], again[i])
  {
    if batch == [] {
      again := [];
    } else {
      var front := FindAgain(batch[1..], eligible);
      assert Again(batch[0], eligible);
      var d :| d in eligible && SameGroup(batch[0], d);
      again := [d] + front;
    }
  }

  /** A run whose recorded batch is still eligible plans again, whatever else became eligible within the caps. */
  lemma PinnedRunPlans(caps: Caps, batch: seq<Candidate>, eligible: seq<Candidate>)
    requires batch != [] && Affordable(caps, batch) && Distinct(Ids(batch))
    requires Plannable(caps, eligible) && StillEligible(batch, eligible)
    ensures exists s, d :: IsBatch(caps, eligible, Ids(batch), s, d)
  {
    EligibleGroupsArePinned(batch, eligible);
    var again := FindAgain(batch, eligible);
    assert Ids(again) == Ids(batch);
    SameMembers(Ordered(eligible), eligible);
    hide InBucket, Objects, Bytes, NoTwins, Pinned, InOrder, Distinct, Ids, Ordered, StillEligible;
    forall b
      ensures Fits(caps, InBucket(again, b))
    {
      SameTotals(batch, again, b);
      assert Fits(caps, InBucket(batch, b));
    }
    hide IsBatch, Fits;
    RecalledBatch(caps, eligible, Ids(batch), again);
  }

  const SMALL_GROUP := Candidate("cache", "v1/small", ["v1/small/object"], 0, 0)

  function LargeGroup(caps: Caps): Candidate {
    Candidate("cache", "v1/large", seq(caps.objects + 1, _ => "v1/large/object"), 0, 0)
  }

  /** A run whose recorded batch is still eligible and would be planned again, failed by one oversize group. */
  lemma OversizeGroupFailsPinnedRun(caps: Caps)
    requires caps.objects > 0
    ensures var batch, eligible := [SMALL_GROUP], [SMALL_GROUP, LargeGroup(caps)];
      && StillEligible(batch, eligible) && Pinned(eligible, Ids(batch)) && !Plannable(caps, eligible)
      && Distinct(Ids(batch)) && exists s, d :: IsBatch(caps, batch, Ids(batch), s, d)
  {
    hide IsBatch, Affordable, Pinned, Ids, Distinct;
    var batch, eligible := [SMALL_GROUP], [SMALL_GROUP, LargeGroup(caps)];
    assert SMALL_GROUP in eligible && Again(SMALL_GROUP, eligible) && Again(SMALL_GROUP, batch);
    EligibleGroupsArePinned(batch, eligible);
    assert LargeGroup(caps) in eligible && !Single(caps, LargeGroup(caps));
    SmallBatchFits(caps);
    PinnedRunPlans(caps, batch, batch);
  }

  lemma SmallBatchFits(caps: Caps)
    requires caps.objects > 0
    ensures Affordable(caps, [SMALL_GROUP]) && Plannable(caps, [SMALL_GROUP]) && Distinct(Ids([SMALL_GROUP]))
  {
    hide InBucket, Fits;
    forall b
      ensures Fits(caps, InBucket([SMALL_GROUP], b))
    {
      SmallGroupFits(caps, b);
    }
  }

  lemma SmallGroupFits(caps: Caps, b: string)
    requires caps.objects > 0
    ensures Fits(caps, InBucket([SMALL_GROUP], b))
  {
    assert InBucket([], b) == [] && Objects([]) == 0 && Bytes([]) == 0;
    hide InBucket, Objects, Bytes;
    assert [] + [SMALL_GROUP] == [SMALL_GROUP];
    TotalsExtend([], SMALL_GROUP, b);
  }

  /** What a run records never names a group twice, so the next run can read it back. */
  lemma RecordedGroupsAreDistinct(caps: Caps, run: Run, previous: seq<GroupId>)
    requires Plannable(caps, run.eligible) && IsBatch(caps, run.eligible, previous, run.batch, run.deferred)
    ensures Distinct(Ids(run.batch))
  {
    hide InOrder, OldestFirst, Affordable, Pinned, Named, Single;
    var s := run.batch;
    PartsOf(run.eligible, run.batch, run.deferred);
    forall i, j | 0 <= i < j < |s|
      ensures Ids(s)[i] != Ids(s)[j]
    {
      if s[i].Id() == s[j].Id() {
        assert s[i] in s && s[j] in s;
        assert s[i] in multiset(run.eligible) && s[j] in multiset(run.eligible);
        Twice(s, i, j);
        assert false;
      }
    }
  }

  lemma Twice(s: seq<Candidate>, i: nat, j: nat)
    requires i < j < |s|
    ensures s[i] == s[j] ==> multiset(s)[s[i]] >= 2
  {
    assert s == s[..j] + [s[j]] + s[j + 1..];
    assert s[i] in s[..j];
    assert multiset(s) == multiset(s[..j]) + multiset{s[j]} + multiset(s[j + 1..]);
  }
}
