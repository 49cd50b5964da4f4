/**
Greedy list scheduling: each job in turn goes to a least loaded machine. Loads are compared with any
other assignment of the same jobs to the same machines.
*/
module ListScheduling {

  function Total(sizes: seq<int>): int {
    if sizes == [] then 0 else Total(sizes[..|sizes| - 1]) + sizes[|sizes| - 1]
  }

  /** What the assignment puts on one machine. */
  function Load(sizes: seq<int>, assign: seq<nat>, machine: nat): int
    requires |sizes| == |assign|
  {
    if sizes == [] then 0 else
    var n := |sizes| - 1;
    Load(sizes[..n], assign[..n], machine) + if assign[n] == machine then sizes[n] else 0
  }

  predicate Uses(assign: seq<nat>, machines: nat) {
    forall i :: 0 <= i < |assign| ==> assign[i] < machines
  }

  predicate NonNegative(sizes: seq<int>) {
    forall i :: 0 <= i < |sizes| ==> sizes[i] >= 0
  }

  predicate LeastLoaded(sizes: seq<int>, assign: seq<nat>, machines: nat, machine: nat)
    requires |sizes| == |assign|
  {
    forall k :: 0 <= k < machines ==> Load(sizes, assign, machine) <= Load(sizes, assign, k)
  }

  /** Job i went to a machine that was least loaded by the jobs before it. */
  predicate GreedyAt(sizes: seq<int>, assign: seq<nat>, machines: nat, i: nat)
    requires |sizes| == |assign| && i < |sizes|
  {
    LeastLoaded(sizes[..i], assign[..i], machines, assign[i])
  }

  predicate Greedy(sizes: seq<int>, assign: seq<nat>, machines: nat) {
    && |sizes| == |assign| && Uses(assign, machines)
    && forall i :: 0 <= i < |sizes| ==> GreedyAt(sizes, assign, machines, i)
  }

  /** Ties go to the first machine. */
  predicate FirstFit(sizes: seq<int>, assign: seq<nat>) {
    && |sizes| == |assign|
    && forall i :: 0 <= i < |sizes| ==> FirstAt(sizes, assign, i)
  }

  predicate FirstAt(sizes: seq<int>, assign: seq<nat>, i: nat)
    requires |sizes| == |assign| && i < |sizes|
  {
    forall k :: 0 <= k < assign[i] ==>
      Load(sizes[..i], assign[..i], assign[i]) < Load(sizes[..i], assign[..i], k)
  }

  /** The greedy assignment is unique. */
  lemma {:induction false} FirstFitIsUnique(sizes: seq<int>, a: seq<nat>, b: seq<nat>, machines: nat, n: nat)
    requires Greedy(sizes, a, machines) && FirstFit(sizes, a)
    requires Greedy(sizes, b, machines) && FirstFit(sizes, b)
    requires n <= |sizes|
    ensures a[..n] == b[..n]
  {
    if n > 0 {
      var i := n - 1;
      FirstFitIsUnique(sizes, a, b, machines, i);
      assert GreedyAt(sizes, a, machines, i) && GreedyAt(sizes, b, machines, i);
      assert FirstAt(sizes, a, i) && FirstAt(sizes, b, i);
      assert a[..n] == a[..i] + [a[i]] && b[..n] == b[..i] + [b[i]];
    }
  }

  /** No machine carries more than limit. */
  predicate Within(sizes: seq<int>, assign: seq<nat>, machines: nat, limit: int)
    requires |sizes| == |assign|
  {
    forall k :: 0 <= k < machines ==> Load(sizes, assign, k) <= limit
  }

  // ---------------------------------------------------------------- sums over machines

  function LoadSum(sizes: seq<int>, assign: seq<nat>, machines: nat): int
    requires |sizes| == |assign|
  {
    if machines == 0 then 0 else LoadSum(sizes, assign, machines - 1) + Load(sizes, assign, machines - 1)
  }

  lemma {:induction false} LoadSumOfLast(sizes: seq<int>, assign: seq<nat>, machines: nat)
    requires |sizes| == |assign| && sizes != []
    ensures var n := |sizes| - 1;
      LoadSum(sizes, assign, machines)
        == LoadSum(sizes[..n], assign[..n], machines) + if assign[n] < machines then sizes[n] else 0
  {
    if machines == 0 {
    } else {
      LoadSumOfLast(sizes, assign, machines - 1);
    }
  }

  /** Every job is on exactly one machine, so the loads add up to the work. */
  lemma {:induction false} LoadsAddUp(sizes: seq<int>, assign: seq<nat>, machines: nat)
    requires |sizes| == |assign| && Uses(assign, machines)
    ensures LoadSum(sizes, assign, machines) == Total(sizes)
  {
    if sizes == [] {
      NoLoads(machines);
    } else {
      var n := |sizes| - 1;
      LoadsAddUp(sizes[..n], assign[..n], machines);
      LoadSumOfLast(sizes, assign, machines);
    }
  }

  lemma {:induction false} NoLoads(machines: nat)
    ensures LoadSum([], [], machines) == 0
  {
    if machines > 0 {
      NoLoads(machines - 1);
    }
  }

  lemma {:induction false} LoadSumAtLeast(sizes: seq<int>, assign: seq<nat>, machines: nat, low: int)
    requires |sizes| == |assign|
    requires forall k :: 0 <= k < machines ==> low <= Load(sizes, assign, k)
    ensures machines * low <= LoadSum(sizes, assign, machines)
  {
    if machines > 0 {
      LoadSumAtLeast(sizes, assign, machines - 1, low);
      OneMore(machines, low);
    }
  }

  lemma {:induction false} LoadSumAtMost(sizes: seq<int>, assign: seq<nat>, machines: nat, high: int)
    requires |sizes| == |assign|
    requires forall k :: 0 <= k < machines ==> Load(sizes, assign, k) <= high
    ensures LoadSum(sizes, assign, machines) <= machines * high
  {
    if machines > 0 {
      LoadSumAtMost(sizes, assign, machines - 1, high);
      OneMore(machines, high);
    }
  }

  lemma OneMore(n: int, x: int)
    ensures n * x == (n - 1) * x + x
  {
  }

  lemma {:induction false} LoadIsNonNegative(sizes: seq<int>, assign: seq<nat>, machine: nat)
    requires |sizes| == |assign| && NonNegative(sizes)
    ensures Load(sizes, assign, machine) >= 0
    ensures forall i :: 0 <= i < |sizes| && assign[i] == machine ==> Load(sizes, assign, machine) >= sizes[i]
  {
    if sizes != [] {
      LoadIsNonNegative(sizes[..|sizes| - 1], assign[..|sizes| - 1], machine);
    }
  }

  lemma {:induction false} TotalGrows(sizes: seq<int>, n: nat)
    requires NonNegative(sizes) && n <= |sizes|
    ensures 0 <= Total(sizes[..n]) <= Total(sizes)
    decreases |sizes|
  {
    if n < |sizes| {
      TotalGrows(sizes[..|sizes| - 1], n);
      assert sizes[..|sizes| - 1][..n] == sizes[..n];
    } else if n > 0 {
      TotalGrows(sizes[..n - 1], n - 1);
      assert sizes[..n] == sizes;
      assert sizes[..n - 1][..n - 1] == sizes[..n - 1];
    }
  }

  /** A prefix loads a machine no more than the whole. */
  lemma {:induction false} LoadGrows(sizes: seq<int>, assign: seq<nat>, n: nat, machine: nat)
    requires |sizes| == |assign| && NonNegative(sizes) && n <= |sizes|
    ensures Load(sizes[..n], assign[..n], machine) <= Load(sizes, assign, machine)
    decreases |sizes|
  {
    if n == |sizes| {
      assert sizes[..n] == sizes && assign[..n] == assign;
    } else {
      LoadGrows(sizes[..|sizes| - 1], assign[..|sizes| - 1], n, machine);
      assert sizes[..|sizes| - 1][..n] == sizes[..n] && assign[..|sizes| - 1][..n] == assign[..n];
    }
  }

  /** The job that brought a machine to its final load: nothing lands there after it. */
  lemma {:induction false} LastJob(sizes: seq<int>, assign: seq<nat>, machine: nat) returns (i: nat)
    requires |sizes| == |assign| && machine in assign
    ensures i < |sizes| && assign[i] == machine
    ensures Load(sizes, assign, machine) == Load(sizes[..i], assign[..i], machine) + sizes[i]
  {
    var n := |sizes| - 1;
    if assign[n] == machine {
      i := n;
    } else {
      assert machine in assign[..n];
      i := LastJob(sizes[..n], assign[..n], machine);
      assert sizes[..n][..i] == sizes[..i] && assign[..n][..i] == assign[..i];
    }
  }

  lemma {:induction false} UnusedIsEmpty(sizes: seq<int>, assign: seq<nat>, machine: nat)
    requires |sizes| == |assign| && machine !in assign
    ensures Load(sizes, assign, machine) == 0
  {
    if sizes != [] {
      UnusedIsEmpty(sizes[..|sizes| - 1], assign[..|sizes| - 1], machine);
    }
  }

  // ---------------------------------------------------------------- any list order

  /** The machine's last job was placed on top of at most an average load. */
  lemma LastJobBound(sizes: seq<int>, assign: seq<nat>, machines: nat, i: nat)
    requires Greedy(sizes, assign, machines) && NonNegative(sizes) && i < |sizes|
    ensures machines * Load(sizes[..i], assign[..i], assign[i]) <= Total(sizes) - sizes[i]
  {
    var before := Load(sizes[..i], assign[..i], assign[i]);
    assert GreedyAt(sizes, assign, machines, i);
    LoadSumAtLeast(sizes[..i], assign[..i], machines, before);
    LoadsAddUp(sizes[..i], assign[..i], machines);
    TotalGrows(sizes, i + 1);
    assert sizes[..i + 1][..i] == sizes[..i];
  }

  /** Graham's bound: machines * load <= total + (machines - 1) * largest job. */
  lemma GreedyBound(sizes: seq<int>, assign: seq<nat>, machines: nat, largest: int, machine: nat)
    requires Greedy(sizes, assign, machines) && NonNegative(sizes) && machine < machines
    requires largest >= 0 && forall i :: 0 <= i < |sizes| ==> sizes[i] <= largest
    ensures machines * Load(sizes, assign, machine) <= Total(sizes) + (machines - 1) * largest
  {
    hide GreedyAt, NonNegative, Load, Total;
    TotalGrows(sizes, 0);
    MulMonotone(machines - 1, 0, largest);
    if machine in assign {
      var i := LastJob(sizes, assign, machine);
      LastJobBound(sizes, assign, machines, i);
      OntoAverage(machines, Load(sizes[..i], assign[..i], machine), sizes[i], Total(sizes), largest);
    } else {
      UnusedIsEmpty(sizes, assign, machine);
    }
  }

  lemma OntoAverage(machines: nat, before: int, size: int, total: int, largest: int)
    requires machines > 0 && machines * before <= total - size && size <= largest
    ensures machines * (before + size) <= total + (machines - 1) * largest
  {
    assert machines * (before + size) == machines * before + machines * size;
    OneMore(machines, size);
    MulMonotone(machines - 1, size, largest);
  }

  lemma MulMonotone(n: nat, x: int, y: int)
    requires x <= y
    ensures n * x <= n * y
  {
  }

  /** No assignment beats the average load or the largest job. */
  lemma AnyAssignmentIsAtLeast(sizes: seq<int>, other: seq<nat>, machines: nat, limit: int)
    requires |sizes| == |other| && Uses(other, machines) && NonNegative(sizes) && Within(sizes, other, machines, limit)
    ensures Total(sizes) <= machines * limit
    ensures forall i :: 0 <= i < |sizes| ==> sizes[i] <= limit
    ensures machines > 0 ==> limit >= 0
  {
    LoadsAddUp(sizes, other, machines);
    LoadSumAtMost(sizes, other, machines, limit);
    if machines > 0 {
      LoadIsNonNegative(sizes, other, 0);
    }
    forall i | 0 <= i < |sizes| ensures sizes[i] <= limit {
      LoadIsNonNegative(sizes, other, other[i]);
    }
  }

  /** In any list order the greedy makespan is at most (2 - 1/machines) times any other one. */
  lemma GreedyIsTwoApproximate(sizes: seq<int>, assign: seq<nat>, machines: nat,
                               other: seq<nat>, limit: int, machine: nat)
    requires Greedy(sizes, assign, machines) && NonNegative(sizes) && machine < machines
    requires |other| == |sizes| && Uses(other, machines) && Within(sizes, other, machines, limit)
    ensures machines * Load(sizes, assign, machine) <= (2 * machines - 1) * limit
  {
    hide GreedyAt, NonNegative, Load, Total, Within;
    AnyAssignmentIsAtLeast(sizes, other, machines, limit);
    GreedyBound(sizes, assign, machines, limit, machine);
    TwiceLessOne(machines, limit);
  }

  lemma TwiceLessOne(n: int, x: int)
    ensures n * x + (n - 1) * x == (2 * n - 1) * x
  {
  }

  // ---------------------------------------------------------------- largest first

  predicate Descending(sizes: seq<int>) {
    forall i, j :: 0 <= i <= j < |sizes| ==> sizes[i] >= sizes[j]
  }

  /** A job too big to share a machine with a job of size small counts twice. */
  function Weight(size: int, small: int, limit: int): int {
    if size > limit - small then 2 else 1
  }

  function Weights(sizes: seq<int>, small: int, limit: int): (w: seq<int>)
    ensures |w| == |sizes|
    ensures forall i :: 0 <= i < |w| ==> w[i] == Weight(sizes[i], small, limit)
  {
    seq(|sizes|, i requires 0 <= i < |sizes| => Weight(sizes[i], small, limit))
  }

  /**
  On one machine, when every job is at least small and three small jobs exceed the limit, the weight
  tells the load: weight below 2 leaves room for another small job, weight above 2 is over the limit.
  */
  lemma {:induction false} WeightTellsLoad(sizes: seq<int>, assign: seq<nat>, machine: nat, small: int, limit: int)
    requires |sizes| == |assign| && 0 <= small <= limit < 3 * small
    requires forall i :: 0 <= i < |sizes| ==> sizes[i] >= small
    ensures var w, load := Load(Weights(sizes, small, limit), assign, machine), Load(sizes, assign, machine);
      && w >= 0 && load >= 0
      && (w == 0 ==> load == 0) && (w == 1 ==> small <= load <= limit - small)
      && (w == 2 ==> load > limit - small) && (w >= 3 ==> load > limit)
  {
    if sizes != [] {
      var n := |sizes| - 1;
      WeightTellsLoad(sizes[..n], assign[..n], machine, small, limit);
      assert Weights(sizes, small, limit)[..n] == Weights(sizes[..n], small, limit);
    }
  }

  /** A job above a third of the limit never pushes a largest-first machine past the limit. */
  lemma BigJobFits(sizes: seq<int>, assign: seq<nat>, machines: nat, other: seq<nat>, limit: int, i: nat)
    requires Greedy(sizes, assign, machines) && NonNegative(sizes) && Descending(sizes) && i < |sizes|
    requires |other| == |sizes| && Uses(other, machines) && Within(sizes, other, machines, limit)
    requires 3 * sizes[i] > limit
    ensures Load(sizes[..i], assign[..i], assign[i]) + sizes[i] <= limit
  {
    var small := sizes[i];
    AnyAssignmentIsAtLeast(sizes, other, machines, limit);
    var w := Weights(sizes[..i + 1], small, limit);
    var first := other[..i + 1];
    forall k | 0 <= k < machines ensures Load(w, first, k) <= 2 {
      LoadGrows(sizes, other, i + 1, k);
      WeightTellsLoad(sizes[..i + 1], first, k, small, limit);
    }
    LoadSumAtMost(w, first, machines, 2);
    LoadsAddUp(w, first, machines);
    assert w[..i] == Weights(sizes[..i], small, limit) && Total(w) == Total(w[..i]) + w[i];
    if Load(sizes[..i], assign[..i], assign[i]) + small > limit {
      assert GreedyAt(sizes, assign, machines, i);
      forall k | 0 <= k < machines ensures 2 <= Load(w[..i], assign[..i], k) {
        WeightTellsLoad(sizes[..i], assign[..i], k, small, limit);
      }
      LoadSumAtLeast(w[..i], assign[..i], machines, 2);
      LoadsAddUp(w[..i], assign[..i], machines);
      assert false;
    }
  }

  /** Largest first, the greedy makespan is at most (4/3 - 1/(3 machines)) times any other one. */
  lemma LargestFirstIsFourThirdsApproximate(sizes: seq<int>, assign: seq<nat>, machines: nat,
                                            other: seq<nat>, limit: int, machine: nat)
    requires Greedy(sizes, assign, machines) && NonNegative(sizes) && Descending(sizes) && machine < machines
    requires |other| == |sizes| && Uses(other, machines) && Within(sizes, other, machines, limit)
    ensures 3 * machines * Load(sizes, assign, machine) <= (4 * machines - 1) * limit
  {
    hide GreedyAt, NonNegative, Load, Total, Within, Descending;
    AnyAssignmentIsAtLeast(sizes, other, machines, limit);
    if machine in assign {
      var i := LastJob(sizes, assign, machine);
      var before := Load(sizes[..i], assign[..i], machine);
      if 3 * sizes[i] > limit {
        BigJobFits(sizes, assign, machines, other, limit, i);
        OverLimitFree(machines, Load(sizes, assign, machine), limit);
      } else {
        LastJobBound(sizes, assign, machines, i);
        SmallLastJob(machines, before, sizes[i], Total(sizes), limit);
      }
    } else {
      UnusedIsEmpty(sizes, assign, machine);
      OverLimitFree(machines, 0, limit);
    }
  }

  lemma OverLimitFree(machines: nat, load: int, limit: int)
    requires machines > 0 && load <= limit && limit >= 0
    ensures 3 * machines * load <= (4 * machines - 1) * limit
  {
    MulMonotone(3 * machines, load, limit);
    assert (4 * machines - 1) * limit == 3 * machines * limit + (machines - 1) * limit;
  }

  lemma SmallLastJob(machines: nat, before: int, size: int, total: int, limit: int)
    requires machines > 0 && 3 * size <= limit && machines * before <= total - size && total <= machines * limit
    ensures 3 * machines * (before + size) <= (4 * machines - 1) * limit
  {
    OntoAverage(machines, before, size, total, size);
    MulMonotone(machines - 1, 3 * size, limit);
    assert 3 * ((machines - 1) * size) == (machines - 1) * (3 * size);
    assert 3 * machines * (before + size) == 3 * (machines * (before + size));
    assert (4 * machines - 1) * limit == 3 * (machines * limit) + (machines - 1) * limit;
  }
}
