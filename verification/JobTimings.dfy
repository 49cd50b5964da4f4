/**
The concurrency that observed job timings show: a sweep over start and end events, whose peak is the
largest number of hosted jobs that ran at one instant.
*/
module JobTimings {
  import opened Wrappers

  datatype Interval = Interval(start: int, end: int)

  /** A start, with change 1, or an end, with change -1. */
  datatype Event = Event(time: int, change: int)

  // ---------------------------------------------------------------- what is counted

  /** The jobs that run at instant t; a job that ends at t does not. */
  function ActiveAt(intervals: seq<Interval>, t: int): nat {
    if intervals == [] then 0 else
    var last := intervals[|intervals| - 1];
    ActiveAt(intervals[..|intervals| - 1], t) + if last.start <= t < last.end then 1 else 0
  }

  function Events(intervals: seq<Interval>): seq<Event> {
    if intervals == [] then [] else
    var last := intervals[|intervals| - 1];
    Events(intervals[..|intervals| - 1]) + [Event(last.start, 1), Event(last.end, -1)]
  }

  // ---------------------------------------------------------------- order

  predicate Before(a: Event, b: Event) {
    a.time < b.time || (a.time == b.time && a.change <= b.change)
  }

  predicate InOrder(s: seq<Event>) {
    forall i, j :: 0 <= i < j < |s| ==> Before(s[i], s[j])
  }

  function Insert(e: Event, s: seq<Event>): (r: seq<Event>)
    ensures forall x :: x in r ==> x == e || x in s
  {
    if s == [] then [e] else if Before(e, s[0]) then [e] + s else [s[0]] + Insert(e, s[1..])
  }

  function Sorted(s: seq<Event>): seq<Event> {
    if s == [] then [] else Insert(s[0], Sorted(s[1..]))
  }

  lemma {:induction false} InsertKeepsOrder(e: Event, s: seq<Event>)
    requires InOrder(s)
    ensures InOrder(Insert(e, s))
  {
    if s != [] && !Before(e, s[0]) {
      InsertKeepsOrder(e, s[1..]);
      forall x | x in Insert(e, s[1..])
        ensures Before(s[0], x)
      {
      }
    }
  }

  lemma {:induction false} SortedIsInOrder(s: seq<Event>)
    ensures InOrder(Sorted(s))
  {
    if s != [] {
      SortedIsInOrder(s[1..]);
      InsertKeepsOrder(s[0], Sorted(s[1..]));
    }
  }

  // ---------------------------------------------------------------- sums of changes

  function Sum(s: seq<Event>): int {
    if s == [] then 0 else Sum(s[..|s| - 1]) + s[|s| - 1].change
  }

  /** The changes up to and including instant t. */
  function SumTo(s: seq<Event>, t: int): int {
    if s == [] then 0 else SumTo(s[..|s| - 1], t) + if s[|s| - 1].time <= t then s[|s| - 1].change else 0
  }

  lemma {:induction false} SumToOfMore(a: seq<Event>, b: seq<Event>, t: int)
    ensures SumTo(a + b, t) == SumTo(a, t) + SumTo(b, t)
  {
    if b == [] {
      assert a + b == a;
    } else {
      var front := b[..|b| - 1];
      SumToOfMore(a, front, t);
      assert (a + b)[..|a + b| - 1] == a + front;
    }
  }

  lemma {:induction false} SumToOfInsert(e: Event, s: seq<Event>, t: int)
    ensures SumTo(Insert(e, s), t) == SumTo([e], t) + SumTo(s, t)
  {
    SumToOfMore([e], s, t);
    if s != [] && !Before(e, s[0]) {
      SumToOfInsert(e, s[1..], t);
      SumToOfMore([s[0]], Insert(e, s[1..]), t);
      SumToOfMore([s[0]], s[1..], t);
      assert [s[0]] + s[1..] == s;
    }
  }

  lemma {:induction false} SumToOfSorted(s: seq<Event>, t: int)
    ensures SumTo(Sorted(s), t) == SumTo(s, t)
  {
    if s != [] {
      SumToOfSorted(s[1..], t);
      SumToOfInsert(s[0], Sorted(s[1..]), t);
      SumToOfMore([s[0]], s[1..], t);
      assert [s[0]] + s[1..] == s;
    }
  }

  predicate Proper(intervals: seq<Interval>) {
    forall i :: 0 <= i < |intervals| ==> intervals[i].start < intervals[i].end
  }

  /** The jobs that run at t are those that have started by then, less those that have ended. */
  lemma {:induction false} SumToCountsActive(intervals: seq<Interval>, t: int)
    requires Proper(intervals)
    ensures SumTo(Events(intervals), t) == ActiveAt(intervals, t)
  {
    if intervals != [] {
      var n := |intervals| - 1;
      var last := intervals[n];
      var front := Events(intervals[..n]);
      SumToCountsActive(intervals[..n], t);
      SumToOfMore(front, [Event(last.start, 1), Event(last.end, -1)], t);
      SumToOfTwo(Event(last.start, 1), Event(last.end, -1), t);
    }
  }

  lemma SumToOfTwo(a: Event, b: Event, t: int)
    ensures SumTo([a, b], t) == (if a.time <= t then a.change else 0) + if b.time <= t then b.change else 0
  {
    assert [a, b][..1] == [a];
    assert [a][..0] == [];
    assert SumTo([a], t) == if a.time <= t then a.change else 0;
  }

  // ---------------------------------------------------------------- prefixes of the sweep

  /** What is summed up to an instant is a prefix of the sweep. */
  lemma {:induction false} InstantIsPrefix(s: seq<Event>, t: int) returns (k: nat)
    requires InOrder(s)
    ensures k <= |s| && SumTo(s, t) == Sum(s[..k])
  {
    if s == [] || s[|s| - 1].time <= t {
      k := |s|;
      assert s[..k] == s;
      if s != [] {
        AllAreDue(s, t);
      }
    } else {
      var n := |s| - 1;
      k := InstantIsPrefix(s[..n], t);
      assert s[..n][..k] == s[..k];
    }
  }

  lemma {:induction false} AllAreDue(s: seq<Event>, t: int)
    requires forall i :: 0 <= i < |s| ==> s[i].time <= t
    ensures SumTo(s, t) == Sum(s)
  {
    if s != [] {
      AllAreDue(s[..|s| - 1], t);
    }
  }

  lemma {:induction false} DueOnlyRise(s: seq<Event>, t: int)
    requires forall i :: 0 <= i < |s| && s[i].time <= t ==> s[i].change >= 0
    ensures SumTo(s, t) >= 0
  {
    if s != [] {
      DueOnlyRise(s[..|s| - 1], t);
    }
  }

  lemma {:induction false} OthersOnlyFall(s: seq<Event>, t: int)
    requires forall i :: 0 <= i < |s| && s[i].time > t ==> s[i].change <= 0
    ensures SumTo(s, t) >= Sum(s)
  {
    if s != [] {
      OthersOnlyFall(s[..|s| - 1], t);
    }
  }

  /** No prefix of the sweep counts more than some instant does, because ends come before starts. */
  lemma PrefixIsBounded(s: seq<Event>, k: nat) returns (t: int)
    requires InOrder(s) && 0 < k <= |s| && forall i :: 0 <= i < |s| ==> s[i].change == 1 || s[i].change == -1
    ensures Sum(s[..k]) <= SumTo(s, t)
  {
    var a, b := s[..k], s[k..];
    var e := s[k - 1];
    assert a + b == s;
    forall i | 0 <= i < |a|
      ensures a[i] == e || Before(a[i], e)
    {
    }
    forall i | 0 <= i < |b|
      ensures Before(e, b[i])
    {
    }
    t := if e.change == 1 then e.time else e.time - 1;
    SumToOfMore(a, b, t);
    DueOnlyRise(b, t);
    if e.change == 1 {
      AllAreDue(a, t);
    } else {
      OthersOnlyFall(a, t);
    }
  }

  // ---------------------------------------------------------------- the sweep

  ghost predicate IsPeak(intervals: seq<Interval>, peak: nat) {
    && (forall t :: ActiveAt(intervals, t) <= peak)
    && (peak > 0 ==> exists t :: ActiveAt(intervals, t) == peak)
  }

  lemma EventsAreUnit(intervals: seq<Interval>)
    ensures forall e :: e in Events(intervals) ==> e.change == 1 || e.change == -1
  {
  }

  lemma {:induction false} SortedHasSameEvents(s: seq<Event>)
    ensures forall e :: e in Sorted(s) ==> e in s
  {
    if s != [] {
      SortedHasSameEvents(s[1..]);
    }
  }

  lemma PeakOfSweep(intervals: seq<Interval>, peak: nat)
    requires Proper(intervals)
    requires var s := Sorted(Events(intervals));
      (forall k :: 0 <= k <= |s| ==> Sum(s[..k]) <= peak) && exists k :: 0 <= k <= |s| && Sum(s[..k]) == peak
    ensures IsPeak(intervals, peak)
  {
    var s := Sorted(Events(intervals));
    SortedIsInOrder(Events(intervals));
    EventsAreUnit(intervals);
    SortedHasSameEvents(Events(intervals));
    hide Sum, SumTo, Sorted, Events, ActiveAt, InOrder, Insert;
    forall t
      ensures ActiveAt(intervals, t) == SumTo(s, t) <= peak
    {
      SumToCountsActive(intervals, t);
      SumToOfSorted(Events(intervals), t);
      var k := InstantIsPrefix(s, t);
    }
    if peak > 0 {
      var k :| 0 <= k <= |s| && Sum(s[..k]) == peak;
      if k > 0 {
        var t := PrefixIsBounded(s, k);
        assert ActiveAt(intervals, t) == peak;
      } else {
        SumOfNothing(s);
        assert false;
      }
    }
  }

  lemma SumOfNothing(s: seq<Event>)
    ensures Sum(s[..0]) == 0
  {
  }

  method Sweep(intervals: seq<Interval>) returns (peak: nat)
    requires Proper(intervals)
    ensures IsPeak(intervals, peak)
  {
    hide Sum, Sorted, Events, IsPeak;
    var ordered := Sorted(Events(intervals));
    var active: int := 0;
    peak := 0;
    SumOfNothing(ordered);
    for i := 0 to |ordered|
      invariant active == Sum(ordered[..i])
      invariant forall k :: 0 <= k <= i ==> Sum(ordered[..k]) <= peak
      invariant exists k :: 0 <= k <= i && Sum(ordered[..k]) == peak
    {
      SumOfMore(ordered, i);
      active := active + ordered[i].change;
      if active > peak {
        peak := active;
      }
    }
    PeakOfSweep(intervals, peak);
  }

  lemma SumOfMore(s: seq<Event>, i: nat)
    requires i < |s|
    ensures Sum(s[..i + 1]) == Sum(s[..i]) + s[i].change
  {
    assert s[..i + 1][..i] == s[..i];
  }

  // ---------------------------------------------------------------- the evidence of one workflow run

  /** One job of the evidence; times in seconds, and the earliest start of its steps where one is known. */
  datatype Job = Job(id: int, runId: int, attempt: int, name: string, status: string, conclusion: string,
                     startedAt: Option<int>, completedAt: Option<int>, firstStep: Option<int>, labels: seq<string>)

  datatype Failure =
    | NoExactRun | InvalidAttempt | NoAttemptEvidence | DuplicateOrForeign
    | Incomplete | NegativeDuration | OverWatchdog | NoCompletedJobs | TooManyRunners

  const WATCHDOG_SECONDS := 330 * 60
  const STANDARD_RUNNER_LIMIT := 20

  datatype Judgement = Ignored | Broken(failure: Failure) | Timed(interval: Interval, hosted: bool)

  function Judge(job: Job): Judgement {
    if job.name == "verify_pair" && job.status == "in_progress" then Ignored
    else if job.conclusion == "skipped" then Ignored
    else if job.status in ["queued", "waiting", "pending", "requested", "in_progress"] then Ignored
    else if job.status != "completed" || job.startedAt.None? || job.completedAt.None? then Broken(Incomplete)
    else
      var end := job.completedAt.value;
      var late := job.startedAt.value > end && job.firstStep.Some?;
      var start := if late then job.firstStep.value else job.startedAt.value;
      var hosted := "self-hosted" !in job.labels;
      if end - start < 0 then Broken(NegativeDuration)
      else if hosted && end - start >= WATCHDOG_SECONDS then Broken(OverWatchdog)
      else Timed(Interval(start, end), hosted)
  }

  predicate Counted(job: Job) {
    var judgement := Judge(job);
    judgement.Timed? && judgement.hosted && judgement.interval.end > judgement.interval.start
  }

  /** The intervals of the hosted jobs that took any time. */
  function Hosted(jobs: seq<Job>): (r: seq<Interval>)
    ensures Proper(r)
  {
    if jobs == [] then [] else
    var last := jobs[|jobs| - 1];
    Hosted(jobs[..|jobs| - 1]) + if Counted(last) then [Judge(last).interval] else []
  }

  function Flattened(pages: seq<seq<Job>>): seq<Job> {
    if pages == [] then [] else pages[0] + Flattened(pages[1..])
  }

  function OfAttempt(jobs: seq<Job>, attempt: Option<int>): seq<Job> {
    if jobs == [] then [] else
    OfAttempt(jobs[..|jobs| - 1], attempt)
    + if attempt.None? || jobs[|jobs| - 1].attempt == attempt.value then [jobs[|jobs| - 1]] else []
  }

  ghost predicate Consistent(jobs: seq<Job>, runId: int) {
    && (forall i :: 0 <= i < |jobs| ==> jobs[i].runId == runId && !Judge(jobs[i]).Broken?)
    && forall i, j :: 0 <= i < j < |jobs| ==> jobs[i].id != jobs[j].id
  }

  /** Evidence of this run, and of this attempt where one is asked for, without a defect. */
  ghost predicate IsEvidence(pages: seq<seq<Job>>, runId: int, attempt: Option<int>) {
    && pages != [] && runId > 0 && (attempt.Some? ==> attempt.value > 0)
    && var jobs := OfAttempt(Flattened(pages), attempt);
      Consistent(jobs, runId) && SomeTimed(jobs)
  }

  lemma NotConsistent(jobs: seq<Job>, runId: int, i: nat)
    requires i < |jobs|
    requires jobs[i].runId != runId || Judge(jobs[i]).Broken? || exists j :: 0 <= j < i && jobs[j].id == jobs[i].id
    ensures !Consistent(jobs, runId)
  {
  }

  lemma StillConsistent(jobs: seq<Job>, runId: int, i: nat)
    requires i < |jobs| && Consistent(jobs[..i], runId) && jobs[i].runId == runId && !Judge(jobs[i]).Broken?
    requires forall k :: 0 <= k < i ==> jobs[k].id != jobs[i].id
    ensures Consistent(jobs[..i + 1], runId)
  {
    hide Judge;
    var before, after := jobs[..i], jobs[..i + 1];
    forall k | 0 <= k < |after|
      ensures after[k].runId == runId && !Judge(after[k]).Broken?
    {
      assert k < i ==> after[k] == before[k];
    }
    forall j, k | 0 <= j < k < |after|
      ensures after[j].id != after[k].id
    {
      assert after[j] == before[j];
      assert k < i ==> after[k] == before[k];
    }
  }

  ghost predicate SomeTimed(jobs: seq<Job>) {
    exists i :: 0 <= i < |jobs| && Judge(jobs[i]).Timed?
  }

  lemma OneMoreJob(jobs: seq<Job>, i: nat)
    requires i < |jobs|
    ensures Hosted(jobs[..i + 1]) == Hosted(jobs[..i]) + if Counted(jobs[i]) then [Judge(jobs[i]).interval] else []
    ensures SomeTimed(jobs[..i + 1]) <==> SomeTimed(jobs[..i]) || Judge(jobs[i]).Timed?
  {
    hide Judge;
    var before, after := jobs[..i], jobs[..i + 1];
    assert after[..i] == before && after[i] == jobs[i];
    assert forall k :: 0 <= k < i ==> after[k] == before[k];
    if SomeTimed(before) {
      var k :| 0 <= k < i && Judge(before[k]).Timed?;
      assert Judge(after[k]).Timed?;
    }
    if Judge(jobs[i]).Timed? {
      assert Judge(after[i]).Timed?;
    }
  }

  /** The intervals to sweep, or the first defect of the evidence. */
  method Collect(jobs: seq<Job>, runId: int) returns (r: Result<seq<Interval>, Failure>)
    ensures r.Ok? <==> Consistent(jobs, runId) && SomeTimed(jobs)
    ensures r.Ok? ==> r.value == Hosted(jobs)
  {
    hide Judge, Consistent, SomeTimed, Hosted;
    var ids: set<int> := {};
    var intervals: seq<Interval> := [];
    var durations := 0;
    NoJobs(runId);
    for i := 0 to |jobs|
      invariant forall id :: id in ids <==> exists k :: 0 <= k < i && jobs[k].id == id
      invariant Consistent(jobs[..i], runId)
      invariant intervals == Hosted(jobs[..i])
      invariant durations > 0 <==> SomeTimed(jobs[..i])
      invariant durations >= 0
    {
      var job := jobs[i];
      if job.runId != runId || job.id in ids {
        NotConsistent(jobs, runId, i);
        return Err(DuplicateOrForeign);
      }
      ids := ids + {job.id};
      var judgement := Judge(job);
      if judgement.Broken? {
        NotConsistent(jobs, runId, i);
        return Err(judgement.failure);
      }
      StillConsistent(jobs, runId, i);
      OneMoreJob(jobs, i);
      if judgement.Timed? {
        durations := durations + 1;
        if judgement.hosted && judgement.interval.end > judgement.interval.start {
          intervals := intervals + [judgement.interval];
        }
      }
    }
    assert jobs[..|jobs|] == jobs;
    if durations == 0 {
      return Err(NoCompletedJobs);
    }
    return Ok(intervals);
  }

  lemma NoJobs(runId: int)
    ensures Consistent([], runId) && !SomeTimed([]) && Hosted([]) == []
  {
  }

  method Verify(pages: seq<seq<Job>>, runId: int, attempt: Option<int>) returns (r: Result<nat, Failure>)
    ensures var hosted := Hosted(OfAttempt(Flattened(pages), attempt));
      && (r.Ok? <==> IsEvidence(pages, runId, attempt) && forall t :: ActiveAt(hosted, t) < STANDARD_RUNNER_LIMIT)
      && (r.Ok? ==> r.value >= 1 && forall t :: ActiveAt(hosted, t) <= r.value)
      && (r.Ok? && r.value > 1 ==> exists t :: ActiveAt(hosted, t) == r.value)
  {
    hide ActiveAt, Judge, Flattened, OfAttempt, Consistent, SomeTimed, Hosted, Proper;
    if pages == [] || runId <= 0 {
      return Err(NoExactRun);
    }
    if attempt.Some? && attempt.value <= 0 {
      return Err(InvalidAttempt);
    }
    var jobs := OfAttempt(Flattened(pages), attempt);
    if attempt.Some? && jobs == [] {
      NoJobs(runId);
      return Err(NoAttemptEvidence);
    }
    var intervals := Collect(jobs, runId);
    if intervals.Err? {
      return Err(intervals.error);
    }
    var peak := Sweep(intervals.value);
    peak := if peak < 1 then 1 else peak;
    if peak >= STANDARD_RUNNER_LIMIT {
      ghost var t :| ActiveAt(intervals.value, t) == peak;
      assert !(ActiveAt(intervals.value, t) < STANDARD_RUNNER_LIMIT);
      return Err(TooManyRunners);
    }
    return Ok(peak);
  }

  // ---------------------------------------------------------------- what a job contributes

  /** A job that was skipped, or that has not ended yet. */
  predicate Bystander(job: Job) {
    job.conclusion == "skipped" || job.status in {"queued", "waiting", "pending", "requested", "in_progress"}
  }

  /** When the job ran: from its reported start, or from its first step if that start lies after the end. */
  predicate Ran(job: Job, start: int, end: int) {
    && job.completedAt == Some(end) && job.startedAt.Some?
    && if job.startedAt.value <= end then start == job.startedAt.value
       else Some(start) == (if job.firstStep.Some? then job.firstStep else job.startedAt)
  }

  predicate OnHostedRunner(job: Job) {
    forall i :: 0 <= i < |job.labels| ==> job.labels[i] != "self-hosted"
  }

  /** A job counts with its own times if it completed in no negative time, a hosted one within 5.5 hours. */
  lemma JudgesExactly(job: Job, start: int, end: int)
    ensures Judge(job).Ignored? <==> Bystander(job)
    ensures Judge(job).Timed? && Judge(job).interval == Interval(start, end) <==>
      && !Bystander(job) && job.status == "completed" && Ran(job, start, end) && start <= end
      && (OnHostedRunner(job) ==> end - start < 19_800)
    ensures Judge(job).Timed? ==> Judge(job).hosted == OnHostedRunner(job)
  {
  }

  /** The job occupies a hosted runner at this instant. */
  ghost predicate Occupies(job: Job, t: int) {
    && !Bystander(job) && job.status == "completed" && OnHostedRunner(job)
    && exists start, end :: Ran(job, start, end) && start <= t < end && end - start < 19_800
  }

  ghost function Running(jobs: seq<Job>, t: int): nat {
    if jobs == [] then 0 else
    Running(jobs[..|jobs| - 1], t) + if Occupies(jobs[|jobs| - 1], t) then 1 else 0
  }

  /** What the sweep counts at an instant are the jobs that occupy a hosted runner then. */
  lemma {:induction false} SweepCountsRunning(jobs: seq<Job>, t: int)
    ensures ActiveAt(Hosted(jobs), t) == Running(jobs, t)
  {
    hide Judge, Occupies, Hosted, ActiveAt;
    if jobs == [] {
      NothingIsActive(t);
    } else {
      var n := |jobs| - 1;
      SweepCountsRunning(jobs[..n], t);
      CountedExactly(jobs[n], t);
      OneMoreJob(jobs, n);
      assert jobs[..n + 1] == jobs;
      if Counted(jobs[n]) {
        OneMoreActive(Hosted(jobs[..n]), Judge(jobs[n]).interval, t);
      } else {
        assert Hosted(jobs[..n]) + [] == Hosted(jobs[..n]);
      }
    }
  }

  lemma NothingIsActive(t: int)
    ensures ActiveAt(Hosted([]), t) == 0
  {
  }

  lemma OneMoreActive(intervals: seq<Interval>, next: Interval, t: int)
    ensures ActiveAt(intervals + [next], t) == ActiveAt(intervals, t) + if next.start <= t < next.end then 1 else 0
  {
    assert (intervals + [next])[..|intervals|] == intervals;
  }

  lemma CountedExactly(job: Job, t: int)
    ensures Occupies(job, t) <==>
      Counted(job) && Judge(job).interval.start <= t < Judge(job).interval.end
  {
    hide Judge, Bystander, OnHostedRunner;
    forall start, end
      ensures Judge(job).Timed? && Judge(job).interval == Interval(start, end) <==>
        && !Bystander(job) && job.status == "completed" && Ran(job, start, end) && start <= end
        && (OnHostedRunner(job) ==> end - start < 19_800)
    {
      JudgesExactly(job, start, end);
    }
    JudgesExactly(job, 0, 0);
    if Judge(job).Timed? {
      assert Judge(job).interval == Interval(Judge(job).interval.start, Judge(job).interval.end);
    }
  }

  // ---------------------------------------------------------------- which jobs are looked at

  /** The jobs of all pages one after another, and of those the jobs of the attempt, in their order. */
  lemma {:induction false} FlattenedJoins(a: seq<seq<Job>>, b: seq<seq<Job>>, page: seq<Job>)
    ensures Flattened(a + b) == Flattened(a) + Flattened(b)
    ensures Flattened([page]) == page && Flattened([]) == []
    decreases |a|
  {
    assert [page][1..] == [];
    if a == [] {
      assert a + b == b;
    } else {
      FlattenedJoins(a[1..], b, page);
      assert (a + b)[1..] == a[1..] + b;
    }
  }

  lemma {:induction false} OfAttemptJoins(a: seq<Job>, b: seq<Job>, job: Job, attempt: Option<int>)
    ensures OfAttempt(a + b, attempt) == OfAttempt(a, attempt) + OfAttempt(b, attempt)
    ensures OfAttempt([job], attempt) == if attempt in {None, Some(job.attempt)} then [job] else []
    ensures OfAttempt([], attempt) == []
    decreases |b|
  {
    assert [job][..0] == [];
    if b == [] {
      assert a + b == a;
    } else {
      var n := |b| - 1;
      OfAttemptJoins(a, b[..n], job, attempt);
      assert (a + b)[..|a + b| - 1] == a + b[..n];
    }
  }

  /** Evidence is refused exactly for one of its defects. */
  lemma DefectsExactly(pages: seq<seq<Job>>, runId: int, attempt: Option<int>)
    ensures var jobs := OfAttempt(Flattened(pages), attempt);
      !IsEvidence(pages, runId, attempt) <==>
        || |pages| == 0 || runId < 1 || (attempt.Some? && attempt.value < 1)
        || (exists i :: 0 <= i < |jobs| && jobs[i].runId != runId)
        || (exists i, j :: 0 <= i < |jobs| && 0 <= j < |jobs| && i != j && jobs[i].id == jobs[j].id)
        || (exists i :: 0 <= i < |jobs| && Judge(jobs[i]).Broken?)
        || (forall i :: 0 <= i < |jobs| ==> !Judge(jobs[i]).Timed?)
  {
    hide Judge, OfAttempt, Flattened;
  }
}
