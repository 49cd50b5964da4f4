/** The resumable Development cycle: one stored document, merged forward by concurrent commits. */
module DevelopmentCycle {
  import opened Wrappers
  import opened Hex
  import opened CommitLoop
  import opened Manifest
  import opened ObjectStore

  const CYCLE_SCHEMA := "freesense.development-cycle/v1"
  const PLAN_SCHEMA := "freesense.multiarch-plan/v1"

  datatype Status = Status(system: string, packages: string, artifacts: string, published: bool)

  /** The planning document; rest stands for every field this code does not look at. */
  datatype Plan = Plan(
    schema: string, pairFingerprint: string, pin: string,
    targets: map<string, string>, resolved: map<string, string>, rest: string)

  datatype Cycle = Cycle(
    schema: string, generation: nat, pin: string, pairFingerprint: string,
    sources: map<string, string>, plan: Plan, architectures: map<string, Status>, superseded: bool)

  predicate IsRevision(s: string) {
    |s| == 40 && IsHex(s)
  }

  predicate ValidStage(s: string) {
    s == "" || s == "pending" || s == "complete"
  }

  predicate ValidStatus(s: Status) {
    && ValidStage(s.system) && ValidStage(s.packages) && ValidStage(s.artifacts)
    && (s.published ==> s.system == "complete" && s.packages == "complete")
  }

  predicate ValidIdentity(c: Cycle) {
    && c.schema == CYCLE_SCHEMA && c.generation != 0
    && IsFingerprint(c.pin) && IsFingerprint(c.pairFingerprint)
    && c.sources != map[]
    && c.plan.schema == PLAN_SCHEMA && c.plan.pairFingerprint == c.pairFingerprint && c.plan.pin == c.pin
    && |c.plan.targets| == 2 && c.plan.resolved == c.sources
    && "amd64" in c.plan.targets && c.plan.targets["amd64"] != ""
    && "arm64" in c.plan.targets && c.plan.targets["arm64"] != ""
    && forall name :: name in c.sources ==> name != "" && IsRevision(c.sources[name])
  }

  predicate Valid(c: Cycle) {
    && ValidIdentity(c)
    && |c.architectures| == 2
    && "amd64" in c.architectures && ValidStatus(c.architectures["amd64"])
    && "arm64" in c.architectures && ValidStatus(c.architectures["arm64"])
  }

  /** The status of both architectures, each stage blank, pending or complete, and only complete pairs published. */
  predicate TracksBoth(c: Cycle) {
    && c.architectures.Keys == {"amd64", "arm64"}
    && forall name :: name in c.architectures ==>
         var status := c.architectures[name];
         && {status.system, status.packages, status.artifacts} <= {"", "pending", "complete"}
         && (!status.published || {status.system, status.packages} == {"complete"})
  }

  /** The plan is of the cycle's own pair, pin and sources, with a target for both architectures. */
  predicate PlansItself(c: Cycle) {
    && (c.plan.schema, c.plan.pairFingerprint, c.plan.pin) == ("freesense.multiarch-plan/v1", c.pairFingerprint, c.pin)
    && c.plan.resolved == c.sources
    && c.plan.targets.Keys == {"amd64", "arm64"} && c.plan.targets["amd64"] != "" && c.plan.targets["arm64"] != ""
  }

  /** What validation asks of a cycle: an identity, frozen sources, its own plan, and both statuses. */
  lemma ValidExactly(c: Cycle)
    ensures Valid(c) <==>
      && c.schema == "freesense.development-cycle/v1" && c.generation > 0
      && IsFingerprint(c.pin) && IsFingerprint(c.pairFingerprint)
      && c.sources.Keys != {} && "" !in c.sources.Keys
      && (forall name :: name in c.sources ==> |c.sources[name]| == 40 && IsHex(c.sources[name]))
      && PlansItself(c) && TracksBoth(c)
  {
    hide IsFingerprint, IsHex;
    TwoKeysExactly(c.plan.targets);
    TwoKeysExactly(c.architectures);
    assert c.sources != map[] <==> c.sources.Keys != {};
    if Valid(c) {
      forall name | name in c.architectures
        ensures var status := c.architectures[name];
          && {status.system, status.packages, status.artifacts} <= {"", "pending", "complete"}
          && (!status.published || {status.system, status.packages} == {"complete"})
      {
        StatusExactly(c.architectures[name]);
      }
    }
    if TracksBoth(c) {
      StatusExactly(c.architectures["amd64"]);
      StatusExactly(c.architectures["arm64"]);
    }
  }

  lemma TwoKeysExactly<T>(m: map<string, T>)
    ensures m.Keys == {"amd64", "arm64"} <==> |m| == 2 && "amd64" in m && "arm64" in m
  {
    assert |{"amd64", "arm64"}| == 2 && |m| == |m.Keys|;
    if |m| == 2 && "amd64" in m && "arm64" in m {
      var rest := m.Keys - {"amd64", "arm64"};
      assert m.Keys == {"amd64", "arm64"} + rest;
      assert |m.Keys| == |{"amd64", "arm64"}| + |rest|;
    }
  }

  lemma StatusExactly(status: Status)
    ensures ValidStatus(status) <==>
      && {status.system, status.packages, status.artifacts} <= {"", "pending", "complete"}
      && (!status.published || {status.system, status.packages} == {"complete"})
  {
    assert {status.system, status.packages} == {"complete"} <==>
      status.system == "complete" && status.packages == "complete" by {
      assert status.system in {status.system, status.packages} && status.packages in {status.system, status.packages};
    }
  }

  // ---------------------------------------------------------------- one decision

  predicate Regressed(before: string, after: string) {
    before == "complete" && after != "complete"
  }

  function MergedStage(before: string, after: string): string {
    if Regressed(before, after) then before else after
  }

  function MergedStatus(before: Status, after: Status): Status {
    Status(MergedStage(before.system, after.system), MergedStage(before.packages, after.packages),
           MergedStage(before.artifacts, after.artifacts), before.published || after.published)
  }

  function Merged(stored: Cycle, next: Cycle): Cycle
    requires Valid(stored) && Valid(next)
  {
    next.(architectures := next.architectures
            ["amd64" := MergedStatus(stored.architectures["amd64"], next.architectures["amd64"])]
            ["arm64" := MergedStatus(stored.architectures["arm64"], next.architectures["arm64"])])
  }

  predicate Complete(c: Cycle)
    requires Valid(c)
  {
    c.architectures["amd64"].published && c.architectures["arm64"].published
  }

  /** The frozen inputs of a cycle, with the generation reserved for them. */
  datatype Inputs = Inputs(generation: nat, pin: string, pairFingerprint: string, sources: map<string, string>,
                           plan: Plan)

  function InputsOf(c: Cycle): Inputs {
    Inputs(c.generation, c.pin, c.pairFingerprint, c.sources, c.plan)
  }

  /** The next cycle for an unchanged pair: a completed cycle under the same identity, planned anew. */
  predicate ReplansComplete(stored: Cycle, next: Cycle)
    requires Valid(stored)
  {
    && next.generation == stored.generation && !stored.superseded && Complete(stored)
    && next.pin == stored.pin && next.pairFingerprint == stored.pairFingerprint
    && (next.sources != stored.sources || next.plan != stored.plan)
  }

  /** The commit resumes the stored cycle instead of replacing it. */
  predicate Resumes(stored: Cycle, next: Cycle)
    requires Valid(stored)
  {
    next.generation == stored.generation && !stored.superseded && !ReplansComplete(stored, next)
  }

  type Decision = Verdict<Cycle>

  function Decide(current: Option<Cycle>, next: Cycle): Decision
    requires Valid(next)
  {
    if current.None? then Write(next) else
    var stored := current.value;
    if !Valid(stored) || next.generation < stored.generation then Refuse
    else if Resumes(stored, next) then
      if InputsOf(next) != InputsOf(stored) then Refuse
      else if Merged(stored, next) == stored then Keep
      else Write(Merged(stored, next))
    else if !stored.superseded && !Complete(stored) then Refuse
    else Write(next)
  }

  /** What the loop carries into its next attempt: progress it merged stays merged. */
  function Carried(current: Option<Cycle>, next: Cycle): Cycle
    requires Valid(next)
  {
    if current.Some? && Valid(current.value) && Resumes(current.value, next)
       && InputsOf(next) == InputsOf(current.value)
    then Merged(current.value, next) else next
  }

  // ---------------------------------------------------------------- progress

  datatype Stage = SystemComplete | PackagesComplete | ArtifactsComplete | Published

  predicate Has(c: Cycle, architecture: string, stage: Stage) {
    && architecture in c.architectures
    && var status := c.architectures[architecture];
    match stage
    case SystemComplete => status.system == "complete"
    case PackagesComplete => status.packages == "complete"
    case ArtifactsComplete => status.artifacts == "complete"
    case Published => status.published
  }

  lemma MergedHas(stored: Cycle, next: Cycle, architecture: string, stage: Stage)
    requires Valid(stored) && Valid(next)
    ensures Has(Merged(stored, next), architecture, stage) <==>
      Has(stored, architecture, stage) || Has(next, architecture, stage)
  {
    hide ValidIdentity;
    TwoKeysExactly(stored.architectures);
    TwoKeysExactly(next.architectures);
  }

  lemma MergedIsValid(stored: Cycle, next: Cycle)
    requires Valid(stored) && Valid(next)
    ensures InputsOf(Merged(stored, next)) == InputsOf(next) && Valid(Merged(stored, next))
  {
    hide ValidIdentity;
    TwoKeysExactly(next.architectures);
    IdentityIgnoresProgress(next, Merged(stored, next).architectures);
    assert Merged(stored, next).architectures.Keys == next.architectures.Keys;
  }

  /** Merging keeps both sides' progress, adds none of its own, and stays valid. */
  lemma MergeIsUnion(stored: Cycle, next: Cycle)
    requires Valid(stored) && Valid(next)
    ensures InputsOf(Merged(stored, next)) == InputsOf(next) && Valid(Merged(stored, next))
    ensures forall architecture, stage ::
      Has(Merged(stored, next), architecture, stage) <==>
        Has(stored, architecture, stage) || Has(next, architecture, stage)
  {
    MergedIsValid(stored, next);
    hide Valid, Has, Merged;
    forall architecture, stage
      ensures Has(Merged(stored, next), architecture, stage) <==>
        Has(stored, architecture, stage) || Has(next, architecture, stage)
    {
      MergedHas(stored, next, architecture, stage);
    }
  }

  /** Devices have the pair of both architectures. */
  predicate Published(c: Cycle) {
    && "amd64" in c.architectures && c.architectures["amd64"].published
    && "arm64" in c.architectures && c.architectures["arm64"].published
  }

  /**
  What may follow a stored cycle: a cycle of a newer generation once it is published or superseded; at
  its own generation anything once it is superseded, a new plan of its pair once it is published, and
  otherwise progress on the very same inputs. Nothing older ever follows.
  */
  lemma FollowsExactly(stored: Cycle, next: Cycle)
    requires Valid(stored) && Valid(next)
    ensures !Decide(Some(stored), next).Refuse? <==>
      || (next.generation > stored.generation && (stored.superseded || Published(stored)))
      || (next.generation == stored.generation
          && (stored.superseded
              || (next.pin == stored.pin && next.pairFingerprint == stored.pairFingerprint
                  && ((next.sources == stored.sources && next.plan == stored.plan) || Published(stored)))))
  {
    hide ValidIdentity, ValidStatus, Merged;
  }

  /** What is stored then: the new cycle as it is, or on the same inputs both sides' progress. */
  lemma StoredExactly(stored: Cycle, next: Cycle)
    requires Valid(stored) && Valid(next) && !Decide(Some(stored), next).Refuse?
    ensures var resumed := next.generation == stored.generation && !stored.superseded
              && next.sources == stored.sources && next.plan == stored.plan;
      Decide(Some(stored), next) ==
        if !resumed then Write(next)
        else if WithProgress(stored, next) == stored then Keep else Write(WithProgress(stored, next))
  {
    MergedIsProgress(stored, next);
    hide ValidIdentity, ValidStatus, Merged, WithProgress;
  }

  /** Only progress on the very same inputs of a cycle that nobody gave up is carried into the next attempt. */
  lemma CarriedExactly(stored: Cycle, next: Cycle)
    requires Valid(stored) && Valid(next)
    ensures Carried(Some(stored), next) ==
      if !stored.superseded && InputsOf(next) == InputsOf(stored) then WithProgress(stored, next) else next
    ensures Carried(None, next) == next
  {
    MergedIsProgress(stored, next);
    hide ValidIdentity, ValidStatus, Merged, WithProgress;
  }

  lemma MergedIsProgress(stored: Cycle, next: Cycle)
    requires Valid(stored) && Valid(next)
    ensures Merged(stored, next) == WithProgress(stored, next)
  {
    hide ValidIdentity, ValidStatus, MergedStatus, BothProgress;
    TwoKeysExactly(next.architectures);
    StatusesMerge(stored.architectures["amd64"], next.architectures["amd64"]);
    StatusesMerge(stored.architectures["arm64"], next.architectures["arm64"]);
    BothReplaced(next.architectures, BothProgress(stored.architectures["amd64"], next.architectures["amd64"]),
                 BothProgress(stored.architectures["arm64"], next.architectures["arm64"]));
  }

  lemma StatusesMerge(before: Status, after: Status)
    ensures MergedStatus(before, after) == BothProgress(before, after)
  {
  }

  lemma BothReplaced(m: map<string, Status>, a: Status, b: Status)
    requires m.Keys == {"amd64", "arm64"}
    ensures m["amd64" := a]["arm64" := b] == map["amd64" := a, "arm64" := b]
  {
  }

  function WithProgress(stored: Cycle, next: Cycle): Cycle
    requires Valid(stored) && Valid(next)
  {
    next.(architectures := map[
      "amd64" := BothProgress(stored.architectures["amd64"], next.architectures["amd64"]),
      "arm64" := BothProgress(stored.architectures["arm64"], next.architectures["arm64"])])
  }

  /** A stage that either side completed is complete; any other is where the new cycle has it. */
  function BothStages(before: string, after: string): string {
    if "complete" in [before, after] then "complete" else after
  }

  function BothProgress(before: Status, after: Status): Status {
    Status(BothStages(before.system, after.system), BothStages(before.packages, after.packages),
           BothStages(before.artifacts, after.artifacts), before.published || after.published)
  }

  lemma IdentityIgnoresProgress(c: Cycle, architectures: map<string, Status>)
    ensures ValidIdentity(c) <==> ValidIdentity(c.(architectures := architectures))
  {
  }

  // ---------------------------------------------------------------- the loop

  /** Every complete or published flag was in the first call or in a stored cycle with the same inputs. */
  ghost predicate Witnessed(first: Option<Cycle>, log: seq<Change<Cycle>>, request: Cycle, c: Cycle) {
    && InputsOf(c) == InputsOf(request)
    && forall architecture, stage :: Has(c, architecture, stage) ==>
      || Has(request, architecture, stage)
      || (first.Some? && InputsOf(first.value) == InputsOf(c) && Has(first.value, architecture, stage))
      || exists i :: 0 <= i < |log| && InputsOf(log[i].after) == InputsOf(c) && Has(log[i].after, architecture, stage)
  }

  lemma RequestIsWitnessed(first: Option<Cycle>, log: seq<Change<Cycle>>, request: Cycle)
    ensures Witnessed(first, log, request, request)
  {
    hide Has;
  }

  lemma LastIsRecorded(first: Option<Cycle>, log: seq<Change<Cycle>>, value: Option<Cycle>)
    requires Chained(first, log, value) && value.Some?
    ensures first == value || exists i :: 0 <= i < |log| && log[i].after == value.value
  {
    if log != [] {
      assert log[|log| - 1].after == value.value;
    }
  }

  lemma MergeIsWitnessed(first: Option<Cycle>, log: seq<Change<Cycle>>, value: Option<Cycle>, request: Cycle,
                         next: Cycle)
    requires Chained(first, log, value) && Valid(next) && Witnessed(first, log, request, next)
    ensures Valid(Carried(value, next)) && Witnessed(first, log, request, Carried(value, next))
  {
    hide Valid, Merged, Has, Resumes;
    if Carried(value, next) != next {
      MergeIsUnion(value.value, next);
      LastIsRecorded(first, log, value);
    }
  }

  lemma WitnessesRemain(first: Option<Cycle>, log: seq<Change<Cycle>>, longer: seq<Change<Cycle>>, request: Cycle,
                        next: Cycle)
    requires log <= longer && Witnessed(first, log, request, next)
    ensures Witnessed(first, longer, request, next)
  {
    hide Has;
    forall architecture, stage | Has(next, architecture, stage) && !Has(request, architecture, stage)
      && !(first.Some? && InputsOf(first.value) == InputsOf(next) && Has(first.value, architecture, stage))
      ensures exists i :: 0 <= i < |longer| && InputsOf(longer[i].after) == InputsOf(next)
                          && Has(longer[i].after, architecture, stage)
    {
      var i :| 0 <= i < |log| && InputsOf(log[i].after) == InputsOf(next) && Has(log[i].after, architecture, stage);
      assert longer[i] == log[i];
    }
  }

  /** The decision of a carried cycle on what was read, and what the caller carries on. */
  function CycleDecision(): Decider<Cycle, Cycle> {
    (next: Cycle, current: Option<Cycle>) =>
      if Valid(next) then (Carried(current, next), Decide(current, next)) else (next, Refuse)
  }

  function CommitCycle(request: Cycle, value: Option<Cycle>, script: seq<Turn<Cycle>>): Trace<Cycle, Cycle> {
    Loop(CycleDecision(), request, value, script, 5)
  }

  /** The caller's own progress plus progress read from cycles with the very same inputs. */
  ghost predicate Grounded(first: Option<Cycle>, log: seq<Change<Cycle>>, request: Cycle, next: Cycle) {
    Valid(next) && Witnessed(first, log, request, next)
  }

  ghost predicate GroundedWrite(first: Option<Cycle>, log: seq<Change<Cycle>>, request: Cycle, change: Change<Cycle>) {
    exists next :: Grounded(first, log, request, next) && Decide(change.before, next) == Write(change.after)
  }

  /** Every own write of a commit is its decision, about the cycle it replaced, of grounded progress only. */
  ghost predicate GroundedRun(first: Option<Cycle>, log: seq<Change<Cycle>>, request: Cycle,
                              run: Trace<Cycle, Cycle>, settles: bool) {
    && (forall i :: 0 <= i < |run.changes| && run.changes[i].own ==> GroundedWrite(first, log, request, run.changes[i]))
    && (run.ending.Unchanged? ==> exists next :: Grounded(first, log, request, next) && Decide(run.value, next).Keep?)
    && (run.ending.Committed? ==> run.value.Some?)
    && (run.ending.Committed? ==>
          exists next, seen :: Grounded(first, log, request, next) && Decide(seen, next) == Write(run.value.value))
    && (run.ending.Failure? && settles ==>
          exists next :: Grounded(first, log, request, next) && Decide(run.value, next).Refuse?)
  }

  lemma GroundedLonger(first: Option<Cycle>, log: seq<Change<Cycle>>, longer: seq<Change<Cycle>>, request: Cycle,
                       change: Change<Cycle>)
    requires log <= longer && GroundedWrite(first, log, request, change)
    ensures GroundedWrite(first, longer, request, change)
  {
    hide Decide, Valid, Witnessed;
    var next :| Grounded(first, log, request, next) && Decide(change.before, next) == Write(change.after);
    WitnessesRemain(first, log, longer, request, next);
    assert Grounded(first, longer, request, next);
  }

  /** The changes that one attempt sees or makes. */
  lemma AttemptIsGrounded(first: Option<Cycle>, prior: seq<Change<Cycle>>, request: Cycle, next: Cycle,
                          value: Option<Cycle>, script: seq<Turn<Cycle>>, document: Cycle)
    requires Grounded(first, prior, request, next) && Chained(first, prior, value)
    requires Decide(Looked(value, script).value, next) == Write(document)
    ensures var read := Looked(value, script);
      var put := Written(read, document);
      var log := prior + read.changes + put.changes;
      && Grounded(first, log, request, next) && Grounded(first, log, request, Carried(read.value, next))
      && Chained(first, log, put.value)
      && forall i :: 0 <= i < |read.changes + put.changes| && (read.changes + put.changes)[i].own ==>
           GroundedWrite(first, log, request, (read.changes + put.changes)[i])
  {
    hide Decide, Valid, Witnessed, Carried, Looked, Written;
    var read := Looked(value, script);
    var put := Written(read, document);
    var seen, log := prior + read.changes, prior + read.changes + put.changes;
    ReadIsGrounded(first, prior, request, next, value, script);
    WrittenChains(read, document);
    ChainsJoin(first, seen, read.value, put.changes, put.value);
    WitnessesRemain(first, seen, log, request, next);
    WitnessesRemain(first, seen, log, request, Carried(read.value, next));
    var ok := (c: Cycle) => c == next;
    LookDecidesNothing(CycleDecision(), ok, value, script);
    WrittenIsDecided(CycleDecision(), ok, next, read, document);
    DecidedJoins(CycleDecision(), ok, read.changes, put.changes);
    forall i | 0 <= i < |read.changes + put.changes| && (read.changes + put.changes)[i].own
      ensures GroundedWrite(first, log, request, (read.changes + put.changes)[i])
    {
      assert IsDecision(CycleDecision(), ok, (read.changes + put.changes)[i]);
    }
  }

  lemma ReadIsGrounded(first: Option<Cycle>, prior: seq<Change<Cycle>>, request: Cycle, next: Cycle,
                       value: Option<Cycle>, script: seq<Turn<Cycle>>)
    requires Grounded(first, prior, request, next) && Chained(first, prior, value)
    ensures var read := Looked(value, script);
      var log := prior + read.changes;
      && Grounded(first, log, request, next) && Grounded(first, log, request, Carried(read.value, next))
      && Chained(first, log, read.value)
  {
    hide Valid, Witnessed, Carried, Looked;
    var read := Looked(value, script);
    LookedChains(value, script);
    ChainsJoin(first, prior, value, read.changes, read.value);
    WitnessesRemain(first, prior, prior + read.changes, request, next);
    MergeIsWitnessed(first, prior + read.changes, read.value, request, next);
  }

  /**
  Whatever other callers do meanwhile, a commit writes nothing but its own progress and progress it
  read for the same inputs.
  */
  lemma {:induction false} LoopIsGrounded(first: Option<Cycle>, prior: seq<Change<Cycle>>, request: Cycle, next: Cycle,
                                          value: Option<Cycle>, script: seq<Turn<Cycle>>, attempts: nat)
    requires Grounded(first, prior, request, next) && Chained(first, prior, value)
    ensures var run := Loop(CycleDecision(), next, value, script, attempts);
      GroundedRun(first, prior + run.changes, request, run, Settles(script, attempts))
    decreases attempts
  {
    hide Decide, Carried, Looked, Written, Grounded, GroundedWrite, Chained, Settles;
    SettlesSteps(script, attempts);
    if attempts > 0 {
      var read := Looked(value, script);
      ReadIsGrounded(first, prior, request, next, value, script);
      LookIsOthers(value, script);
      assert Valid(next) by { GroundedIsValid(first, prior, request, next); }
      var carried, verdict := Carried(read.value, next), Decide(read.value, next);
      assert CycleDecision()(next, read.value) == (carried, verdict);
      if !read.reply.Unavailable? && verdict.Write? {
        var put := Written(read, verdict.document);
        var log := prior + read.changes + put.changes;
        AttemptIsGrounded(first, prior, request, next, value, script, verdict.document);
        DoneIsStored(read, verdict.document);
        WrittenEnds(read, verdict.document);
        assert prior + (read.changes + put.changes) == log;
        if put.reply.Precondition? {
          var rest := Loop(CycleDecision(), carried, put.value, put.script, attempts - 1);
          LoopIsGrounded(first, log, request, carried, put.value, put.script, attempts - 1);
          assert prior + (read.changes + put.changes + rest.changes) == log + rest.changes;
          RestIsGrounded(first, log, log + rest.changes, request, read.changes + put.changes, rest,
                         Settles(put.script, attempts - 1));
        }
      }
    }
  }

  lemma RestIsGrounded(first: Option<Cycle>, log: seq<Change<Cycle>>, longer: seq<Change<Cycle>>, request: Cycle,
                       changes: seq<Change<Cycle>>, rest: Trace<Cycle, Cycle>, settles: bool)
    requires log <= longer && GroundedRun(first, longer, request, rest, settles)
    requires forall i :: 0 <= i < |changes| && changes[i].own ==> GroundedWrite(first, log, request, changes[i])
    ensures GroundedRun(first, longer, request, After(changes, rest), settles)
  {
    hide Decide, Grounded, GroundedWrite;
    forall i | 0 <= i < |changes| && changes[i].own
      ensures GroundedWrite(first, longer, request, changes[i])
    {
      GroundedLonger(first, log, longer, request, changes[i]);
    }
  }

  lemma GroundedIsValid(first: Option<Cycle>, log: seq<Change<Cycle>>, request: Cycle, next: Cycle)
    requires Grounded(first, log, request, next)
    ensures Valid(next)
  {
  }

  /** A look changes nothing of its own, and an unanswered one does not settle. */
  lemma LookIsOthers(value: Option<Cycle>, script: seq<Turn<Cycle>>)
    ensures var read := Looked(value, script);
      && (forall i :: 0 <= i < |read.changes| ==> !read.changes[i].own)
      && (read.reply.Unavailable? <==> !Next(script).fault.Answered?)
      && read.script == Rest(script)
  {
    OthersChain(value, Next(script).others);
  }

  lemma WrittenEnds(read: Access<Cycle, Lookup<Cycle>>, document: Cycle)
    ensures Next(read.script).fault.Answered? ==>
      var put := Written(read, document);
      && !put.reply.Unknown? && put.script == Rest(read.script)
      && (Next(read.script).others == [] ==> put.reply.Done?)
  {
  }

  lemma SettlesSteps(script: seq<Turn<Cycle>>, attempts: nat)
    ensures Settles(script, attempts) ==>
      && attempts > 0 && Next(script).fault.Answered? && Next(Rest(script)).fault.Answered?
      && (Next(Rest(script)).others == [] || Settles(Rest(Rest(script)), attempts - 1))
  {
  }

  /** A whole commit is grounded in what was stored before it, in what it was given and in what it read. */
  lemma CommitIsGrounded(request: Cycle, value: Option<Cycle>, script: seq<Turn<Cycle>>)
    requires Valid(request)
    ensures var run := CommitCycle(request, value, script);
      GroundedRun(value, run.changes, request, run, Settles(script, 5))
  {
    hide Loop, Witnessed, Valid, Settles, GroundedRun;
    RequestIsWitnessed(value, [], request);
    NothingChains(value);
    LoopIsGrounded(value, [], request, request, value, script, 5);
    var run := CommitCycle(request, value, script);
    assert [] + run.changes == run.changes;
  }

  /**
  A commit writes at most twice, and does write twice when its create is applied, its reply is lost and
  the cycle is superseded before the look: the second write replaces the superseded cycle.
  */
  lemma SupersededCreateWritesTwice(request: Cycle)
    requires Valid(request) && !request.superseded
    ensures var superseded := request.(superseded := true);
      Valid(superseded) && OwnWrites(CommitCycle(request, None, ReplacedScript(superseded)).changes) == 2
  {
    hide ValidStatus, Loop, OwnWrites;
    var superseded := request.(superseded := true);
    assert ValidIdentity(superseded);
    ReplacedCreateWritesTwice(CycleDecision(), request, superseded, 5);
  }

  /** A commit that is not raced stores a cycle of a newer generation over a published or superseded one. */
  lemma NewCycleIsStored(stored: Cycle, next: Cycle, script: seq<Turn<Cycle>>)
    requires Valid(stored) && Valid(next) && next.generation > stored.generation
    requires stored.superseded || Published(stored)
    requires Unraced(script) && Next(script).others == []
    ensures var run := CommitCycle(next, Some(stored), script); run.ending.Committed? && run.value == Some(next)
  {
    hide Valid, Decide, Carried, Loop;
    FollowsExactly(stored, next);
    StoredExactly(stored, next);
    UnracedIsDecided(CycleDecision(), next, Some(stored), script, 5);
  }

  /** The first cycle is stored, and an invalid stored one is never replaced. */
  lemma FirstCycleIsStored(stored: Option<Cycle>, next: Cycle, script: seq<Turn<Cycle>>)
    requires Valid(next) && Unraced(script) && Next(script).others == []
    requires stored.Some? ==> !Valid(stored.value)
    ensures var run := CommitCycle(next, stored, script);
      if stored.None? then run.ending.Committed? && run.value == Some(next)
      else run.ending.Failure? && run.value == stored
  {
    hide Valid, Loop;
    UnracedIsDecided(CycleDecision(), next, stored, script, 5);
  }

  /** What one read of the stored cycle decides; the progress it adds stays with the caller's cycle. */
  method Advance(stored: Cycle, next: Cycle) returns (decision: Decision, carried: Cycle)
    requires Valid(next)
    ensures decision == Decide(Some(stored), next)
    ensures carried == if decision.Refuse? then next else Carried(Some(stored), next)
    ensures decision.Write? ==> decision.document == carried
  {
    hide ValidIdentity, ValidStatus;
    carried := next;
    if !Valid(stored) || next.generation < stored.generation {
      return Refuse, next;
    }
    var oldComplete := stored.architectures["amd64"].published && stored.architectures["arm64"].published;
    var replanComplete := next.generation == stored.generation && !stored.superseded && oldComplete
      && next.pin == stored.pin && next.pairFingerprint == stored.pairFingerprint
      && (next.sources != stored.sources || next.plan != stored.plan);
    if next.generation == stored.generation && !stored.superseded && !replanComplete {
      if next.pin != stored.pin || next.pairFingerprint != stored.pairFingerprint
         || next.sources != stored.sources || next.plan != stored.plan {
        return Refuse, next;
      }
      carried := MergeProgress(stored, next);
      if carried == stored {
        return Keep, carried;
      }
    } else if !stored.superseded && !oldComplete {
      return Refuse, next;
    }
    decision := Write(carried);
  }

  lemma NothingStored(next: Cycle)
    requires Valid(next)
    ensures Decide(None, next) == Write(next) && Carried(None, next) == next
  {
  }

  /** The resume point: creates, advances or replaces the stored cycle. */
  method CommitDevelopmentCycle(target: Register<Cycle>, request: Cycle) returns (ending: Ending)
    requires target.Valid()
    modifies target
    ensures target.Valid()
    ensures !Valid(request) ==> ending.Failure? && target.value == old(target.value) && target.log == old(target.log)
    ensures Valid(request) ==>
      var run := CommitCycle(request, old(target.value), old(target.script));
      target.value == run.value && target.log == old(target.log) + run.changes && ending == run.ending
  {
    hide Decide, Carried, Valid, Created, Swapped, Looked, Loop, Continues;
    if !Valid(request) {
      return Failure;
    }
    var next := request;
    ghost var decide := CycleDecision();
    ghost var whole := Loop(decide, next, target.value, target.script, 5);
    ghost var start, done := target.log, [];
    Begins(whole);
    for attempt := 0 to 5
      invariant target.Valid() && target.log == start + done && Valid(next)
      invariant Continues(whole, done, Loop(decide, next, target.value, target.script, 5 - attempt))
    {
      ghost var before, value, script := next, target.value, target.script;
      ghost var read := Looked(value, script);
      AttemptReads(decide, before, value, script, 5 - attempt, whole, done);
      CarriedIsValid(read.value, before);
      LogGrows(start, done, read.changes);
      var current := target.Get();
      if current.Unavailable? {
        return Failure;
      }
      var swap;
      if current.NotFound? {
        NothingStored(next);
        AttemptWrites(decide, before, value, script, 5 - attempt, whole, done, next);
        swap := target.PutIfAbsent(next);
      } else {
        var decision, carried := Advance(current.document, next);
        if decision.Refuse? {
          return Failure;
        }
        next := carried;
        if decision.Keep? {
          return Unchanged;
        }
        AttemptWrites(decide, before, value, script, 5 - attempt, whole, done, next);
        swap := target.CompareAndSwap(current.document, next);
      }
      LogGrows(start, done + read.changes, Written(read, next).changes);
      done := done + read.changes + Written(read, next).changes;
      if swap.Done? {
        return Committed;
      }
      if swap.Unknown? {
        return Failure;
      }
    }
    NoAttemptLeft(decide, next, target.value, target.script, whole, done);
    ending := Failure;
  }

  lemma CarriedIsValid(current: Option<Cycle>, next: Cycle)
    requires Valid(next)
    ensures Valid(Carried(current, next))
  {
    hide Valid, Merged, Resumes;
    if current.Some? && Valid(current.value) {
      MergedIsValid(current.value, next);
    }
  }

  /** Overwrites the statuses of the incoming cycle, one architecture at a time. */
  method MergeProgress(stored: Cycle, next: Cycle) returns (merged: Cycle)
    requires Valid(stored) && Valid(next)
    ensures merged == Merged(stored, next)
  {
    hide ValidIdentity, ValidStatus;
    var names := ["amd64", "arm64"];
    var architectures := next.architectures;
    for i := 0 to 2
      invariant architectures == match i
        case 0 => next.architectures
        case 1 =>
          next.architectures["amd64" := MergedStatus(stored.architectures["amd64"], next.architectures["amd64"])]
        case _ => Merged(stored, next).architectures
    {
      var before, after := stored.architectures[names[i]], architectures[names[i]];
      if Regressed(before.system, after.system) {
        after := after.(system := before.system);
      }
      if Regressed(before.packages, after.packages) {
        after := after.(packages := before.packages);
      }
      if Regressed(before.artifacts, after.artifacts) {
        after := after.(artifacts := before.artifacts);
      }
      if before.published {
        after := after.(published := true);
      }
      architectures := architectures[names[i] := after];
    }
    merged := next.(architectures := architectures);
  }
}
