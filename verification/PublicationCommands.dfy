/** The commands built on the publication loops, and fsbuild channel's own read-mutate-swap loop. */
module PublicationCommands {
  import opened Wrappers
  import opened CommitLoop
  import opened Manifest
  import opened ObjectStore
  import opened Publication
  import Local = ManifestDocument

  method Apply(payload: Payload, request: Request) returns (next: Option<Payload>)
    ensures next == Mutate(payload, request)
  {
    var document := new Local.Document(payload);
    var ok;
    match request {
      case RequestUpdate(o) => ok := document.Update(o);
      case RequestVerify(kind, fingerprint) => ok := document.Verify(kind, fingerprint);
      case RequestSealStable(system, packages) => ok := document.SealStable(system, packages);
      case RequestSealTesting(system, packages) => ok := document.PublishTesting(system, packages);
    }
    next := if ok then Some(Payload(document.schema, document.channels)) else None;
  }

  /** Mutates and signs what was read, unless that changes nothing. */
  method Prepare(existing: Option<Document>, request: Request) returns (decision: Decision)
    ensures decision == DecideChannel(existing, request)
  {
    hide Mutate;
    var payload := Payload(Unset, map[]);
    if existing.Some? {
      if !ReadableManifest(existing.value) {
        return Refuse;
      }
      payload := existing.value.payload;
    }
    var next := Apply(payload, request);
    if next.None? {
      return Refuse;
    }
    if existing.Some? && next.value == payload {
      return Keep;
    }
    return Write(ManifestDoc(next.value.(schema := V3)));
  }

  function ChannelDecision(request: Request): Option<Document> -> Decision {
    current => DecideChannel(current, request)
  }

  method CommandChannel(target: Target, request: Request) returns (ending: Ending)
    requires target.Valid()
    modifies target
    ensures target.Valid()
    ensures var run := Commit(ChannelDecision(request), old(target.value), old(target.script));
      target.value == run.value && target.log == old(target.log) + run.changes && ending == run.ending
  {
    hide DecideChannel, Created, Swapped, Looked, Loop, Continues;
    ghost var decide := Plain(ChannelDecision(request));
    ghost var whole := Loop(decide, (), target.value, target.script, 5);
    ghost var start, done := target.log, [];
    Begins(whole);
    for attempt := 1 to 6
      invariant target.Valid() && target.log == start + done
      invariant Continues(whole, done, Loop(decide, (), target.value, target.script, 6 - attempt))
    {
      ghost var value, script := target.value, target.script;
      ghost var read := Looked(value, script);
      AttemptReads(decide, (), value, script, 6 - attempt, whole, done);
      LogGrows(start, done, read.changes);
      var existing := target.Get();
      if existing.Unavailable? {
        return Failure;
      }
      var decision := Prepare(if existing.Found? then Some(existing.document) else None, request);
      if decision.Refuse? {
        return Failure;
      }
      if decision.Keep? {
        return Unchanged;
      }
      AttemptWrites(decide, (), value, script, 6 - attempt, whole, done, decision.document);
      var r;
      if existing.NotFound? {
        r := target.PutIfAbsent(decision.document);
      } else {
        r := target.CompareAndSwap(existing.document, decision.document);
      }
      LogGrows(start, done + read.changes, Written(read, decision.document).changes);
      done := done + read.changes + Written(read, decision.document).changes;
      if r.Done? {
        return Committed;
      }
      if r.Unknown? {
        return Failure;
      }
    }
    NoAttemptLeft(decide, (), target.value, target.script, whole, done);
    ending := Failure;
  }

  predicate PublishesSystem(d: Document, fingerprint: string) {
    && ReadableManifest(d) && Devel(d.payload).system.Some? && Devel(d.payload).system.value.fingerprint == fingerprint
  }

  /** A System publication is written over an absent manifest, and over one that publishes another System. */
  lemma SystemIsWritten(current: Option<Document>, o: UpdateOptions, was: string)
    requires o.kind.System? && Publishable(Qualify(o))
    requires current.Some? ==> was != o.fingerprint && PublishesSystem(current.value, was)
    ensures var decision := DecideChannel(current, RequestUpdate(o));
      decision.Write? && PublishesSystem(decision.document, o.fingerprint)
  {
    hide Publishable, IsAmd64ABI, OnlyDefault;
    var p := if current.Some? then current.value.payload else Payload(Unset, map[]);
    assert !IsRetry(Devel(p), Qualify(o));
    var next := Updated(p, o).value;
    assert "devel" in next.channels && next.channels["devel"] == Replaced(Devel(p), Qualify(o)) by {
      DefaultKeepsIt(p.channels["devel" := Replaced(Devel(p), Qualify(o))], "devel");
    }
  }

  lemma DefaultKeepsIt(channels: map<string, Channel>, name: string)
    requires name in channels
    ensures name in OnlyDefault(channels, name) && OnlyDefault(channels, name)[name] == channels[name]
  {
  }

  /**
  The channel command does write twice when its create is applied, its reply is lost and another
  command replaces it first: here two publications of different Systems on a new manifest.
  */
  lemma UpdateWritesTwice(o: UpdateOptions, other: UpdateOptions)
    requires o.kind.System? && Publishable(Qualify(o)) && other.kind.System? && Publishable(Qualify(other))
    requires o.fingerprint != other.fingerprint
    ensures DecideChannel(None, RequestUpdate(o)).Write?
    ensures var created := DecideChannel(None, RequestUpdate(o)).document;
      var replacement := DecideChannel(Some(created), RequestUpdate(other));
      replacement.Write? &&
      OwnWrites(Commit(ChannelDecision(RequestUpdate(o)), None, ReplacedScript(replacement.document)).changes) == 2
  {
    hide DecideChannel, Publishable, OwnWrites, Loop;
    SystemIsWritten(None, o, "");
    var created := DecideChannel(None, RequestUpdate(o)).document;
    SystemIsWritten(Some(created), other, o.fingerprint);
    var replacement := DecideChannel(Some(created), RequestUpdate(other)).document;
    SystemIsWritten(Some(replacement), o, other.fingerprint);
    ReplacedCreateWritesTwice(Plain(ChannelDecision(RequestUpdate(o))), (), replacement, 5);
  }

  // ---------------------------------------------------------------- commands of several documents

  /** What two commits in a row report. */
  function Both(first: Ending, second: Ending): Ending {
    if second.Failure? then Failure else if first.Committed? || second.Committed? then Committed else Unchanged
  }

  /** Two commits of which the first did not fail fail with the second, and have written if either has. */
  lemma BothExactly(first: Ending, second: Ending)
    requires first in {Committed, Unchanged}
    ensures Both(first, second).Failure? <==> second.Failure?
    ensures Both(first, second).Committed? <==> (first, second) in {(Committed, Committed), (Committed, Unchanged),
                                                                    (Unchanged, Committed)}
  {
  }

  /** Publishes a pair without an image release: the qualified manifest, then amd64's legacy alias. */
  method CommitRepositories(qualified: Target, legacy: Target, repositories: Document, architecture: string)
    returns (ending: Ending)
    requires qualified != legacy && qualified.Valid() && legacy.Valid()
    modifies qualified, legacy
    ensures qualified.Valid() && legacy.Valid()
    ensures var pair := RepositoriesPair(repositories, architecture);
      if pair.None? then
        && ending.Failure? && qualified.log == old(qualified.log) && legacy.log == old(legacy.log)
        && qualified.value == old(qualified.value) && legacy.value == old(legacy.value)
      else
        var decide := QualifiedDecision(repositories, pair.value, true);
        var first := Commit(decide, old(qualified.value), old(qualified.script));
        var second := Commit(decide, old(legacy.value), old(legacy.script));
        && qualified.value == first.value && qualified.log == old(qualified.log) + first.changes
        && if first.ending.Failure? || architecture != "amd64" then
             ending == first.ending && legacy.value == old(legacy.value) && legacy.log == old(legacy.log)
           else
             && legacy.value == second.value && legacy.log == old(legacy.log) + second.changes
             && ending == Both(first.ending, second.ending)
  {
    hide Loop;
    var pair := RepositoriesPair(repositories, architecture);
    if pair.None? {
      return Failure;
    }
    var first := PutQualifiedDocument(qualified, repositories, pair.value, true);
    if first.Failure? || architecture != "amd64" {
      return first;
    }
    var second := PutQualifiedDocument(legacy, repositories, pair.value, true);
    ending := if second.Failure? then Failure
              else if first.Committed? || second.Committed? then Committed else Unchanged;
  }

  /** The release document publishes exactly the System and Packages of the pair, at its generation. */
  predicate IsLive(release: Option<Document>, pair: Pair) {
    && release.Some? && release.value.ReleaseDoc?
    && release.value.release.generation == pair.generation
    && release.value.release.system == pair.system && release.value.release.packages == pair.packages
  }

  /** Once the release document is staged, the live release names exactly the pair, at its generation. */
  lemma StagedReleaseIsLive(release: Document, pair: Pair, value: Option<Document>, script: seq<Turn<Document>>)
    requires IsLive(Some(release), pair)
    ensures var run := Commit(QualifiedDecision(release, pair, false), value, script);
      !run.ending.Failure? ==> IsLive(run.value, pair)
  {
    hide Loop;
    var decide := QualifiedDecision(release, pair, false);
    CommitIsFaithful(decide, value, script);
    var run := Commit(decide, value, script);
    if run.ending.Committed? {
      var seen :| decide(seen) == Write(run.value.value);
      assert DecideQualified(seen, release, pair, false) == Write(run.value.value);
    }
    if run.ending.Unchanged? {
      assert DecideQualified(run.value, release, pair, false).Keep?;
    }
  }

  /**
  A staged commit: nothing at all for documents that do not bind each other; otherwise the release
  document first, and the manifest only once the live release names exactly the pair at its generation.
  */
  ghost predicate StagedCommit(
    releaseBefore: Option<Document>, releaseScript: seq<Turn<Document>>,
    releaseAfter: Option<Document>, releaseChanges: seq<Change<Document>>,
    manifestBefore: Option<Document>, manifestScript: seq<Turn<Document>>,
    manifestAfter: Option<Document>, manifestChanges: seq<Change<Document>>,
    repositories: Document, document: Document, architecture: string, ending: Ending)
  {
    var pair := QualifiedPair(repositories, document, architecture);
    if pair.None? then
      && ending.Failure? && releaseAfter == releaseBefore && releaseChanges == []
      && manifestAfter == manifestBefore && manifestChanges == []
    else
      var staged := Commit(QualifiedDecision(document, pair.value, false), releaseBefore, releaseScript);
      var published := Commit(QualifiedDecision(repositories, pair.value, true), manifestBefore, manifestScript);
      && releaseAfter == staged.value && releaseChanges == staged.changes
      && if staged.ending.Failure? then
           ending.Failure? && manifestAfter == manifestBefore && manifestChanges == []
         else
           && IsLive(releaseAfter, pair.value)
           && manifestAfter == published.value && manifestChanges == published.changes && ending == published.ending
  }

  /** Stages the release document, then commits the signed manifest last. */
  method CommitQualified(release: Target, manifest: Target, repositories: Document, document: Document,
                         architecture: string)
    returns (ending: Ending)
    requires release != manifest && release.Valid() && manifest.Valid()
    modifies release, manifest
    ensures release.Valid() && manifest.Valid() && old(release.log) <= release.log && old(manifest.log) <= manifest.log
    ensures StagedCommit(old(release.value), old(release.script), release.value, release.log[|old(release.log)|..],
                         old(manifest.value), old(manifest.script), manifest.value, manifest.log[|old(manifest.log)|..],
                         repositories, document, architecture, ending)
  {
    hide Loop;
    var pair := QualifiedPair(repositories, document, architecture);
    if pair.None? {
      return Failure;
    }
    var staged := PutQualifiedDocument(release, document, pair.value, false);
    if staged.Failure? {
      return Failure;
    }
    StagedReleaseIsLive(document, pair.value, old(release.value), old(release.script));
    ending := PutQualifiedDocument(manifest, repositories, pair.value, true);
  }

  /** The amd64 compatibility aliases, in the same order and under the same checks. */
  method CommitLegacyAMD64(release: Target, manifest: Target, repositories: Document, document: Document)
    returns (ending: Ending)
    requires release != manifest && release.Valid() && manifest.Valid()
    modifies release, manifest
    ensures release.Valid() && manifest.Valid() && old(release.log) <= release.log && old(manifest.log) <= manifest.log
    ensures StagedCommit(old(release.value), old(release.script), release.value, release.log[|old(release.log)|..],
                         old(manifest.value), old(manifest.script), manifest.value, manifest.log[|old(manifest.log)|..],
                         repositories, document, "amd64", ending)
  {
    hide Loop;
    var pair := QualifiedPair(repositories, document, "amd64");
    if pair.None? {
      return Failure;
    }
    var staged := PutQualifiedDocument(release, document, pair.value, false);
    if staged.Failure? {
      return Failure;
    }
    StagedReleaseIsLive(document, pair.value, old(release.value), old(release.script));
    ending := PutQualifiedDocument(manifest, repositories, pair.value, true);
  }
}
