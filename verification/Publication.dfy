/**
Forward-only publication: which stored document a commit may replace, and the loop that does it.
*/
module Publication {
  import opened Wrappers
  import opened CommitLoop
  import opened Manifest
  import opened ObjectStore

  // ---------------------------------------------------------------- documents

  /** The fields of a release document that publication looks at. */
  datatype ReleaseDocument = ReleaseDocument(
    channel: string, architecture: string, generation: nat, system: string, packages: string)

  datatype Artifacts = Artifacts(
    system: string, packages: string, repositoryDocument: string, releaseDocument: string,
    artifacts: map<string, string>)

  /** The authoritative commit document of one Development pair. */
  datatype Completion = Completion(
    channel: string, generation: nat, pairFingerprint: string, pin: string, architectures: map<string, Artifacts>)
  {
    predicate Valid() {
      && channel == "devel" && generation != 0 && IsFingerprint(pairFingerprint) && IsFingerprint(pin)
      && |architectures| == 2
      && Covers("amd64", ["installer", "cloud-ufs", "cloud-zfs"])
      && Covers("arm64", ["installer", "arm64-rpi4b", "arm64-rpi5-d0"])
    }

    predicate Covers(architecture: string, required: seq<string>) {
      && architecture in architectures
      && var result := architectures[architecture];
      && |result.artifacts| == |required|
      && IsFingerprint(result.system) && IsFingerprint(result.packages)
      && IsFingerprint(result.repositoryDocument) && IsFingerprint(result.releaseDocument)
      && forall i :: 0 <= i < |required| ==>
           required[i] in result.artifacts && IsFingerprint(result.artifacts[required[i]])
    }
  }

  datatype Document =
    | ManifestDoc(payload: Payload)
    | ReleaseDoc(release: ReleaseDocument)
    | CompletionDoc(completion: Completion)

  /** A signed manifest with a schema its reader knows. */
  predicate ReadableManifest(d: Document) {
    d.ManifestDoc? && !d.payload.schema.Unset?
  }

  // ---------------------------------------------------------------- what a commit publishes

  /** One published System/Packages pair. */
  datatype Pair = Pair(generation: nat, system: string, packages: string, description: string)

  function PackageArch(architecture: string): string {
    if architecture == "amd64" then "amd64" else if architecture == "arm64" then "aarch64" else ""
  }

  /** The pair of a repository manifest, taken at its newest component generation. */
  function RepositoriesPair(repositories: Document, architecture: string): Option<Pair> {
    var packageArch := PackageArch(architecture);
    if packageArch == "" || !ReadableManifest(repositories)
       || !ValidDevelopmentPair(repositories.payload, architecture, packageArch) then None else
    var devel := repositories.payload.channels["devel"];
    Some(Pair(PairGeneration(devel), devel.system.value.fingerprint, devel.packages.value.fingerprint,
              devel.description))
  }

  /** The pair of a manifest and its release document, taken at the release's generation. */
  function QualifiedPair(repositories: Document, release: Document, architecture: string): Option<Pair> {
    var pair := RepositoriesPair(repositories, architecture);
    if pair.None? || !release.ReleaseDoc? then None else
    var document := release.release;
    if document.channel != "devel" || document.architecture != architecture || document.generation == 0
       || document.generation < pair.value.generation
       || document.system != pair.value.system || document.packages != pair.value.packages then None
    else Some(pair.value.(generation := document.generation))
  }

  // ---------------------------------------------------------------- decisions

  type Decision = Verdict<Document>

  /** The identity of what is live: generation, System, Packages and the channel label. */
  function LivePair(current: Document, signed: bool): Option<Pair> {
    if signed then
      if !ReadableManifest(current) || "devel" !in current.payload.channels
         || current.payload.channels["devel"].system.None? then None else
      var devel := current.payload.channels["devel"];
      Some(Pair(PairGeneration(devel), devel.system.value.fingerprint,
                if devel.packages.Some? then devel.packages.value.fingerprint else "", devel.description))
    else
      if !current.ReleaseDoc? || current.release.channel != "devel" || current.release.generation == 0 then None else
      Some(Pair(current.release.generation, current.release.system, current.release.packages, ""))
  }

  /** A qualified document replaces what is live only with a newer generation, or the same pair relabelled. */
  function DecideQualified(current: Option<Document>, next: Document, pair: Pair, signed: bool): Decision {
    if current.None? then Write(next)
    else if current.value == next then Keep
    else if signed && !(ReadableManifest(current.value) && ReadableManifest(next)
                        && KeepRetained(current.value.payload, next.payload)) then Refuse
    else
      var live := LivePair(current.value, signed);
      if live.None? || pair.generation < live.value.generation then Refuse
      else if pair.generation == live.value.generation then
        if pair.system != live.value.system || pair.packages != live.value.packages then Refuse
        else if !signed || live.value.description == pair.description then Keep
        else Write(next)
      else Write(next)
  }

  function DecideCompletion(current: Option<Document>, next: Completion): Decision {
    if current.None? then Write(CompletionDoc(next))
    else if !current.value.CompletionDoc? || !current.value.completion.Valid() then Refuse
    else if next.generation < current.value.completion.generation then Refuse
    else if next.generation == current.value.completion.generation then
      if current.value == CompletionDoc(next) then Keep else Refuse
    else Write(CompletionDoc(next))
  }

  /** One mutation of fsbuild channel. */
  datatype Request =
    | RequestUpdate(options: UpdateOptions)
    | RequestVerify(kind: Kind, fingerprint: string)
    | RequestSealStable(system: UpdateOptions, packages: UpdateOptions)
    | RequestSealTesting(system: UpdateOptions, packages: UpdateOptions)

  function Mutate(p: Payload, request: Request): Option<Payload> {
    match request
    case RequestUpdate(o) => Updated(p, o)
    case RequestVerify(kind, fingerprint) => Verified(p, kind, fingerprint)
    case RequestSealStable(system, packages) => SealedStable(p, system, packages)
    case RequestSealTesting(system, packages) => PublishedTesting(p, system, packages)
  }

  /** Signing always stamps the current schema; an unchanged payload is not written again. */
  function DecideChannel(current: Option<Document>, request: Request): Decision {
    if current.Some? && !ReadableManifest(current.value) then Refuse else
    var payload := if current.Some? then current.value.payload else Payload(Unset, map[]);
    var next := Mutate(payload, request);
    if next.None? then Refuse
    else if current.Some? && next.value == payload then Keep
    else Write(ManifestDoc(next.value.(schema := V3)))
  }

  // ---------------------------------------------------------------- what may replace what is live

  /** Some component of the channel has this generation, and none has a newer one. */
  predicate IsAt(channel: Channel, generation: nat) {
    && NoneNewer(channel, generation)
    && ((channel.system.Some? && channel.system.value.generation == generation)
        || (channel.packages.Some? && channel.packages.value.generation == generation))
  }

  predicate NoneNewer(channel: Channel, generation: nat) {
    && (channel.system.Some? ==> channel.system.value.generation <= generation)
    && (channel.packages.Some? ==> channel.packages.value.generation <= generation)
  }

  /** The channel publishes exactly this System and these Packages. */
  predicate Publishes(channel: Channel, system: string, packages: string) {
    && channel.system.Some? && channel.system.value.fingerprint == system
    && packages == if channel.packages.Some? then channel.packages.value.fingerprint else ""
  }

  /**
  A signed manifest replaces another exactly when Stable and Testing are kept and no component of the
  live pair is newer; at the generation of the live pair only the very same System and Packages pass.
  */
  lemma ManifestFollowsExactly(current: Payload, next: Payload, pair: Pair)
    requires current != next && !current.schema.Unset? && !next.schema.Unset?
    ensures !DecideQualified(Some(ManifestDoc(current)), ManifestDoc(next), pair, true).Refuse? <==>
      && KeepRetained(current, next) && "devel" in current.channels && current.channels["devel"].system.Some?
      && NoneNewer(current.channels["devel"], pair.generation)
      && (IsAt(current.channels["devel"], pair.generation) ==>
            Publishes(current.channels["devel"], pair.system, pair.packages))
  {
    hide KeepRetained;
  }

  /** It is written, unless the live pair already has this generation under this label. */
  lemma ManifestIsWrittenExactly(current: Payload, next: Payload, pair: Pair)
    requires current != next && !current.schema.Unset? && !next.schema.Unset?
    requires !DecideQualified(Some(ManifestDoc(current)), ManifestDoc(next), pair, true).Refuse?
    ensures DecideQualified(Some(ManifestDoc(current)), ManifestDoc(next), pair, true) ==
      var devel := current.channels["devel"];
      if IsAt(devel, pair.generation) && devel.description == pair.description then Keep else Write(ManifestDoc(next))
  {
    hide KeepRetained;
  }

  /** A release document gives way to newer generations alone; another pair of its own generation is refused. */
  lemma ReleaseFollowsExactly(current: ReleaseDocument, next: Document, pair: Pair)
    requires ReleaseDoc(current) != next
    ensures var decision := DecideQualified(Some(ReleaseDoc(current)), next, pair, false);
      var valid := current.channel == "devel" && current.generation != 0;
      && (decision == Write(next) <==> valid && current.generation < pair.generation)
      && (decision.Keep? <==> valid && current.generation == pair.generation
                              && current.system == pair.system && current.packages == pair.packages)
      && (decision.Refuse? <==> !decision.Write? && !decision.Keep?)
  {
  }

  /** The first document of a key is written; the very same document is left alone. */
  lemma FirstDocumentIsWritten(next: Document, pair: Pair, signed: bool)
    ensures DecideQualified(None, next, pair, signed) == Write(next)
    ensures DecideQualified(Some(next), next, pair, signed) == Keep
  {
  }

  /** Whatever is no readable manifest, or no release document, is never replaced by another document. */
  lemma OtherKindsStay(current: Document, next: Document, pair: Pair, signed: bool)
    requires current != next
    requires if signed then !ReadableManifest(current) || !ReadableManifest(next) else !current.ReleaseDoc?
    ensures DecideQualified(Some(current), next, pair, signed).Refuse?
  {
  }

  /** A completion gives way to newer generations alone, and only if it is valid itself. */
  lemma CompletionFollowsExactly(current: Document, next: Completion)
    ensures var decision := DecideCompletion(Some(current), next);
      var valid := current.CompletionDoc? && current.completion.Valid();
      && (decision == Write(CompletionDoc(next)) <==> valid && current.completion.generation < next.generation)
      && (decision.Keep? <==> valid && current.completion == next)
      && (decision.Refuse? <==> !decision.Write? && !decision.Keep?)
  {
    hide Completion.Valid;
  }

  /** A commit that is not raced stores a document of a newer generation. */
  lemma NewerReleaseIsStored(current: ReleaseDocument, next: Document, pair: Pair, script: seq<Turn<Document>>)
    requires current.channel == "devel" && current.generation != 0 && current.generation < pair.generation
    requires ReleaseDoc(current) != next && Unraced(script) && Next(script).others == []
    ensures var run := Commit(QualifiedDecision(next, pair, false), Some(ReleaseDoc(current)), script);
      run.ending.Committed? && run.value == Some(next)
  {
    hide Loop, DecideQualified;
    ReleaseFollowsExactly(current, next, pair);
    UnracedIsDecided(Plain(QualifiedDecision(next, pair, false)), (), Some(ReleaseDoc(current)), script, 5);
  }

  lemma NewerManifestIsStored(current: Payload, next: Payload, pair: Pair, script: seq<Turn<Document>>)
    requires current != next && !current.schema.Unset? && !next.schema.Unset? && KeepRetained(current, next)
    requires "devel" in current.channels && current.channels["devel"].system.Some?
    requires NoneNewer(current.channels["devel"], pair.generation) && !IsAt(current.channels["devel"], pair.generation)
    requires Unraced(script) && Next(script).others == []
    ensures var run := Commit(QualifiedDecision(ManifestDoc(next), pair, true), Some(ManifestDoc(current)), script);
      run.ending.Committed? && run.value == Some(ManifestDoc(next))
  {
    hide Loop, DecideQualified, KeepRetained;
    ManifestFollowsExactly(current, next, pair);
    ManifestIsWrittenExactly(current, next, pair);
    var decide := QualifiedDecision(ManifestDoc(next), pair, true);
    UnracedIsDecided(Plain(decide), (), Some(ManifestDoc(current)), script, 5);
  }

  lemma NewerCompletionIsStored(current: Completion, next: Completion, script: seq<Turn<Document>>)
    requires current.Valid() && current.generation < next.generation
    requires Unraced(script) && Next(script).others == []
    ensures var run := Commit(CompletionDecision(next), Some(CompletionDoc(current)), script);
      run.ending.Committed? && run.value == Some(CompletionDoc(next))
  {
    hide Loop, DecideCompletion, Completion.Valid;
    CompletionFollowsExactly(CompletionDoc(current), next);
    UnracedIsDecided(Plain(CompletionDecision(next)), (), Some(CompletionDoc(current)), script, 5);
  }

  // ---------------------------------------------------------------- the loops

  type Target = Register<Document>

  /** What one read of the live document decides. */
  method CompareQualified(current: Document, data: Document, pair: Pair, signed: bool) returns (decision: Decision)
    ensures decision == DecideQualified(Some(current), data, pair, signed)
  {
    hide KeepRetained;
    if current == data {
      return Keep;
    }
    var oldGeneration, oldSystem, oldPackages, oldDescription := 0, "", "", "";
    if signed {
      if !ReadableManifest(current) || !ReadableManifest(data) {
        return Refuse;
      }
      if !KeepRetained(current.payload, data.payload) {
        return Refuse;
      }
      var channels := current.payload.channels;
      if "devel" !in channels || channels["devel"].system.None? {
        return Refuse;
      }
      var channel := channels["devel"];
      oldGeneration := PairGeneration(channel);
      oldSystem := channel.system.value.fingerprint;
      oldDescription := channel.description;
      if channel.packages.Some? {
        oldPackages := channel.packages.value.fingerprint;
      }
    } else {
      if !current.ReleaseDoc? || current.release.channel != "devel" || current.release.generation == 0 {
        return Refuse;
      }
      oldGeneration := current.release.generation;
      oldSystem, oldPackages := current.release.system, current.release.packages;
    }
    if pair.generation < oldGeneration {
      return Refuse;
    }
    if pair.generation == oldGeneration {
      if pair.system != oldSystem || pair.packages != oldPackages {
        return Refuse;
      }
      if !signed || oldDescription == pair.description {
        return Keep;
      }
    }
    return Write(data);
  }

  lemma AbsentIsWritten(data: Document, pair: Pair, signed: bool)
    ensures DecideQualified(None, data, pair, signed) == Write(data)
  {
  }

  function QualifiedDecision(data: Document, pair: Pair, signed: bool): Option<Document> -> Decision {
    current => DecideQualified(current, data, pair, signed)
  }

  method PutQualifiedDocument(target: Target, data: Document, pair: Pair, signed: bool) returns (ending: Ending)
    requires target.Valid()
    modifies target
    ensures target.Valid()
    ensures var run := Commit(QualifiedDecision(data, pair, signed), old(target.value), old(target.script));
      target.value == run.value && target.log == old(target.log) + run.changes && ending == run.ending
  {
    hide DecideQualified, Created, Swapped, Looked, Loop, Continues;
    ghost var decide := Plain(QualifiedDecision(data, pair, signed));
    ghost var whole := Loop(decide, (), target.value, target.script, 5);
    ghost var start, done := target.log, [];
    Begins(whole);
    for attempt := 0 to 5
      invariant target.Valid() && target.log == start + done
      invariant Continues(whole, done, Loop(decide, (), target.value, target.script, 5 - attempt))
    {
      ghost var value, script := target.value, target.script;
      ghost var read := Looked(value, script);
      AttemptReads(decide, (), value, script, 5 - attempt, whole, done);
      LogGrows(start, done, read.changes);
      var current := target.Get();
      if current.Unavailable? {
        return Failure;
      }
      var put;
      if current.NotFound? {
        AbsentIsWritten(data, pair, signed);
        AttemptWrites(decide, (), value, script, 5 - attempt, whole, done, data);
        put := target.PutIfAbsent(data);
      } else {
        var decision := CompareQualified(current.document, data, pair, signed);
        if decision.Refuse? {
          return Failure;
        }
        if decision.Keep? {
          return Unchanged;
        }
        OnlyTheGivenDocument(current.document, data, pair, signed);
        AttemptWrites(decide, (), value, script, 5 - attempt, whole, done, data);
        put := target.CompareAndSwap(current.document, data);
      }
      LogGrows(start, done + read.changes, Written(read, data).changes);
      done := done + read.changes + Written(read, data).changes;
      if put.Done? {
        return Committed;
      }
      if put.Unknown? {
        return Failure;
      }
    }
    NoAttemptLeft(decide, (), target.value, target.script, whole, done);
    ending := Failure;
  }

  lemma OnlyTheGivenDocument(current: Document, data: Document, pair: Pair, signed: bool)
    ensures var decision := DecideQualified(Some(current), data, pair, signed);
      decision.Write? ==> decision == Write(data)
  {
    hide KeepRetained;
  }

  method CompareCompletion(current: Document, next: Completion) returns (decision: Decision)
    ensures decision == DecideCompletion(Some(current), next)
  {
    if !current.CompletionDoc? || !current.completion.Valid() {
      return Refuse;
    }
    var existing := current.completion;
    if next.generation < existing.generation {
      return Refuse;
    }
    if next.generation == existing.generation {
      if next.pairFingerprint != existing.pairFingerprint || CompletionDoc(next) != current {
        return Refuse;
      }
      return Keep;
    }
    return Write(CompletionDoc(next));
  }

  lemma AbsentCompletionIsWritten(next: Completion)
    ensures DecideCompletion(None, next) == Write(CompletionDoc(next))
  {
  }

  lemma OnlyTheGivenCompletion(current: Document, next: Completion)
    ensures var decision := DecideCompletion(Some(current), next);
      decision.Write? ==> decision == Write(CompletionDoc(next))
  {
  }

  function CompletionDecision(next: Completion): Option<Document> -> Decision {
    current => DecideCompletion(current, next)
  }

  method CommitMultiarch(target: Target, next: Completion) returns (ending: Ending)
    requires target.Valid()
    modifies target
    ensures target.Valid()
    ensures !next.Valid() ==> ending == Failure && target.value == old(target.value) && target.log == old(target.log)
    ensures next.Valid() ==>
      var run := Commit(CompletionDecision(next), old(target.value), old(target.script));
      target.value == run.value && target.log == old(target.log) + run.changes && ending == run.ending
  {
    hide DecideCompletion, Created, Swapped, Looked, Loop, Continues, Completion.Valid;
    if !next.Valid() {
      return Failure;
    }
    ghost var decide := Plain(CompletionDecision(next));
    ghost var whole := Loop(decide, (), target.value, target.script, 5);
    ghost var start, done := target.log, [];
    Begins(whole);
    for attempt := 0 to 5
      invariant target.Valid() && target.log == start + done
      invariant Continues(whole, done, Loop(decide, (), target.value, target.script, 5 - attempt))
    {
      ghost var value, script := target.value, target.script;
      ghost var read := Looked(value, script);
      AttemptReads(decide, (), value, script, 5 - attempt, whole, done);
      LogGrows(start, done, read.changes);
      var current := target.Get();
      if current.Unavailable? {
        return Failure;
      }
      var put;
      if current.NotFound? {
        AbsentCompletionIsWritten(next);
        AttemptWrites(decide, (), value, script, 5 - attempt, whole, done, CompletionDoc(next));
        put := target.PutIfAbsent(CompletionDoc(next));
      } else {
        var decision := CompareCompletion(current.document, next);
        if decision.Refuse? {
          return Failure;
        }
        if decision.Keep? {
          return Unchanged;
        }
        OnlyTheGivenCompletion(current.document, next);
        AttemptWrites(decide, (), value, script, 5 - attempt, whole, done, CompletionDoc(next));
        put := target.CompareAndSwap(current.document, CompletionDoc(next));
      }
      LogGrows(start, done + read.changes, Written(read, CompletionDoc(next)).changes);
      done := done + read.changes + Written(read, CompletionDoc(next)).changes;
      if put.Done? {
        return Committed;
      }
      if put.Unknown? {
        return Failure;
      }
    }
    NoAttemptLeft(decide, (), target.value, target.script, whole, done);
    ending := Failure;
  }
}
