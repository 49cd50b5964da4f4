# FreeSense release control plane: a verified model

A Dafny model of the parts of the FreeSense build and release system in which several commands share
mutable documents, and of the planners that decide what is built, reused, installed and deleted. Each
module follows one component of the repository. Code that updates state in place (the channel
manifest, the commit loops, the conditional create, the partitioner, the dependency walk, the
provenance builder, the encoder, the sweep) is a class or a method with loops, proved against a
specification; what the system promises is then proved about the specification, for every input,
every run or every interleaving.

## What is modelled

**The mutable control plane.**

- `Versions` is the release-version pattern and the comparison that decides whether a Stable release
  moves forward.
- `Manifest`, `ManifestLaws`, `ManifestChecks` and `ManifestDocument` are the channel manifest: the values
  and mutations as functions, their laws, what each command accepts and stores in terms of the options
  and the stored fields alone, and the mutable document whose methods are proved to be those functions.
- `ObjectStore` is one document of the store: a linearizable register with Get, PutIfAbsent and
  CompareAndSwap (If-None-Match and If-Match, sections 13.1.2 and 13.1.1 of RFC 9110). A script lets
  other callers write between any two accesses and between a create and the look that settles it, lets
  a write be applied although its reply is lost, and makes any access fail. A create whose reply is lost
  is settled as the client does: by what is stored when it looks. A ghost log records every change.
- `CommitLoop` is the read-decide-write loop that every commit shares, as a function of the object and
  of what the others and the network do: every own write is the decision on the value it replaced, there
  are at most two, and the cases of two are characterized.
- `Publication`, `PublicationChecks` and `PublicationCommands` are the retry loops themselves: the channel
  command, the qualified release documents, the repository and legacy commits, and the multiarch
  completion. Each is proved equal to `CommitLoop` with its own decision, and each decision has its exact
  condition on the fields of the two documents.
- `Protocol` and `ProtocolHistory` put those same decisions into a state machine with any number of
  concurrent commands, any interleaving, crashes between any two steps and swaps that land although
  they were reported lost. The history theorems hold for every schedule.
- `DevelopmentCycle` and `CycleProtocol` do the same for the Development cycle and its merge of
  progress into a value that the loop carries from attempt to attempt.
- `ConditionalCreate` and `CreateClient` are the conditional create over an unreliable network (replies
  lost, creates that land late, retryable statuses, failed probes): the method, and one caller of it step by
  step. `ReservationProtocol` is any number of such callers reserving generations write-once;
  `CreateOutcomes` is one of them on an object that others replace, and proves that it leaves exactly the
  outcomes of the register's create.

**Planners and resolvers.**

- `ListScheduling`, `Partition`, `ShardPlan`: shards as connected components of overlapping closures,
  balanced largest first; `Batches`: the cut of a shard into cumulative batches and the checkpoint
  chain they feed.
- `DependencyOrder`: the depth-first install order. `Provenance`, `PackageReuse`, `SeedMerge`: effective
  digests over the dependency graph, what they let the build reuse, and the merge of the two seeds.
  `ZBase32`, `Checksums`: the checksum text of packages.
- `DeltaClosure`, `MirrorPlan`, `BinarySeed`: what FreeSense builds, what the mirror serves, and what
  is taken from the official repository.
- `RetentionClosure`, `DeletionBatch`, `DeletionConfirmation`: what retention protects, the capped batch
  of one run, and the two-observation rule over a history of runs.
- `JobTimings`: the sweep that measures how many hosted jobs ran at once. `Hex` is the hexadecimal text that
  digests, fingerprints and revisions share.

Ideal parts: a signature identifies its payload, JSON text is its value, an ETag identifies content
and a SHA-256 digest determines what was digested. Clocks, random choices and other callers are
parameters (schedules, scripts, histories).

## Results that qualify what the code promises

- **A commit can write twice, and a reported creation can be another caller's document.** A create whose
  reply is lost is settled by what is stored (internal/store/s3.go:338-351 and 428-440). If it was applied
  and replaced before that look, or the look denies it, it is reported as not created and the loop goes
  round again; if another caller stored the very same document, it is reported as created
  (`CommitLoop.EqualDocumentIsClaimed`). `CommitLoop.CreateIsReportedExactly` gives both conditions, and
  `CreateOutcomes` shows that each of these ends, a denying look included, is the end of some run of the
  client and that it has no others. `CommitLoop.SecondWriteExactly` and `CommitLoop.StoredIsRewrittenExactly` say
  when a second write follows, by what happens before each access alone. `PublicationCommands.UpdateWritesTwice`
  and `DevelopmentCycle.SupersededCreateWritesTwice` are commands that do write twice. What always holds is
  that every own write is the decision on the value that it replaced.
- **Stable and Testing survive exactly on current-schema documents.** `SealStable` and `PublishTesting` reset
  a v1 or v2 payload (internal/control/control.go:225-227), and the qualified commits do not look at the
  schema of the document they install (`ProtocolHistory.SchemaDoesNotDecide`). The forward-only theorems
  therefore ask for current-schema documents under the manifest's key. The condition is exact on both
  sides, for either channel: on the stored manifest (`ManifestLaws.SealIsSafeUnlessLegacy`,
  `ProtocolHistory.OnlyLegacyManifestsLoseRetained`) and on the documents that any qualified, repository or
  legacy commit installs under any manifest key (`ProtocolHistory.OnlyLegacyCommitsLoseRetained`, met by the
  commit of `ProtocolHistory.LegacyCommitIsAccepted`).
- **The generation of a manifest's own components is not monotone.** `ProtocolHistory.ManifestGenerationMayFall`
  gives the exact condition: the release is ahead of both components, as in `ProtocolHistory.SampleGenerationFalls`.
- **Repeating a publication keeps its verification only when the declared architecture agrees**
  (`ManifestLaws.RetryKeepsVerification`); otherwise the rerun starts the soak again, as it does in
  `ManifestLaws.RetryRestartsSoak`.
- **A proposer may be told that it did not create the reservation that is its own.** For any proposer among any
  number of them, `ReservationProtocol.CreatedIsReportedExactly` says what it is told: created exactly when it
  heard the reply to its create as it landed, or a probe was answered with what it wants; not created exactly
  when it heard 412 with nothing unresolved, a probe was answered with other content or a conflict, or the
  last probe behind a 409 or 412 did not hear of any object. A proposer that is alone only ever gets its own
  reservation (`ReservationProtocol.AloneGetsItsOwn`) and is still denied it in
  `ReservationProtocol.LateCreateIsDenied` and `ReservationProtocol.UnansweredCreateIsDenied`, with and without a
  late create. What is promised is that all successful reservations of a fingerprint agree.
- **Replays after an unconfirmed probe.** The comment inside `s3ReplaySafe` (internal/store/s3.go:501-516)
  permits a replay only after confirmed absence; the code also replays the create after a probe that failed
  (internal/store/s3.go:309-411). `CreateClient.ReplaysExactly` gives the code's condition,
  `ReservationProtocol.UnconfirmedReplayExactly` says when the replayed create is already stored, and
  `ReservationProtocol.AppliedCreateIsReplayed` does it in two events.
- **An oversize group fails the retention run instead of resetting the batch.** The pinned batch becomes
  ready within twenty hours as long as each run can be planned: no eligible group above the caps on its
  own and no duplicate groups (`DeletionConfirmation.PinnedRunPlans` and `DeletionBatch.SelectDeletionBatch`);
  `DeletionConfirmation.OversizeGroupFailsPinnedRun` is a run that one such group fails.
- **The binary seed partitions the requested names except for rust**: `BinarySeed.PartitionUpToRust`
  gives the exact exception in terms of the request and the catalogue, and
  `BinarySeed.ForeignRustIsOnBothSides` is a catalogue on which both sides hold rust.
- **Shard balance needs non-negative costs.** The partitioner validates the costs of heavy roots only. A
  policy keeps the bound on every root set if and only if it gives no root a negative cost
  (`ShardPlan.BalanceNeedsNonNegativeCosts`); two roots break it otherwise (`ShardPlan.PairBreaksBound`).

## Model

| member | source | states |
|---|---|---|
| `Versions.MatchInvertsText` | internal/control/control.go:33 | the release pattern accepts exactly three dotted digit groups and returns them |
| `Versions.MatchIsText` | internal/control/control.go:33 | a match loses nothing: its groups spell the version |
| `Versions.AdvancesIsLexicographic` | internal/control/control.go:762-781 | on representable versions an advance is exactly a lexicographic rise of the number triple |
| `Versions.AdvancesExactly` | internal/control/control.go:762-781 | for all versions, numbers that do not fit an int included: the first number that differs rises, and it and those before it can be scanned |
| `Versions.AdvancesRaisesTriple` | internal/control/control.go:762-781 | for any two texts, an accepted advance is a strict rise of the triple |
| `Versions.AdvancesIsTransitive` | internal/control/control.go:762-781 | advances compose |
| `ManifestDocument.Document.Update` | internal/control/control.go:394-547 | the in-place update of the channel map is the update function, and a refused call changes nothing |
| `ManifestDocument.Document.Verify` | internal/control/control.go:559-579 | verification marks the current component only when the fingerprint still matches, and changes nothing else |
| `ManifestDocument.Document.ReleasePair` | internal/control/control.go:206-257 | the pair is built and verified on an empty payload; a legacy payload is reset and any other is kept |
| `ManifestDocument.Document.SealStable` | internal/control/control.go:105-150 | the sealed document is the seal function of the old one; a refusal leaves the document as it was, or reset if legacy |
| `ManifestDocument.Document.PublishTesting` | internal/control/control.go:161-200 | the same for the rolling Testing channel |
| `ManifestLaws.UpdateKeeps` | internal/control/control.go:394-547 | a Development publication keeps at most one default, bound packages, and never moves Stable or Testing back |
| `ManifestLaws.VerifyKeeps` | internal/control/control.go:559-579 | verification keeps the same invariants |
| `ManifestLaws.VerifiesExactly` | internal/control/control.go:559-579 | a verification succeeds if and only if Development has a component of that kind with that very fingerprint, packages fully identified and bound |
| `ManifestLaws.VerifyMarksOnly` | internal/control/control.go:559-579 | it changes nothing but the flag of that component |
| `ManifestLaws.OnlyTheCheckedIsVerified` | internal/control/control.go:559-579 | whatever it turns verified carries the fingerprint that was checked |
| `ManifestLaws.SealStableKeeps` | internal/control/control.go:105-150 | sealing keeps the manifest invariants and, on a current-schema payload, moves every retained channel only forward |
| `ManifestLaws.PublishTestingKeeps` | internal/control/control.go:161-200 | publishing Testing keeps the invariants and never lowers Testing's version or generation |
| `ManifestLaws.PairIsBound` | internal/control/control.go:206-257 | a release pair holds exactly the two verified components, its packages bound to its System and pin |
| `ManifestLaws.BuildPairSucceeds` | internal/control/control.go:206-257 | matching options build a pair if and only if both are publishable |
| `ManifestLaws.SealStableRerun` | internal/control/control.go:105-150 | sealing the same release twice changes nothing the second time |
| `ManifestLaws.SealIsSafeUnlessLegacy` | internal/control/control.go:225-227 | no seal endangers a published Stable, nor a published Testing, if and only if the payload is not of a legacy schema |
| `ManifestLaws.SealDropsLegacyStable` | internal/control/control.go:225-227 | the seal that loses the Stable of any earlier payload on a legacy payload, given outright |
| `ManifestLaws.SealDropsLegacyTesting` | internal/control/control.go:225-227 | every accepted seal of a legacy payload leaves no Testing |
| `ManifestLaws.RetryKeepsVerification` | internal/control/control.go:394-547 | a repeated publication keeps the verification if and only if the declared architecture agrees |
| `ManifestLaws.RetryRestartsSoak` | internal/control/control.go:394-547 | a manifest that declares another architecture, on which repeating a verified publication starts the soak again |
| `ManifestLaws.SystemUpdateConservesPackages` | internal/control/control.go:394-547 | a System of the same pin changes only the packages' selected System; another pin drops the packages |
| `ManifestLaws.UpdateConservesOtherChannels` | internal/control/control.go:394-547 | no Development publication touches another channel except for its default flag |
| `ManifestLaws.ValidPairIsConsistent` | internal/control/control.go:584-633 | a document that passes the pair check is consistent and has exactly one default channel |
| `ManifestLaws.ValidPairChannels` | internal/control/control.go:584-633 | it holds nothing but Development, Stable and Testing |
| `ManifestLaws.KeepRetainedIsForward` | internal/control/control.go:698-741 | the check before a replacement implies that Stable and Testing only move forward |
| `ManifestLaws.PreservedIsAccepted` | internal/control/control.go:671-692 | a pair merged onto a manifest passes the replacement check against it if and only if the retained channels are complete |
| `ManifestLaws.PreservedIsConsistent` | internal/control/control.go:671-692 | merging two consistent payloads is consistent if and only if it gives no second default |
| `ManifestLaws.PreservedPairIsConsistent` | internal/control/control.go:671-692 | for a freshly signed pair the merge is consistent and moves the default away from Development exactly when Stable held it |
| `ManifestChecks.UpdateAcceptsExactly` | internal/control/control.go:394-481 | a publication is accepted if and only if it announces one well-formed component for a known architecture, packages only for the System that Development has |
| `ManifestChecks.UpdateStoresExactly` | internal/control/control.go:482-547 | what it stores, field by field: nothing new if Development carries it already, otherwise that component unverified, as the only default |
| `ManifestChecks.SealExactly` | internal/control/control.go:105-150 | a seal is accepted if and only if the release is complete and Stable lacks it and it is newer, or Stable has this very release |
| `ManifestChecks.TestingExactly` | internal/control/control.go:161-200 | Testing is replaced if and only if the release is complete, lowers neither version nor generation, and stands beside a default |
| `ManifestChecks.SealedStableCanBeCarried` | internal/control/control.go:584-633 | whatever a seal newly publishes passes the check on retained Stable channels |
| `ManifestChecks.DevelopmentPairExactly` | internal/control/control.go:584-633 | a document is a Development pair if and only if it holds a published, bound pair beside nothing but retained channels, with one default |
| `ManifestChecks.RetainedStableExactly` | internal/control/control.go:635-656 | what a retained Stable is, in terms of its fields |
| `ManifestChecks.KeepRetainedExactly` | internal/control/control.go:698-741 | a replacement passes if and only if Stable is kept or advanced and Testing is kept as published |
| `ManifestChecks.PreservedExactly` | internal/control/control.go:671-692 | which channel the merge takes from where |
| `ObjectStore.Register.PutIfAbsent` | internal/store/s3.go:165-193 | a create is settled by what is stored: an applied one may be reported as not created, and an equal document of another caller as created |
| `ObjectStore.Register.CompareAndSwap` | internal/store/s3.go:195-221 | one conditional write of the expected document; a refused one wrote nothing, a lost reply may hide a write |
| `CommitLoop.CreateIsReportedExactly` | internal/store/s3.go:338-440 | a create is applied at most once; it is applied yet reported as not created exactly when its reply is lost and the deciding look finds it replaced or denies it, and reported without being applied exactly when that look finds an equal document |
| `CommitLoop.EqualDocumentIsClaimed` | internal/store/s3.go:338-440 | a lost create that is reported as created because another caller stored an equal document |
| `CreateOutcomes.ClientIsCreated` | internal/store/s3.go:286-440 | however requests, replies and probes are lost or delayed and whatever others store meanwhile, a create that ends leaves the object, the changes and the reply of the register's create |
| `CreateOutcomes.CreatedIsClient` | internal/store/s3.go:286-440 | each outcome of the register's create is the end of some run of the client, for every limit on attempts |
| `CommitLoop.OwnWritesAreDecisions` | internal/control/qualified.go:85-175 | for every decision and interference, each own write is the decision on the very value it replaced |
| `CommitLoop.EndingIsTrue` | internal/control/qualified.go:85-175 | a reported change is a decision whose document is stored; a report of no change is a decision to keep what is stored |
| `CommitLoop.SettledFailureIsRefusal` | internal/control/qualified.go:85-175 | a commit with an answered, unraced attempt within its limit fails only where it refuses what is stored |
| `CommitLoop.StoredIsRewrittenExactly` | internal/control/qualified.go:85-175 | over a stored object, whether a commit writes is decided by what happens before each of its accesses: every earlier swap raced and answered, one unraced swap that reaches the store |
| `CommitLoop.SecondWriteExactly` | internal/control/qualified.go:85-175 | a commit writes at most twice, and twice if and only if its first attempt creates, the create is applied but reported as not created, and some later attempt, after raced ones only, decides to write and its swap arrives unraced |
| `CommitLoop.QuietWrite` | internal/control/qualified.go:85-175 | the attempts that are left, with nothing else going on, write if and only if they decide to |
| `CommitLoop.ReplacedCreateWritesTwice` | internal/control/qualified.go:85-175 | the run of two writes: created, reply lost, replaced before the look, written again |
| `CommitLoop.CommitIsFaithful` | internal/control/qualified.go:85-175 | the same promises for a decision that carries nothing from attempt to attempt |
| `CommitLoop.UnracedIsDecided` | internal/control/qualified.go:85-175 | a commit that is answered and not raced ends as its decision says, and a decision to write is stored |
| `Publication.PutQualifiedDocument` | internal/control/qualified.go:85-175 | the loop is the commit of its comparison: same stored value, same changes and same report under every interference and lost reply |
| `Publication.ManifestFollowsExactly` | internal/control/qualified.go:118-158 | a manifest may replace another if and only if Stable and Testing are kept, no live component is newer, and at the live generation System and Packages are the same |
| `Publication.ManifestIsWrittenExactly` | internal/control/qualified.go:148-165 | and then it is written unless the live pair has this generation and label already |
| `Publication.ReleaseFollowsExactly` | internal/control/qualified.go:137-158 | a release document gives way to a newer generation alone; another pair of its own generation is refused |
| `Publication.NewerManifestIsStored` | internal/control/qualified.go:85-175 | an unraced commit of a newer generation is stored |
| `Publication.CommitMultiarch` | internal/control/multiarch.go:134-177 | the same for the completion; an invalid completion writes nothing at all |
| `Publication.CompletionFollowsExactly` | internal/control/multiarch.go:134-177 | a completion gives way to a newer generation alone, only if it is valid, and is left alone by itself |
| `PublicationChecks.CompletionExactly` | internal/control/multiarch.go:37-69 | what a valid completion is: both architectures with exactly their three artifacts, every identity a fingerprint |
| `PublicationCommands.CommandChannel` | cmd/fsbuild/main.go:226-280 | the channel command is the commit of its mutation of the payload it read, under every interference and lost reply |
| `PublicationChecks.ChannelDecidesExactly` | cmd/fsbuild/main.go:226-280 | the mutation of what was read is written under the current schema, unless it is refused or changes nothing |
| `PublicationChecks.VerificationIsStored` | cmd/fsbuild/main.go:226-280 | an unraced verification stores exactly the marked component |
| `PublicationCommands.UpdateWritesTwice` | cmd/fsbuild/main.go:226-280 | two publications of different Systems on a new manifest with which one command writes two mutations |
| `PublicationCommands.CommitRepositories` | internal/control/qualified.go:184-200 | the qualified manifest first, then amd64's alias, each the commit of its own decision; a failed first commit never reaches the alias |
| `PublicationCommands.CommitQualified` | internal/control/qualified.go:204-217 | the release document is staged before the manifest is written, which happens only once the live release names exactly the pair; a failed stage leaves the manifest alone |
| `PublicationChecks.QualifiedPairExactly` | internal/control/qualified.go:55-82 | the pair of a staged commit: what the manifest publishes, named by a release document that no component is newer than |
| `PublicationChecks.RepositoriesPairExactly` | internal/control/qualified.go:27-70 | the pair of a repository commit, at the newest of its generations |
| `PublicationCommands.CommitLegacyAMD64` | internal/control/qualified.go:219-228 | the legacy aliases in the same order under the same checks |
| `PublicationCommands.StagedReleaseIsLive` | internal/control/qualified.go:204-217 | after a successful stage the live release names exactly the pair's System and Packages at its generation |
| `Protocol.StepStore` | internal/control/qualified.go:85-175 | a step of any interleaving changes the store by one command's decision on the document it replaces, or not at all |
| `Protocol.StepIsLater` | internal/control/qualified.go:85-175 | every replaced release document or completion is replaced by a newer generation |
| `Protocol.StepIsForward` | internal/control/control.go:698-741 | every step moves Stable and Testing of a manifest only forward while that manifest and the commits to its key are of the current schema |
| `Protocol.WriteIsConsistent` | internal/control/qualified.go:85-175 | every write of every command leaves a consistent manifest |
| `Protocol.PlanIsWellFormed` | internal/control/qualified.go:204-228 | every pending write of a commit carries the pair that its documents were checked to form |
| `Protocol.StagedWrite` | internal/control/qualified.go:204-228 | which documents a staged commit writes, under which keys and in which order |
| `Protocol.RepositoriesWrite` | internal/control/qualified.go:184-200 | the same for a repository commit |
| `ProtocolHistory.ManifestsStayConsistent` | internal/control/control.go:105-257 | in every interleaving a manifest that is consistent at the start never has two defaults, Testing as default, or unbound packages, whatever the other keys hold |
| `ProtocolHistory.StableOnlyMovesForward` | internal/control/control.go:698-781 | over every history of a current-schema manifest a published Stable never disappears, and a changed version has strictly risen |
| `ProtocolHistory.OneIdentityPerStableVersion` | internal/control/control.go:721-741 | over the whole history of such a manifest one Stable version has one component identity |
| `ProtocolHistory.TestingOnlyMovesForward` | internal/control/control.go:161-200 | over every such history Testing's version and newest generation never fall lexicographically |
| `ProtocolHistory.OneDocumentPerGeneration` | internal/control/multiarch.go:134-177 | a generation never has two release documents or two completions |
| `ProtocolHistory.ReleaseStaysAheadOfManifest` | internal/control/qualified.go:204-217 | once a manifest is written behind its release document, the release names exactly its pair at that generation, or is newer, in every later state, with crashes anywhere |
| `ProtocolHistory.OnlyLegacyManifestsLoseRetained` | internal/control/control.go:225-227 | under any manifest key, no schedule of current-schema commits to that key endangers Stable, or Testing, if and only if the stored manifest is of the current schema |
| `ProtocolHistory.OnlyLegacyCommitsLoseRetained` | internal/control/control.go:225-227 | at any moment of any interleaving, a qualified manifest that replaces a current-schema one leaves its Stable, or Testing, safe from the seals that may follow if and only if it is of the current schema itself |
| `ProtocolHistory.LegacyCommitIsAccepted` | internal/control/qualified.go:184-200 | a repository command that has read a current-schema manifest with Stable and installs a v1 document over it |
| `ProtocolHistory.SchemaDoesNotDecide` | internal/control/qualified.go:85-175 | a qualified commit decides the same for a legacy document as for a current one |
| `ProtocolHistory.ManifestGenerationMayFall` | internal/control/qualified.go:27-46 | a qualified commit can lower the manifest's component generation if and only if the release is ahead of both components; repository commits never do |
| `ProtocolHistory.SampleGenerationFalls` | internal/control/qualified.go:27-46 | a manifest and a release that pass the checks and lower a stored generation |
| `DevelopmentCycle.CommitDevelopmentCycle` | internal/control/development_cycle.go:86-173 | the loop, with the progress it carries from attempt to attempt, is the commit of the cycle decision; an invalid cycle writes nothing |
| `DevelopmentCycle.CommitIsGrounded` | internal/control/development_cycle.go:86-173 | every own write is the decision on the replaced cycle, all its progress was reported or read for its very inputs, and an answered, unraced attempt fails only where the decision refuses |
| `DevelopmentCycle.FollowsExactly` | internal/control/development_cycle.go:105-163 | which cycle may follow a stored one: newer once it is published or superseded; at its generation, anything once superseded, a new plan of its pair once published, otherwise the very same inputs |
| `DevelopmentCycle.StoredExactly` | internal/control/development_cycle.go:123-165 | what is stored then: the new cycle, or on the same inputs both sides' progress |
| `DevelopmentCycle.CarriedExactly` | internal/control/development_cycle.go:134-158 | only progress on the very same inputs of a cycle that is not superseded is carried into the next attempt |
| `DevelopmentCycle.NewCycleIsStored` | internal/control/development_cycle.go:86-173 | an unraced commit of a newer generation over a published or superseded cycle is stored |
| `DevelopmentCycle.ValidExactly` | internal/control/development_cycle.go:38-81 | what validation asks: an identity, frozen sources, a plan of this very pair, and both statuses |
| `DevelopmentCycle.SupersededCreateWritesTwice` | internal/control/development_cycle.go:86-173 | a commit that writes twice: its created cycle is superseded before the look, and the second write replaces it |
| `DevelopmentCycle.MergeProgress` | internal/control/development_cycle.go:134-153 | the loop over the architectures computes the merge function |
| `DevelopmentCycle.MergeIsUnion` | internal/control/development_cycle.go:134-153 | the merge keeps both sides' progress, adds none of its own, and stays valid |
| `CycleProtocol.StoredCyclesAreValid` | internal/control/development_cycle.go:38-81 | every cycle ever stored is valid although validation precedes the merge |
| `CycleProtocol.GenerationNeverDecreases` | internal/control/development_cycle.go:86-173 | over every history the stored generation never decreases |
| `CycleProtocol.OpenCycleOnlyProgresses` | internal/control/development_cycle.go:114-165 | while incomplete and unsuperseded, a cycle's inputs do not change and its flags only rise |
| `CycleProtocol.NoProgressLeaks` | internal/control/development_cycle.go:86-173 | every complete or published flag was reported by a commit that started with the very inputs it is stored next to |
| `CycleProtocol.StepIsSound` | internal/control/development_cycle.go:86-173 | every step keeps all carried cycles valid and replaces the stored one only as allowed |
| `ConditionalCreate.Reconcile` | internal/store/s3.go:428-445 | the probe reports ours only for the exact stored content, absent only when nothing is stored |
| `ConditionalCreate.DoConditionalCreate` | internal/store/s3.go:286-426 | success means that the requested content is stored, nothing stored is ever replaced, and fewer lost or retryable tries than attempts always end in a known outcome |
| `ConditionalCreate.PutIfAbsent` | internal/store/s3.go:165-193 | created is reported only for the requested content, exists only for what is stored, and on a calm network one of the two |
| `ConditionalCreate.ReserveGeneration` | internal/control/control.go:259-288 | a returned reservation is the valid one stored for the fingerprint; invalid requests get none |
| `ConditionalCreate.ExponentialRetryDelay` | internal/store/s3.go:572-590 | the doubling loop gives the capped power-of-two delay and never leaves 64 bits |
| `ReservationProtocol.StepAgrees` | internal/store/s3.go:286-426 | every step of every proposer keeps agreement with the store, and no stored reservation or final answer changes |
| `ReservationProtocol.ReservationsAgree` | internal/control/control.go:259-288 | all successful reservations of a fingerprint return one generation, for any proposers and any network behaviour |
| `ReservationProtocol.ReservedIsUsable` | internal/control/control.go:259-288 | whatever a proposer is given is of its fingerprint and never generation zero |
| `ReservationProtocol.ResultsAreFinal` | internal/control/control.go:259-288 | what is stored and what a proposer was told never change afterwards |
| `ReservationProtocol.CreatedIsReportedExactly` | internal/store/s3.go:286-426 | among any proposers and from any stored value, a proposer with a result is told that it created it if and only if it heard its create land or a probe was answered with what it wants, and the contrary if and only if its create was taken for another's |
| `ReservationProtocol.AloneGetsItsOwn` | internal/control/control.go:259-288 | the only result of a lone proposer is its own reservation, however it is reported |
| `ReservationProtocol.DeniedReplayLandedLate` | internal/store/s3.go:309-411 | a lone proposer denied with nothing unresolved had a probe that found nothing: the stored create landed after it |
| `ReservationProtocol.LateCreateIsDenied` | internal/store/s3.go:309-411 | a run in which the proposer's own create lands after its probe and it is told that it created nothing |
| `ReservationProtocol.UnansweredCreateIsDenied` | internal/store/s3.go:309-411 | a second denied run, without any late create: the probe behind the 412 is lost |
| `CreateClient.ReplaysExactly` | internal/store/s3.go:501-516 | a probe is followed by a replay if and only if it found nothing or failed, its status asks for a retry, and attempts remain |
| `CreateClient.MayRetryExactly` | internal/store/s3.go:501-570 | another try exactly below the limit on attempts, for no status or a retryable one |
| `CreateClient.AnswersExactly` | internal/store/s3.go:309-426 | which answers settle a create and which are asked about |
| `ReservationProtocol.UnconfirmedReplayExactly` | internal/store/s3.go:501-516 | a create that is already stored is replayed if and only if the probe was not answered at all |
| `ReservationProtocol.AppliedCreateIsReplayed` | internal/store/s3.go:309-411 | two events after which an applied create goes out again |
| `ListScheduling.GreedyBound` | scripts/partition_roots.py:38-45 | m * load is at most total + (m - 1) * largest for the greedy assignment |
| `ListScheduling.GreedyIsTwoApproximate` | scripts/partition_roots.py:38-45 | no other assignment is better than a factor 2 - 1/m |
| `ListScheduling.LargestFirstIsFourThirdsApproximate` | scripts/partition_roots.py:38-45 | in descending order the factor is 4/3 - 1/(3m) |
| `ListScheduling.FirstFitIsUnique` | scripts/partition_roots.py:38-45 | choosing the first least loaded shard determines the assignment |
| `Partition.Join` | scripts/partition_roots.py:27-37 | joining one root to the groups it overlaps turns components of a scope into components of the wider scope |
| `Partition.ComponentsAreConnectivity` | scripts/partition_roots.py:27-37 | two roots share a group if and only if a chain of overlapping closures joins them |
| `Partition.SortGroups` | scripts/partition_roots.py:38 | the groups in balancing order, none lost |
| `ShardPlan.Plan` | scripts/partition_roots.py:11-45 | accepts exactly the valid inputs and returns a plan of them |
| `ShardPlan.Merge` | scripts/partition_roots.py:27-37 | the merge loop builds exactly the components of the light roots |
| `ShardPlan.Place` | scripts/partition_roots.py:38-45 | heavy roots alone, every group on the first least loaded shard |
| `ShardPlan.LeastLoadedShard` | scripts/partition_roots.py:41-42 | the first index of least load in the light range |
| `ShardPlan.EachRootStandsOnce` | scripts/partition_roots.py:11-45 | every requested root stands in exactly one place of one shard, and nothing else does |
| `ShardPlan.HeavyRootsStandAlone` | scripts/partition_roots.py:11-45 | a heavy root has a shard to itself |
| `ShardPlan.ShardsAreIndependent` | scripts/partition_roots.py:11-45 | light roots of different shards have disjoint closures and are not connected through others |
| `ShardPlan.SharedDependencyMeansOneShard` | scripts/partition_roots.py:27-37 | two light roots that the closures of the policy give a common package stand on one shard |
| `ShardPlan.PlanIsBalanced` | scripts/partition_roots.py:38-45 | both balance bounds against any whole-group assignment |
| `ShardPlan.CostIsMeasured` | scripts/partition_roots.py:38-45 | a list of roots costs what was measured of them plus the default for each of the others |
| `ShardPlan.BalanceNeedsNonNegativeCosts` | scripts/partition_roots.py:38-45 | a policy keeps the balance bound on every root set if and only if it gives no root a negative cost |
| `ShardPlan.PairBreaksBound` | scripts/partition_roots.py:38-45 | two unconnected roots, one of negative and one of positive cost, exceed the bound on two shards |
| `ShardPlan.PlanIsDeterministic` | scripts/partition_roots.py:11-45 | the plan depends on the set of roots alone |
| `Batches.CutBatches` | scripts/partition_roots.py:48-72 | the increments cut the roots in order into legal batches and no root was turned away from a batch it fitted |
| `Batches.FewestBatches` | scripts/partition_roots.py:48-72 | no order-preserving legal cut has fewer batches |
| `Batches.WorkIsMeasured` | scripts/partition_roots.py:48-66 | the work of a batch is what was measured of its roots plus the default for each of the others |
| `Batches.CumulativeGrows` | scripts/partition_roots.py:48-72 | the cumulative lists are strictly growing prefixes that end with all roots |
| `Batches.ChainConservesPackages` | scripts/batch_checkpoint.py:26-41 | along a validated chain a completed package keeps its digest and batches are consecutive |
| `Batches.NextCheckpointExactly` | scripts/batch_checkpoint.py:26-41 | a marker follows another if and only if it is sound, one batch later, and holds every root and every package of it unchanged |
| `Batches.DigestsAreInventory` | scripts/batch_checkpoint.py:26-41 | the digest map of a unique inventory is that inventory |
| `Batches.CutFeedsChain` | scripts/partition_roots.py:48-72 | the cumulative lists always satisfy the root condition of the chain |
| `DependencyOrder.Resolver.Visit` | scripts/resolve_worker_tools.py:245-280 | the recursive walk lists the package after its dependencies, or returns a real defect; its stack is a path of the graph |
| `DependencyOrder.ResolveOrder` | scripts/resolve_worker_tools.py:236-284 | succeeds if and only if the closure is present, unambiguous, consistent and acyclic, and then lists exactly the reachable packages, once each, dependencies first |
| `DependencyOrder.OrderResolves` | scripts/resolve_worker_tools.py:236-284 | a listing with the roots and dependencies first contains the whole closure and proves it free of defects |
| `DependencyOrder.RealIsUnresolvable` | scripts/resolve_worker_tools.py:236-284 | each reported failure, a cycle included, is a defect of the closure |
| `DependencyOrder.CycleIsReal` | scripts/resolve_worker_tools.py:256-258 | the reported cycle is a closed path of the graph |
| `Provenance.Builder.EffectiveDigest` | scripts/package_provenance.py:117-136 | the memoised recursion returns the digest of the plain one, or a real cycle or an unusable record |
| `Provenance.Build` | scripts/package_provenance.py:79-144 | returns if and only if the records are usable and acyclic, with the plain recursion's provenance for every package |
| `Provenance.DigestIsUnique` | scripts/package_provenance.py:120-136 | an inventory gives a package one digest |
| `Provenance.CyclesHaveNoDigest` | scripts/package_provenance.py:123-124 | a package on a cycle has none |
| `Provenance.VisitingOrderIsIrrelevant` | scripts/package_provenance.py:138-142 | the order of visits shows in no provenance |
| `Provenance.SameDigestSameClosure` | scripts/package_provenance.py:120-136 | equal digests in two inventories mean equal records and digests for every transitive dependency |
| `Provenance.DigestIsClosure` | scripts/package_provenance.py:120-136 | two inventories give a package the same digest if and only if they agree on it and everything below it |
| `PackageReuse.Select` | scripts/package_provenance.py:147-167 | accepted and rejected split the current packages, accepted exactly on a match under either digest style |
| `PackageReuse.AcceptedIsAgreement` | scripts/freesense_reuse.py:32-52 | a package is reused if and only if the pin is unchanged, it is not kernel-coupled, and the inventories agree on its closure |
| `PackageReuse.ReuseCoversClosure` | scripts/package_provenance.py:147-167 | every transitive dependency of a reused package was built alike in the previous repository |
| `SeedMerge.MergeSeeds` | scripts/freesense_reuse.py:68-88 | a name is kept, from its first record, if and only if all its records have one identity; otherwise it is rejected for good |
| `SeedMerge.OfficialComesFirst` | scripts/freesense_reuse.py:68-88 | the record that a name is kept from is official if and only if there is an official one |
| `ZBase32.Zbase32` | scripts/resolve_worker_tools.py:369-402 | the loop with its carry emits exactly the least-significant-first base-32 digits of the little-endian number |
| `ZBase32.OrAdds` | scripts/resolve_worker_tools.py:379-394 | the bitwise or with a shifted byte is a sum because no bit is set on both sides |
| `ZBase32.EncodedValues` | scripts/resolve_worker_tools.py:369-402 | ceil(8n/5) digits, and together they spell the whole number |
| `ZBase32.DecodeEncode` | scripts/resolve_worker_tools.py:369-402 | the text alone gives the bytes back |
| `ZBase32.EncodeIsInjective` | scripts/resolve_worker_tools.py:369-402 | different digests have different texts, of any lengths |
| `Checksums.EncodedChecksumParses` | scripts/resolve_worker_tools.py:116-136 | the encoder's output for a digest of types 0, 2 and 5 always passes the checksum syntax |
| `Checksums.ParsesExactly` | scripts/resolve_worker_tools.py:116-136 | a text parses as a type and a digest if and only if it is a bare hexadecimal one or both around one dollar sign, with the length and alphabet of the type |
| `Checksums.ChecksumIdentifies` | scripts/resolve_worker_tools.py:427-443 | a download passes if and only if it has the recorded digest |
| `DeltaClosure.Published` | scripts/delta_closure.py:57-71 | the index holds exactly the names with one catalogue entry, with that entry |
| `DeltaClosure.Classify` | scripts/delta_closure.py:124-142 | the first reason that applies to each package, and no package without one |
| `DeltaClosure.FirstReasonExactly` | scripts/delta_closure.py:124-142 | the reason given applies and none before it does; without one, none applies |
| `DeltaClosure.Dependents` | scripts/delta_closure.py:145-158 | the worklist ends with the least set that holds the customized packages and all dependents of its members |
| `DeltaClosure.Reachable` | scripts/delta_closure.py:161-170 | the least set that holds the roots and the dependencies of its members |
| `DeltaClosure.Plan` | scripts/delta_closure.py:186-226 | the plan's layers, components, collisions and churn |
| `DeltaClosure.ComplementIsGreatestMirror` | scripts/delta_closure.py:186-226 | build is the least delta if and only if take is the greatest dependency-closed set of uncustomized packages |
| `DeltaClosure.MirrorIsClosed` | scripts/delta_closure.py:186-226 | no mirrored package depends on one that FreeSense builds |
| `DeltaClosure.PlanIsDeterministic` | scripts/delta_closure.py:186-226 | no iteration order shows in the plan |
| `MirrorPlan.Plan` | scripts/mirror_plan.py:162-212 | succeeds if and only if nothing refuses, and then serves exactly take with its catalogue entries |
| `MirrorPlan.UsableExactly` | scripts/mirror_plan.py:162-212 | an entry is served only with content and a checksum that parses |
| `MirrorPlan.MirrorFindsItsPackages` | scripts/mirror_plan.py:162-178 | on the catalogue of the delta, take is always published and never on both layers |
| `BinarySeed.Select` | scripts/binary_seed.py:68-135 | the selection is the greatest dependency-closed set of eligible packages; errors exactly on malformed or ambiguous input |
| `BinarySeed.Prune` | scripts/binary_seed.py:123-132 | removal to a fixed point terminates with the greatest closed subset |
| `BinarySeed.Match` | scripts/binary_seed.py:106-122 | the first selection holds exactly the packages whose official record equals the request |
| `BinarySeed.EligibleExactly` | scripts/binary_seed.py:106-122 | a name is eligible if and only if it is no source-only request and some official package has everything asked for |
| `BinarySeed.SelectedDependenciesMatch` | scripts/binary_seed.py:68-135 | every selected package finds its dependencies selected at the recorded version and origin |
| `BinarySeed.PartitionUpToRust` | scripts/binary_seed.py:133-134 | the two sides cover the requested names exactly up to the row for rust, and overlap in rust if and only if its request has another origin and can be met from the catalogue |
| `BinarySeed.ForeignRustIsOnBothSides` | scripts/binary_seed.py:133-134 | a request and a catalogue on which rust is both accepted and rejected |
| `BinarySeed.SelectionIsUnique` | scripts/binary_seed.py:68-135 | requirements and catalogue determine the selection |
| `RetentionClosure.CollectHashes` | scripts/r2_retention.py:449-460 | collects exactly the hashes named anywhere in a document |
| `RetentionClosure.NamesExactly` | scripts/r2_retention.py:449-460 | a document names a hash if and only if some text at any depth of it spells the hash or its input |
| `RetentionClosure.ProtectReferences` | scripts/r2_retention.py:903-927 | the loop ends with the least superset of the roots closed under references |
| `RetentionClosure.BuildCandidates` | scripts/r2_retention.py:929-967 | the candidates are exactly the expired unprotected artifacts and the old inputs nobody names |
| `RetentionClosure.CandidatesExactly` | scripts/r2_retention.py:935-967 | a group is a candidate if and only if it is unprotected and every object is at most as new as its cutoff; an input if it is unnamed and as old as an orphan |
| `RetentionClosure.ReferencesExactly` | scripts/r2_retention.py:903-927 | what a marker refers to, by the texts at the paths that name Systems, trains and Packages |
| `RetentionClosure.CandidatesAreUnreferenced` | scripts/r2_retention.py:903-967 | no candidate is an artifact or input that a protected completion marker refers to |
| `DeletionBatch.SelectOldest` | scripts/r2_retention.py:627-649 | in every bucket the oldest groups that fit, the next one not fitting, both lists in order |
| `DeletionBatch.OlderAreTakenFirst` | scripts/r2_retention.py:587-600 | nothing of a bucket is deleted before something older in it |
| `DeletionBatch.PlannableExactly` | scripts/r2_retention.py:545-607 | what can be planned: named groups, each within the caps, none with the bucket, prefix and keys of another |
| `DeletionBatch.SelectDeletionBatch` | scripts/r2_retention.py:587-649 | returns the batch that the rules determine, or fails when some group cannot be planned or the recorded batch no longer fits |
| `DeletionBatch.PinnedConserves` | scripts/r2_retention.py:607-614 | the recorded batch and the rest are together exactly the candidates |
| `DeletionConfirmation.ReadyWasObserved` | scripts/r2_retention.py:1137-1186 | ready means that the identical set was recorded at least twenty hours before, with no other set stored between |
| `DeletionConfirmation.SpanGrows` | scripts/r2_retention.py:1137-1186 | last minus first is always at least (observations - 1) * 20 hours |
| `DeletionConfirmation.ObservationsAreRuns` | scripts/r2_retention.py:1137-1186 | every counted observation is a run of its own, twenty hours after the one before |
| `DeletionConfirmation.SteadySetBecomesReady` | scripts/r2_retention.py:1137-1186 | a set seen for twenty hours on end is ready at some run in that time |
| `DeletionConfirmation.PinnedBatchStays` | scripts/r2_retention.py:566-649 | while its groups stay eligible, nothing newly eligible changes the batch |
| `DeletionConfirmation.PinnedBatchBecomesReady` | scripts/r2_retention.py:566-649 | a pinned batch gets its second observation within twenty hours of runs |
| `DeletionConfirmation.PinnedRunPlans` | scripts/r2_retention.py:601-625 | a run whose recorded batch is still eligible fails only if the eligible groups cannot be planned |
| `DeletionConfirmation.OversizeGroupFailsPinnedRun` | scripts/r2_retention.py:601-649 | a batch that would be planned again, and a group above the caps beside it that fails the run |
| `DeletionConfirmation.RecordedGroupsAreDistinct` | scripts/r2_retention.py:566-584 | what a run records is always readable by the next |
| `JobTimings.Sweep` | scripts/multiarch_job_timings.py:76-79 | the running maximum is the largest number of jobs active at one instant, ties included |
| `JobTimings.PrefixIsBounded` | scripts/multiarch_job_timings.py:76-79 | no prefix of the sweep counts more than some instant does |
| `JobTimings.SumToCountsActive` | scripts/multiarch_job_timings.py:72-73 | the changes up to an instant count the jobs that started and have not ended |
| `JobTimings.Verify` | scripts/multiarch_job_timings.py:22-86 | accepts exactly sound evidence with fewer than twenty concurrent hosted jobs, and returns the peak, at least one |
| `JobTimings.JudgesExactly` | scripts/multiarch_job_timings.py:44-71 | which jobs are passed over and which count, with which start, end and runner |
| `JobTimings.SweepCountsRunning` | scripts/multiarch_job_timings.py:44-79 | what the sweep counts at an instant are the completed jobs that occupy a hosted runner then |

## Left out

- Signing, verification and key parsing, JSON text and its duplicate-key checks: ideal.
- HTTP, request signing, presigned links, headers, error bodies and Retry-After waits: only outcome classes are modelled.
- The local store's lock files and stale-lock takeover: file-system timing.
- The credential broker and credential exchange: authorization policy and network clients.
- The document validators and planners outside the modules above, the shell stages and workflow files: single-branch checks and foreign calls.
- ManifestDocument.Document.Update: artifact links are accepted in the canonical spelling only, because the URL parser of the Go library is not part of this model; components are values in the model, so aliasing between two channels that share a component object is not captured; the source never makes two channels share one.
- Generations and OS versions are unbounded naturals; the 64-bit scan of version digits is modelled, wrap-around of counters is not.
- Publication times and the soak clock: a time is an opaque value carried by the component.
- ConditionalCreate.DoConditionalCreate: retry waits and context deadlines are outcomes of the environment, not durations.
- ObjectStore.Register.PutIfAbsent: a create that reaches the store only after its command has failed is not in the register; the interleavings of `Protocol` have lost writes that land later, and `ReservationProtocol` has creates under way.
- ObjectStore.Register.CompareAndSwap: an ETag is the content itself, so two equal documents written at different times are the same version.
- ShardPlan.Plan: origins are ranks in the sorted order of all origins; JSON number parsing and float costs are not part of the model.
- Partition.Join: groups are sets of roots, so the Python list merge in place is a merge of sets and the order of the list before sorting is not captured.
- Batches.ChainConservesPackages: marker identity fields other than batch, roots and packages are compared outside the model.
- DependencyOrder.ResolveOrder: parsing of catalogue lines, repository paths, ports commit selection and ABI checks are left out as easy members.
- Provenance.Build: hashing of port directories, patches and make configuration is an opaque text input; the dependency dictionary is its sorted listing.
- PackageReuse.Select: reasons for a rejection are not modelled.
- Checksums.ChecksumIdentifies: the hexadecimal checksum types and the file and size checks around a download are left out as single comparisons.
- ZBase32.Zbase32: masks and shifts are written as remainders, quotients and products by powers of two; the bitwise or is modelled bit by bit.
- DeltaClosure.Classify: the tests on name and origin prefixes are one explicit flag; malformed flags raise before this point.
- MirrorPlan.Plan: component roots, file names and the safe-name patterns of entries are left out as field checks.
- BinarySeed.Select: the source-only test is one flag per requirement; option and dependency records are in their normal form.
- RetentionClosure.ProtectReferences: how the root set is chosen (kept generations, mirrors, withdrawn releases) is an input, and downloads and smoke objects are not modelled.
- DeletionConfirmation.ReadyWasObserved: the deletion request itself and the applied flag of the state, which no later run reads, are left out.
- JobTimings.Verify: times are whole seconds, and the per-job duration report is not returned.
