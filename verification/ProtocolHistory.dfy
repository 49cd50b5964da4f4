/** Safety of the control plane over whole runs: every schedule, every two moments of it. */
module ProtocolHistory {
  import opened Wrappers
  import opened Versions
  import opened CommitLoop
  import opened Manifest
  import opened ManifestLaws
  import opened Publication
  import opened Protocol

  /** Any store contents, nothing running. */
  predicate Initial(s: State) {
    s.processes == map[] && s.flight == []
  }

  /** The state after the first n events. */
  function At(s: State, schedule: seq<Event>, n: nat): State
    requires n <= |schedule|
  {
    Run(s, schedule[..n])
  }

  lemma AtSuccessor(s: State, schedule: seq<Event>, n: nat)
    requires n < |schedule|
    ensures At(s, schedule, n + 1) == Step(At(s, schedule, n), schedule[n])
  {
    assert schedule[..n + 1][..n] == schedule[..n];
  }

  lemma {:induction false} AtIsWellFormed(s: State, schedule: seq<Event>, n: nat)
    requires Initial(s) && n <= |schedule|
    ensures WellFormed(At(s, schedule, n))
  {
    hide Step, WellFormedTask;
    if n == 0 {
    } else {
      AtIsWellFormed(s, schedule, n - 1);
      AtSuccessor(s, schedule, n - 1);
      StepKeepsWellFormed(At(s, schedule, n - 1), schedule[n - 1]);
    }
  }

  /**
  No writer ever leaves a consistent manifest with two defaults, Testing as the default, or packages
  that are not bound to their channel's System and pin, whatever is stored under the other keys.
  */
  lemma {:induction false} ManifestsStayConsistent(s: State, schedule: seq<Event>, key: Key, n: nat)
    requires Initial(s) && ConsistentAt(s, key) && n <= |schedule|
    ensures ConsistentAt(At(s, schedule, n), key)
  {
    hide Step, Consistent, WellFormed;
    if n == 0 {
    } else {
      ManifestsStayConsistent(s, schedule, key, n - 1);
      AtIsWellFormed(s, schedule, n - 1);
      AtSuccessor(s, schedule, n - 1);
      StepKeepsConsistent(At(s, schedule, n - 1), schedule[n - 1], key);
    }
  }

  lemma {:induction false} AtIsModern(s: State, schedule: seq<Event>, key: Key, n: nat)
    requires Initial(s) && Modern(s, key) && ModernSchedule(schedule, key) && n <= |schedule|
    ensures Modern(At(s, schedule, n), key)
  {
    hide Step, ModernCall, Modern;
    if n == 0 {
    } else {
      AtIsModern(s, schedule, key, n - 1);
      AtSuccessor(s, schedule, n - 1);
      StepKeepsModern(At(s, schedule, n - 1), schedule[n - 1], key);
    }
  }

  lemma LaterIsTransitive(a: map<Key, Document>, b: map<Key, Document>, c: map<Key, Document>)
    requires StoreLater(a, b) && StoreLater(b, c)
    ensures StoreLater(a, c)
  {
  }

  lemma StoreForwardIsTransitive(a: map<Key, Document>, b: map<Key, Document>, c: map<Key, Document>, key: Key)
    requires StoreForward(a, b, key) && StoreForward(b, c, key)
    ensures StoreForward(a, c, key)
  {
    hide Forward;
    if key in a && a[key].ManifestDoc? {
      ForwardIsTransitive(a[key].payload, b[key].payload, c[key].payload);
    }
  }

  lemma {:induction false} RunIsLater(s: State, schedule: seq<Event>, i: nat, j: nat)
    requires Initial(s) && i <= j <= |schedule|
    ensures StoreLater(At(s, schedule, i).store, At(s, schedule, j).store)
    decreases j - i
  {
    hide Step, WellFormed;
    if i == j {
    } else {
      RunIsLater(s, schedule, i, j - 1);
      AtIsWellFormed(s, schedule, j - 1);
      AtSuccessor(s, schedule, j - 1);
      StepIsLater(At(s, schedule, j - 1), schedule[j - 1]);
      LaterIsTransitive(At(s, schedule, i).store, At(s, schedule, j - 1).store, At(s, schedule, j).store);
    }
  }

  lemma {:induction false} RunIsForward(s: State, schedule: seq<Event>, key: Key, i: nat, j: nat)
    requires Initial(s) && Modern(s, key) && ModernSchedule(schedule, key) && i <= j <= |schedule|
    ensures StoreForward(At(s, schedule, i).store, At(s, schedule, j).store, key)
    decreases j - i
  {
    hide Step, WellFormed, Modern, ModernSchedule, Forward;
    if i == j {
      var store := At(s, schedule, i).store;
      if key in store && store[key].ManifestDoc? {
        ForwardIsReflexive(store[key].payload);
      }
    } else {
      RunIsForward(s, schedule, key, i, j - 1);
      AtIsWellFormed(s, schedule, j - 1);
      AtIsModern(s, schedule, key, j - 1);
      AtSuccessor(s, schedule, j - 1);
      StepIsForward(At(s, schedule, j - 1), schedule[j - 1], key);
      StoreForwardIsTransitive(At(s, schedule, i).store, At(s, schedule, j - 1).store, At(s, schedule, j).store, key);
    }
  }

  /** The stored manifest of a key at some moment publishes Stable. */
  predicate PublishesStable(s: State, key: Key) {
    key in s.store && s.store[key].ManifestDoc? && "stable" in s.store[key].payload.channels
  }

  function StableRelease(s: State, key: Key): Release
    requires PublishesStable(s, key)
  {
    ReleaseOf(s.store[key].payload.channels["stable"])
  }

  /**
  Stable, once published, never disappears again, and whenever its version changes the version
  triple has strictly risen.
  */
  lemma StableOnlyMovesForward(s: State, schedule: seq<Event>, key: Key, i: nat, j: nat)
    requires Initial(s) && Modern(s, key) && ModernSchedule(schedule, key)
    requires i <= j <= |schedule| && PublishesStable(At(s, schedule, i), key)
    ensures PublishesStable(At(s, schedule, j), key)
    ensures var was, now := StableRelease(At(s, schedule, i), key), StableRelease(At(s, schedule, j), key);
      || was == now
      || (Match(was.version).Some? && Match(now.version).Some?
          && Below(Numbers(Match(was.version).value), Numbers(Match(now.version).value)))
  {
    hide Run, Modern, ModernSchedule, TestingForward;
    RunIsForward(s, schedule, key, i, j);
  }

  /** Over the whole history, one Stable version has one component identity. */
  lemma OneIdentityPerStableVersion(s: State, schedule: seq<Event>, key: Key, i: nat, j: nat)
    requires Initial(s) && Modern(s, key) && ModernSchedule(schedule, key)
    requires i <= |schedule| && j <= |schedule|
    requires PublishesStable(At(s, schedule, i), key) && PublishesStable(At(s, schedule, j), key)
    requires StableRelease(At(s, schedule, i), key).version == StableRelease(At(s, schedule, j), key).version
    ensures StableRelease(At(s, schedule, i), key) == StableRelease(At(s, schedule, j), key)
  {
    hide Run, Modern, ModernSchedule;
    if i <= j {
      StableOnlyMovesForward(s, schedule, key, i, j);
    } else {
      StableOnlyMovesForward(s, schedule, key, j, i);
    }
  }

  /** Testing stays once published, and its (version, newest component generation) never falls. */
  lemma TestingOnlyMovesForward(s: State, schedule: seq<Event>, key: Key, i: nat, j: nat)
    requires Initial(s) && Modern(s, key) && ModernSchedule(schedule, key) && i <= j <= |schedule|
    requires key in At(s, schedule, i).store && At(s, schedule, i).store[key].ManifestDoc?
    ensures key in At(s, schedule, j).store && At(s, schedule, j).store[key].ManifestDoc?
    ensures TestingForward(At(s, schedule, i).store[key].payload, At(s, schedule, j).store[key].payload)
  {
    hide Run, Modern, ModernSchedule, StableForward, TestingForward;
    RunIsForward(s, schedule, key, i, j);
  }

  function GenerationOf(d: Document): nat
    requires !d.ManifestDoc?
  {
    if d.ReleaseDoc? then d.release.generation else d.completion.generation
  }

  /** A generation never has two release documents, nor two completions. */
  lemma OneDocumentPerGeneration(s: State, schedule: seq<Event>, key: Key, i: nat, j: nat)
    requires Initial(s) && i <= |schedule| && j <= |schedule|
    requires key in At(s, schedule, i).store && key in At(s, schedule, j).store
    requires !At(s, schedule, i).store[key].ManifestDoc? && !At(s, schedule, j).store[key].ManifestDoc?
    requires GenerationOf(At(s, schedule, i).store[key]) == GenerationOf(At(s, schedule, j).store[key])
    ensures At(s, schedule, i).store[key] == At(s, schedule, j).store[key]
  {
    hide Run;
    if i <= j {
      RunIsLater(s, schedule, i, j);
    } else {
      RunIsLater(s, schedule, j, i);
    }
  }

  // ---------------------------------------------------------------- the release before its manifest

  /** The release names exactly this System and these Packages at the generation, or is newer. */
  predicate ReleasedAt(store: map<Key, Document>, key: Key, generation: nat, system: string, packages: string) {
    && key in store && store[key].ReleaseDoc?
    && var release := store[key].release;
    || release.generation > generation
    || (release.generation == generation && release.system == system && release.packages == packages)
  }

  predicate PairReleased(store: map<Key, Document>, key: Key, pair: Pair) {
    ReleasedAt(store, key, pair.generation, pair.system, pair.packages)
  }

  /** A manifest that was staged behind a release document is only ever written after it. */
  predicate Staged(store: map<Key, Document>, t: Task) {
    t.Put? && t.staged.Some? ==> PairReleased(store, t.staged.value, t.pair)
  }

  /** A staged manifest directly follows the write of its own release document. */
  ghost predicate FollowsRelease(tasks: seq<Task>) {
    forall i :: 0 < i < |tasks| && tasks[i].Put? && tasks[i].staged.Some? ==>
      && tasks[i - 1].Put? && !tasks[i - 1].signed
      && tasks[i - 1].key == tasks[i].staged.value && tasks[i - 1].pair == tasks[i].pair
  }

  ghost predicate OrderedProcess(store: map<Key, Document>, p: Process) {
    && FollowsRelease(p.tasks)
    && (p.tasks != [] ==> Staged(store, p.tasks[0]))
    && (p.tasks != [] && p.phase.Seen? && p.phase.current.Some? && p.phase.current.value.ReleaseDoc? ==>
          var seen := p.phase.current.value.release;
          ReleasedAt(store, KeyOf(p.tasks[0]), seen.generation, seen.system, seen.packages))
  }

  ghost predicate Ordered(s: State) {
    && (forall id :: id in s.processes ==> OrderedProcess(s.store, s.processes[id]))
    && (forall i :: 0 <= i < |s.flight| ==> Staged(s.store, s.flight[i].task))
  }

  lemma PlanIsOrdered(store: map<Key, Document>, call: Call)
    requires Plan(call).Some?
    ensures OrderedProcess(store, Process(Plan(call).value, Ready))
  {
    hide RepositoriesPair;
  }

  lemma LaterKeepsOrder(a: map<Key, Document>, b: map<Key, Document>, p: Process)
    requires StoreLater(a, b) && OrderedProcess(a, p)
    ensures OrderedProcess(b, p)
  {
    hide FollowsRelease;
  }

  /** Done with a release document, either way, means it is live for the pair. */
  lemma DoneIsReleased(store: map<Key, Document>, t: Task, current: Option<Document>)
    requires WellFormedTask(t) && t.Put? && !t.signed
    requires current.Some? && current.value.ReleaseDoc? ==>
      var seen := current.value.release; ReleasedAt(store, t.key, seen.generation, seen.system, seen.packages)
    requires DecideTask(t, current) == Keep
    ensures PairReleased(store, t.key, t.pair)
  {
  }

  lemma RestIsOrdered(store: map<Key, Document>, p: Process)
    requires p.tasks != [] && OrderedProcess(store, p)
    requires p.tasks[0].Put? && !p.tasks[0].signed ==> PairReleased(store, p.tasks[0].key, p.tasks[0].pair)
    ensures OrderedProcess(store, Process(p.tasks[1..], Ready))
  {
    forall i | 0 < i < |p.tasks[1..]| && p.tasks[1..][i].Put? && p.tasks[1..][i].staged.Some?
      ensures p.tasks[1..][i - 1].Put? && !p.tasks[1..][i - 1].signed
        && p.tasks[1..][i - 1].key == p.tasks[1..][i].staged.value
        && p.tasks[1..][i - 1].pair == p.tasks[1..][i].pair
    {
      assert p.tasks[1..][i] == p.tasks[i + 1] && p.tasks[1..][i - 1] == p.tasks[i];
    }
  }

  lemma SettledIsOrdered(s: State, id: nat)
    requires WellFormed(s) && Ordered(s) && HasSeen(s, id) && Settled(s, id).Some?
    ensures OrderedProcess(s.store, Settled(s, id).value)
  {
    hide DecideTask, FollowsRelease;
    var p := s.processes[id];
    assert WellFormedTask(p.tasks[0]);
    if SeenDecision(s, id).Keep? {
      if p.tasks[0].Put? && !p.tasks[0].signed {
        DoneIsReleased(s.store, p.tasks[0], p.phase.current);
      }
      RestIsOrdered(s.store, p);
    }
  }

  lemma SwappedIsOrdered(s: State, id: nat, reply: Reply)
    requires WellFormed(s) && Ordered(s) && HasSeen(s, id) && SeenDecision(s, id).Write?
    requires Swapped(s, id, reply).Some?
    ensures OrderedProcess(Step(s, Swap(id, reply)).store, Swapped(s, id, reply).value)
  {
    hide FollowsRelease, Step;
    var p, e := s.processes[id], Swap(id, reply);
    var after := Step(s, e).store;
    StepIsLater(s, e);
    LaterKeepsOrder(s.store, after, p);
    assert WellFormedTask(p.tasks[0]);
    StepStore(s, e);
    if reply.Confirmed? && Applied(s, e).Some? {
      RestIsOrdered(after, p);
    }
  }

  lemma StepKeepsOrdered(s: State, e: Event)
    requires WellFormed(s) && Ordered(s)
    ensures Ordered(Step(s, e))
  {
    hide DecideTask, WellFormed, FollowsRelease, Later, Plan, Settled, Swapped, Applied, StoreAfter;
    StepIsLater(s, e);
    var after := Step(s, e);
    forall id | id in s.processes ensures OrderedProcess(after.store, s.processes[id]) {
      LaterKeepsOrder(s.store, after.store, s.processes[id]);
    }
    forall i | 0 <= i < |s.flight| ensures Staged(after.store, s.flight[i].task) {
      StagedIsKept(s.store, after.store, s.flight[i].task);
    }
    match e
    case Start(id, call) =>
      if Plan(call).Some? {
        PlanIsOrdered(after.store, call);
      }
    case Settle(id) =>
      if HasSeen(s, id) && Settled(s, id).Some? {
        SettledIsOrdered(s, id);
      }
    case Swap(id, reply) =>
      if HasSeen(s, id) && SeenDecision(s, id).Write? && Swapped(s, id, reply).Some? {
        SwappedIsOrdered(s, id, reply);
      }
    case Read(_) =>
    case Deliver(_) =>
    case Crash(_) =>
  }

  lemma StagedIsKept(a: map<Key, Document>, b: map<Key, Document>, t: Task)
    requires StoreLater(a, b) && Staged(a, t)
    ensures Staged(b, t)
  {
  }

  lemma {:induction false} AtIsOrdered(s: State, schedule: seq<Event>, n: nat)
    requires Initial(s) && n <= |schedule|
    ensures Ordered(At(s, schedule, n))
  {
    hide Step, WellFormed;
    if n == 0 {
    } else {
      AtIsOrdered(s, schedule, n - 1);
      AtIsWellFormed(s, schedule, n - 1);
      AtSuccessor(s, schedule, n - 1);
      StepKeepsOrdered(At(s, schedule, n - 1), schedule[n - 1]);
    }
  }

  lemma AppliedIsStaged(s: State, e: Event)
    requires Ordered(s) && Applied(s, e).Some?
    ensures Staged(s.store, Applied(s, e).value)
  {
    hide DecideTask, FollowsRelease;
  }

  /**
  Once a qualified commit has put its manifest into the store, the release document names exactly its
  pair at the pair's generation, or is newer: at that moment and in every later state, whatever crashed
  or landed late.
  */
  lemma ReleaseStaysAheadOfManifest(s: State, schedule: seq<Event>, i: nat, j: nat)
    requires Initial(s) && i < j <= |schedule|
    requires Applied(At(s, schedule, i), schedule[i]).Some?
    requires Applied(At(s, schedule, i), schedule[i]).value.Put?
    requires Applied(At(s, schedule, i), schedule[i]).value.staged.Some?
    ensures var t := Applied(At(s, schedule, i), schedule[i]).value;
      PairReleased(At(s, schedule, j).store, t.staged.value, t.pair)
  {
    hide Run, Applied, Ordered;
    AtIsOrdered(s, schedule, i);
    AppliedIsStaged(At(s, schedule, i), schedule[i]);
    RunIsLater(s, schedule, i, j);
    StagedIsKept(At(s, schedule, i).store, At(s, schedule, j).store, Applied(At(s, schedule, i), schedule[i]).value);
  }

  // ---------------------------------------------------------------- what is not promised

  /** One call with nothing else happening: it starts, reads, swaps, and is gone. */
  function AloneSchedule(id: nat, call: Call): seq<Event> {
    [Start(id, call), Read(id), Swap(id, Confirmed), Crash(id)]
  }

  function With(s: State, id: nat, tasks: seq<Task>, phase: Phase): State {
    s.(processes := s.processes[id := Process(tasks, phase)])
  }

  function Stored(s: State, task: Task): State {
    s.(store := StoredBy(s.store, task))
  }

  function StoredBy(store: map<Key, Document>, task: Task): map<Key, Document> {
    var decision := DecideTask(task, Current(store, KeyOf(task)));
    if decision.Write? then store[KeyOf(task) := decision.document] else store
  }

  lemma StartAlone(s: State, id: nat, call: Call)
    requires id !in s.processes && Plan(call).Some?
    ensures Step(s, Start(id, call)) == With(s, id, Plan(call).value, Ready)
  {
    hide Plan;
  }

  lemma ReadAlone(s: State, id: nat, tasks: seq<Task>)
    requires tasks != []
    ensures Step(With(s, id, tasks, Ready), Read(id)) == With(s, id, tasks, Seen(Current(s.store, KeyOf(tasks[0]))))
  {
    hide DecideTask, KeyOf;
    var ready := With(s, id, tasks, Ready);
    assert ready.processes[id := Process(tasks, Seen(Current(s.store, KeyOf(tasks[0]))))]
        == s.processes[id := Process(tasks, Seen(Current(s.store, KeyOf(tasks[0]))))];
  }

  lemma SwapAlone(s: State, id: nat, tasks: seq<Task>)
    requires id !in s.processes && tasks != []
    ensures var after := Step(With(s, id, tasks, Seen(Current(s.store, KeyOf(tasks[0])))), Swap(id, Confirmed));
      Step(after, Crash(id)) == Stored(s, tasks[0])
  {
    hide DecideTask, KeyOf;
    var seen := With(s, id, tasks, Seen(Current(s.store, KeyOf(tasks[0]))));
    var after := Step(seen, Swap(id, Confirmed));
    assert after.store == StoredBy(s.store, tasks[0]) && after.flight == s.flight;
    assert after.processes - {id} == s.processes;
  }

  /** A call's first document, written by a new process with nothing else happening meanwhile. */
  lemma RunAlone(s: State, id: nat, call: Call)
    requires id !in s.processes && Plan(call).Some? && Plan(call).value != []
    ensures Run(s, AloneSchedule(id, call)) == Stored(s, Plan(call).value[0])
  {
    hide DecideTask, Run, Step, Plan, KeyOf, Stored;
    var schedule, tasks := AloneSchedule(id, call), Plan(call).value;
    RunOfNothing(s);
    AtSuccessor(s, schedule, 0);
    StartAlone(s, id, call);
    AtSuccessor(s, schedule, 1);
    ReadAlone(s, id, tasks);
    AtSuccessor(s, schedule, 2);
    SwapAlone(s, id, tasks);
    AtSuccessor(s, schedule, 3);
    assert schedule[..0] == [] && schedule[..4] == schedule;
  }

  function SealCall(packageArch: string, qualified: bool, system: UpdateOptions, packages: UpdateOptions): Call {
    Call.Channel(packageArch, qualified, RequestSealStable(system, packages))
  }

  predicate HoldsManifest(s: State, key: Key, p: Payload) {
    key in s.store && s.store[key] == ManifestDoc(p) && !p.schema.Unset?
  }

  /** Sealing a release with nothing else happening stores the sealed payload, if it is accepted and new. */
  lemma SealAlone(s: State, id: nat, packageArch: string, qualified: bool, p: Payload,
                  system: UpdateOptions, packages: UpdateOptions)
    requires id !in s.processes && ManifestKey(packageArch, qualified).Some?
    requires HoldsManifest(s, ManifestKey(packageArch, qualified).value, p)
    ensures var sealed := SealedStable(p, system, packages);
      HoldsManifest(Run(s, AloneSchedule(id, SealCall(packageArch, qualified, system, packages))),
                    ManifestKey(packageArch, qualified).value,
                    if sealed.Some? && sealed.value != p then sealed.value.(schema := V3) else p)
  {
    hide SealedStable, Run;
    RunAlone(s, id, SealCall(packageArch, qualified, system, packages));
  }

  /** After the schedule the manifest of the key still carries the channel, and not an older one than before. */
  predicate Survives(s: State, schedule: seq<Event>, key: Key, before: Payload, name: string) {
    var after := Run(s, schedule).store;
    key in after && after[key].ManifestDoc? && RetainedForward(name, before, after[key].payload)
  }

  /**
  The schema condition on the stored manifest is exact, for Stable and for Testing: from a manifest that
  carries the channel, no schedule of current-schema commits to its key endangers it precisely when that
  manifest itself is of the current schema.
  */
  lemma OnlyLegacyManifestsLoseRetained(s: State, packageArch: string, qualified: bool, p: Payload, name: string)
    requires Initial(s) && ManifestKey(packageArch, qualified).Some? && IsRetained(name)
    requires HoldsManifest(s, ManifestKey(packageArch, qualified).value, p) && name in p.channels
    ensures var key := ManifestKey(packageArch, qualified).value;
      p.schema.V3? <==> forall schedule :: ModernSchedule(schedule, key) ==> Survives(s, schedule, key, p, name)
  {
    hide Run, Step, SealedStable, RetainedForward;
    var key := ManifestKey(packageArch, qualified).value;
    if p.schema.V3? {
      forall schedule | ModernSchedule(schedule, key)
        ensures Survives(s, schedule, key, p, name)
      {
        assert schedule[..|schedule|] == schedule && schedule[..0] == [];
        RunOfNothing(s);
        RunIsForward(s, schedule, key, 0, |schedule|);
        ForwardIsRetained(name, p, Run(s, schedule).store[key].payload);
      }
    } else {
      var system, packages := SealOverLegacy(p, p, name);
      var call := SealCall(packageArch, qualified, system, packages);
      SealIsLost(s, 0, packageArch, qualified, p, p, system, packages, name);
      assert ModernSchedule(AloneSchedule(0, call), key);
      assert !Survives(s, AloneSchedule(0, call), key, p, name);
    }
  }

  lemma ForwardIsRetained(name: string, p: Payload, q: Payload)
    ensures Forward(p, q) ==> RetainedForward(name, p, q)
    ensures RetainedForward(name, p, p)
    ensures RetainedForward(name, p, q.(schema := V3)) == RetainedForward(name, p, q)
  {
  }

  /** A seal that loses a channel of an earlier payload does so in the store. */
  lemma SealIsLost(s: State, id: nat, packageArch: string, qualified: bool, before: Payload, p: Payload,
                   system: UpdateOptions, packages: UpdateOptions, name: string)
    requires id !in s.processes && ManifestKey(packageArch, qualified).Some?
    requires HoldsManifest(s, ManifestKey(packageArch, qualified).value, p) && Legacy(p)
    requires SealedStable(p, system, packages).Some? && SealedStable(p, system, packages).value.schema.V3?
    requires !RetainedForward(name, before, SealedStable(p, system, packages).value)
    ensures !Survives(s, AloneSchedule(id, SealCall(packageArch, qualified, system, packages)),
                      ManifestKey(packageArch, qualified).value, before, name)
  {
    hide Run, SealedStable, RetainedForward;
    SealAlone(s, id, packageArch, qualified, p, system, packages);
    ForwardIsRetained(name, before, SealedStable(p, system, packages).value);
  }

  // ---------------------------------------------------------------- legacy documents in commits

  /** The event puts a qualified manifest into the store, whichever command and whatever else is running. */
  predicate Installs(s: State, e: Event, key: Key) {
    && Applied(s, e).Some? && KeyOf(Applied(s, e).value) == key
    && Applied(s, e).value.Put? && Applied(s, e).value.signed
  }

  /**
  The schema condition on commits is exact as well: at any moment of any interleaving at which a qualified
  manifest replaces a current-schema one, a retained channel of the replaced manifest is safe from the
  seals that may follow precisely when the new document is of the current schema.
  */
  lemma OnlyLegacyCommitsLoseRetained(s: State, e: Event, packageArch: string, qualified: bool, p: Payload,
                                      name: string, id: nat)
    requires ManifestKey(packageArch, qualified).Some? && IsRetained(name)
    requires HoldsManifest(s, ManifestKey(packageArch, qualified).value, p) && p.schema.V3? && name in p.channels
    requires Installs(s, e, ManifestKey(packageArch, qualified).value) && id !in Step(s, e).processes
    ensures var key, n := ManifestKey(packageArch, qualified).value, Applied(s, e).value.next;
      n.ManifestDoc? && Step(s, e).store[key] == n &&
      (n.payload.schema.V3? <==>
         forall system, packages ::
           Survives(Step(s, e), AloneSchedule(id, SealCall(packageArch, qualified, system, packages)), key, p, name))
  {
    hide Run, Step, Applied, SealedStable, RetainedForward, ManifestKey, DecideQualified;
    var key, t, after := ManifestKey(packageArch, qualified).value, Applied(s, e).value, Step(s, e);
    StepStore(s, e);
    InstalledKeepsRetained(t, p, name);
    var n := t.next.payload;
    if n.schema.V3? {
      forall system, packages
        ensures Survives(after, AloneSchedule(id, SealCall(packageArch, qualified, system, packages)), key, p, name)
      {
        SealAlone(after, id, packageArch, qualified, n, system, packages);
        SealKeepsRetained(p, n, system, packages, name);
      }
    } else {
      var system, packages := SealOverLegacy(p, n, name);
      SealIsLost(after, id, packageArch, qualified, p, n, system, packages, name);
    }
  }

  lemma InstalledKeepsRetained(t: Task, p: Payload, name: string)
    requires t.Put? && t.signed && DecideTask(t, Some(ManifestDoc(p))).Write?
    ensures DecideTask(t, Some(ManifestDoc(p))) == Write(t.next)
    ensures t.next.ManifestDoc? && !t.next.payload.schema.Unset?
    ensures RetainedForward(name, p, t.next.payload)
  {
    hide LivePair, KeepRetained, StableForward, TestingForward;
    KeepRetainedIsForward(p, t.next.payload);
  }

  lemma SealKeepsRetained(p: Payload, n: Payload, system: UpdateOptions, packages: UpdateOptions, name: string)
    requires RetainedForward(name, p, n) && n.schema.V3? && IsRetained(name)
    ensures var sealed := SealedStable(n, system, packages);
      RetainedForward(name, p, if sealed.Some? && sealed.value != n then sealed.value.(schema := V3) else n)
  {
    hide SealedStable, StableForward, TestingForward;
    if SealedStable(n, system, packages).Some? {
      var sealed := SealedStable(n, system, packages).value;
      SealStableKeeps(n, system, packages);
      RetainedForwardIsTransitive(name, p, n, sealed);
      ForwardIsRetained(name, p, sealed);
    }
  }

  lemma RetainedForwardIsTransitive(name: string, a: Payload, b: Payload, c: Payload)
    requires IsRetained(name) && RetainedForward(name, a, b) && RetainedForward(name, b, c)
    ensures RetainedForward(name, a, c)
  {
    hide StableAdvances;
    if name in a.channels
       && StableAdvances(a.channels[name].version, b.channels[name].version)
       && StableAdvances(b.channels[name].version, c.channels[name].version) {
      AdvancesIsTransitive(a.channels[name].version, b.channels[name].version, c.channels[name].version);
    }
  }

  /** A signed manifest with Development and Stable of one build. */
  function SampleManifest(schema: Schema): Payload {
    Payload(schema, map["devel" := SampleChannel(), "stable" := SampleChannel().(name := "stable", isDefault := false)])
  }

  function SampleChannel(): Channel {
    var f := SAMPLE_FINGERPRINT;
    Manifest.Channel.Channel(
      "devel", "Development version", "0.0.0", "0.0", "FreeBSD:16:amd64", "freebsd:16:x86:64", "amd64", "amd64", true,
      Some(Component(f, "", f, "", 1_600_000, ArtifactURL(System, f, "0.0", "amd64"), 1, 1, true)),
      Some(Component(f, f, f, f, 0, ArtifactURL(Packages, f, "0.0", "amd64"), 1, 1, true)))
  }

  lemma SampleIsValid(schema: Schema)
    ensures ValidDevelopmentPair(SampleManifest(schema), "amd64", "amd64")
  {
    hide IsFingerprint, ArtifactURL, InTrain, ValidDevelopmentChannel, ValidRetainedStable;
    SampleChannelIsValid();
    var channels := SampleManifest(schema).channels;
    assert channels.Keys == {"devel", "stable"} && |channels| == |channels.Keys|;
  }

  lemma SampleComponentsAreValid()
    ensures var channel := SampleChannel();
      ValidDevelopmentComponents(channel, channel.system.value, channel.packages.value, "amd64")
    ensures ValidPackageBinding(SampleChannel(), SampleChannel().packages)
  {
    assert IsFingerprint(SAMPLE_FINGERPRINT);
    hide IsFingerprint, ArtifactURL;
  }

  lemma SampleChannelIsValid()
    ensures ValidDevelopmentChannel(SampleChannel(), "amd64", "amd64")
    ensures ValidRetainedStable(SampleChannel().(name := "stable", isDefault := false), "amd64", "amd64",
                                ExpectedABI("amd64"), ExpectedAltABI("amd64"))
  {
    SampleComponentsAreValid();
    ZeroVersion();
    hide IsFingerprint, ArtifactURL, InTrain, Match;
  }

  lemma SampleKeepsRetained()
    ensures KeepRetained(Relabelled(SampleManifest(V3), 1), SampleManifest(V1))
  {
    hide ArtifactURL, Match, StableAdvances;
  }

  lemma SampleIsDecided()
    ensures var current, next := Relabelled(SampleManifest(V3), 1), ManifestDoc(SampleManifest(V1));
      && current.schema.V3? && "stable" in current.channels
      && RepositoriesPair(next, "amd64").Some?
      && DecideQualified(Some(ManifestDoc(current)), next, RepositoriesPair(next, "amd64").value, true) == Write(next)
  {
    SampleIsValid(V1);
    SampleKeepsRetained();
    hide ValidDevelopmentPair, IsFingerprint, ArtifactURL, KeepRetained;
  }

  /**
  Such a commit exists: a legacy document replaces the same manifest under another label, by the
  repository command that read it.
  */
  lemma LegacyCommitIsAccepted(s: State)
    requires Initial(s)
    requires HoldsManifest(s, "repos.amd64.manifest.json", Relabelled(SampleManifest(V3), 1))
    ensures var n := ManifestDoc(SampleManifest(V1));
      var seen := Run(s, [Start(0, Repositories(n, "amd64")), Read(0)]);
      && seen.store == s.store && Installs(seen, Swap(0, Confirmed), "repos.amd64.manifest.json")
      && Applied(seen, Swap(0, Confirmed)).value.next == n
  {
    SampleIsDecided();
    hide SampleManifest, Relabelled, DecideQualified, RepositoriesPair, Run, Step;
    assert "repos." + PackageArch("amd64") + ".manifest.json" == "repos.amd64.manifest.json";
    var n := ManifestDoc(SampleManifest(V1));
    var schedule, tasks := [Start(0, Repositories(n, "amd64")), Read(0)], Plan(Repositories(n, "amd64")).value;
    RunOfNothing(s);
    AtSuccessor(s, schedule, 0);
    StartAlone(s, 0, Repositories(n, "amd64"));
    AtSuccessor(s, schedule, 1);
    ReadAlone(s, 0, tasks);
    assert schedule[..0] == [] && schedule[..2] == schedule;
  }

  lemma RunOfNothing(s: State)
    ensures Run(s, []) == s
  {
  }

  /**
  A legacy document is committed like any other: the decision looks at the schema only to see that
  it is known, so a qualified commit can bring a legacy manifest back.
  */
  lemma SchemaDoesNotDecide(current: Document, next: Payload, pair: Pair, schema: Schema)
    requires !next.schema.Unset? && !schema.Unset?
    requires current != ManifestDoc(next) && current != ManifestDoc(next.(schema := schema))
    ensures DecideQualified(Some(current), ManifestDoc(next), pair, true).Write?
       <==> DecideQualified(Some(current), ManifestDoc(next.(schema := schema)), pair, true).Write?
  {
  }

  /** The newest component generation that a stored manifest gives its devel channel. */
  function ManifestGeneration(d: Document): nat {
    if d.ManifestDoc? && "devel" in d.payload.channels then PairGeneration(d.payload.channels["devel"]) else 0
  }

  /** A stored manifest with the same pair under another label and generation. */
  function Relabelled(next: Payload, generation: nat): Payload
    requires "devel" in next.channels && next.channels["devel"].system.Some?
  {
    var devel := next.channels["devel"];
    next.(channels := next.channels["devel" := devel.(
      description := "Experimental staged ARM64 acceptance build",
      system := Some(devel.system.value.(generation := generation)))])
  }

  /**
  A manifest's own component generation is not monotone: a qualified commit can lower it exactly
  when its release is ahead of both components. Repository commits never do.
  */
  lemma ManifestGenerationMayFall(next: Document, release: Document, architecture: string)
    requires QualifiedPair(next, release, architecture).Some?
    ensures var pair := QualifiedPair(next, release, architecture).value;
      (exists current :: DecideQualified(Some(current), next, pair, true).Write?
                         && ManifestGeneration(next) < ManifestGeneration(current))
      <==> ManifestGeneration(next) < release.release.generation
    ensures var pair := RepositoriesPair(next, architecture).value;
      forall current :: DecideQualified(Some(current), next, pair, true).Write?
        ==> ManifestGeneration(current) <= ManifestGeneration(next)
  {
    hide InTrain, IsFingerprint, ValidPackageBinding, ArtifactURL;
    var pair := QualifiedPair(next, release, architecture).value;
    var generation := release.release.generation;
    if ManifestGeneration(next) < generation {
      var current := ManifestDoc(Relabelled(next.payload, generation));
      assert KeepRetained(current.payload, next.payload);
      assert DecideQualified(Some(current), next, pair, true).Write?;
    }
  }

  /** A manifest of generation 1 and a release of generation 2 that lower a stored generation of 2. */
  lemma SampleGenerationFalls()
    ensures var next := ManifestDoc(SampleManifest(V3));
      var release := ReleaseDoc(ReleaseDocument("devel", "amd64", 2, SAMPLE_FINGERPRINT, SAMPLE_FINGERPRINT));
      && QualifiedPair(next, release, "amd64").Some?
      && var pair := QualifiedPair(next, release, "amd64").value;
      exists current :: DecideQualified(Some(current), next, pair, true).Write?
                        && ManifestGeneration(next) < ManifestGeneration(current)
  {
    SampleIsValid(V3);
    hide ValidDevelopmentPair, IsFingerprint, ArtifactURL, DecideQualified;
    var next := ManifestDoc(SampleManifest(V3));
    var release := ReleaseDoc(ReleaseDocument("devel", "amd64", 2, SAMPLE_FINGERPRINT, SAMPLE_FINGERPRINT));
    assert ManifestGeneration(next) == 1;
    ManifestGenerationMayFall(next, release, "amd64");
  }
}
