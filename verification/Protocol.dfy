/**
The control plane as a state machine: any number of commits in any interleaving, with crashes,
lost replies and writes that land late. A run is a start state and a schedule of events, and
every result below holds for every schedule.
*/
module Protocol {
  import opened Wrappers
  import opened Manifest
  import opened ManifestLaws
  import opened Publication

  type Key = string

  const COMPLETION_KEY: Key := "releases/devel.multiarch.json"

  /** One conditional write a commit still has to make. */
  datatype Task =
    | Mutation(key: Key, request: Request)
    | Put(key: Key, next: Document, pair: Pair, signed: bool, staged: Option<Key>)
    | Complete(completion: Completion)

  function KeyOf(t: Task): Key {
    if t.Complete? then COMPLETION_KEY else t.key
  }

  function DecideTask(t: Task, current: Option<Document>): Decision {
    match t
    case Mutation(_, request) => DecideChannel(current, request)
    case Put(_, next, pair, signed, _) => DecideQualified(current, next, pair, signed)
    case Complete(completion) => DecideCompletion(current, completion)
  }

  /** A command line, with the documents it was given. */
  datatype Call =
    | Channel(packageArch: string, qualified: bool, request: Request)
    | Repositories(repositories: Document, architecture: string)
    | Qualified(repositories: Document, release: Document, architecture: string)
    | LegacyAMD64(repositories: Document, release: Document)
    | Multiarch(completion: Completion)

  function ManifestKey(packageArch: string, qualified: bool): Option<Key> {
    if packageArch != "amd64" && packageArch != "aarch64" then None
    else if packageArch == "amd64" && !qualified then Some("repos.manifest.json")
    else Some("repos." + packageArch + ".manifest.json")
  }

  /** The writes of a call in order, or None when its own documents are refused. */
  function Plan(call: Call): Option<seq<Task>> {
    match call
    case Channel(packageArch, qualified, request) =>
      var key := ManifestKey(packageArch, qualified);
      if key.None? then None else Some([Mutation(key.value, request)])
    case Repositories(repositories, architecture) =>
      var pair := RepositoriesPair(repositories, architecture);
      if pair.None? then None else
      var first := Put("repos." + PackageArch(architecture) + ".manifest.json", repositories, pair.value, true, None);
      Some([first] + if architecture == "amd64" then [first.(key := "repos.manifest.json")] else [])
    case Qualified(repositories, release, architecture) =>
      StagedPair(repositories, release, architecture, "releases/devel." + architecture + ".json",
                 "repos." + PackageArch(architecture) + ".manifest.json")
    case LegacyAMD64(repositories, release) =>
      StagedPair(repositories, release, "amd64", "releases/devel.json", "repos.manifest.json")
    case Multiarch(completion) =>
      if completion.Valid() then Some([Complete(completion)]) else None
  }

  /** The release document first, the signed manifest as the commit point. */
  function StagedPair(repositories: Document, release: Document, architecture: string,
                      releaseKey: Key, manifestKey: Key): Option<seq<Task>> {
    var pair := QualifiedPair(repositories, release, architecture);
    if pair.None? then None else
    Some([Put(releaseKey, release, pair.value, false, None),
          Put(manifestKey, repositories, pair.value, true, Some(releaseKey))])
  }

  // ---------------------------------------------------------------- states and events

  datatype Phase = Ready | Seen(current: Option<Document>)

  datatype Process = Process(tasks: seq<Task>, phase: Phase)

  /** A conditional write that left its process and may reach the store later, or never. */
  datatype Message = Message(task: Task, expected: Option<Document>)

  datatype State = State(store: map<Key, Document>, processes: map<nat, Process>, flight: seq<Message>)

  /** What a process learns of its write: its effect, nothing, or nothing yet. */
  datatype Reply = Confirmed | Lost(applied: bool, retry: bool) | Delayed(retry: bool)

  datatype Event =
    | Start(id: nat, call: Call)
    | Read(id: nat)
    | Settle(id: nat)
    | Swap(id: nat, reply: Reply)
    | Deliver(index: nat)
    | Crash(id: nat)

  function Current(store: map<Key, Document>, key: Key): Option<Document> {
    if key in store then Some(store[key]) else None
  }

  /** The process is running and has seen a document for its next task. */
  predicate HasSeen(s: State, id: nat) {
    id in s.processes && s.processes[id].tasks != [] && s.processes[id].phase.Seen?
  }

  function SeenDecision(s: State, id: nat): Decision
    requires HasSeen(s, id)
  {
    DecideTask(s.processes[id].tasks[0], s.processes[id].phase.current)
  }

  /** The pending commit whose write this event puts into the store, if any. */
  function Applied(s: State, e: Event): Option<Task> {
    match e
    case Swap(id, reply) =>
      if HasSeen(s, id) && SeenDecision(s, id).Write? && !reply.Delayed? && (reply.Lost? ==> reply.applied)
         && Current(s.store, KeyOf(s.processes[id].tasks[0])) == s.processes[id].phase.current
      then Some(s.processes[id].tasks[0]) else None
    case Deliver(i) =>
      if i < |s.flight| && DecideTask(s.flight[i].task, s.flight[i].expected).Write?
         && Current(s.store, KeyOf(s.flight[i].task)) == s.flight[i].expected
      then Some(s.flight[i].task) else None
    case _ => None
  }

  function StoreAfter(s: State, e: Event): map<Key, Document> {
    var task := Applied(s, e);
    if task.None? then s.store else
    var decision := DecideTask(task.value, Current(s.store, KeyOf(task.value)));
    if decision.Write? then s.store[KeyOf(task.value) := decision.document] else s.store
  }

  /** The process after it acted on a decision that needs no write; None when it gave up. */
  function Settled(s: State, id: nat): Option<Process>
    requires HasSeen(s, id)
  {
    var p := s.processes[id];
    match SeenDecision(s, id)
    case Refuse => None
    case Keep => Some(Process(p.tasks[1..], Ready))
    case Write(_) => Some(p)
  }

  /** The process after one attempt to write; a lost condition sends it back to reading. */
  function Swapped(s: State, id: nat, reply: Reply): Option<Process>
    requires HasSeen(s, id) && SeenDecision(s, id).Write?
  {
    var p := s.processes[id];
    var again := Process(p.tasks, Ready);
    match reply
    case Confirmed => Some(if Applied(s, Swap(id, reply)).Some? then Process(p.tasks[1..], Ready) else again)
    case Lost(_, retry) => if retry then Some(again) else None
    case Delayed(retry) => if retry then Some(again) else None
  }

  function WithProcess(processes: map<nat, Process>, id: nat, p: Option<Process>): map<nat, Process> {
    if p.Some? then processes[id := p.value] else processes - {id}
  }

  /** One atomic step; an event that does not apply leaves the state alone. */
  function Step(s: State, e: Event): State {
    match e
    case Start(id, call) =>
      if id in s.processes || Plan(call).None? then s
      else s.(processes := s.processes[id := Process(Plan(call).value, Ready)])
    case Read(id) =>
      if id !in s.processes || s.processes[id].tasks == [] then s else
      var p := s.processes[id];
      s.(processes := s.processes[id := p.(phase := Seen(Current(s.store, KeyOf(p.tasks[0]))))])
    case Crash(id) => s.(processes := s.processes - {id})
    case Deliver(i) =>
      if i >= |s.flight| then s else State(StoreAfter(s, e), s.processes, s.flight[..i] + s.flight[i + 1..])
    case Settle(id) =>
      if !HasSeen(s, id) then s
      else s.(processes := WithProcess(s.processes, id, Settled(s, id)))
    case Swap(id, reply) =>
      if !HasSeen(s, id) || !SeenDecision(s, id).Write? then s else
      var p := s.processes[id];
      State(StoreAfter(s, e), WithProcess(s.processes, id, Swapped(s, id, reply)),
            if reply.Delayed? then s.flight + [Message(p.tasks[0], p.phase.current)] else s.flight)
  }

  function Run(s: State, schedule: seq<Event>): State {
    if schedule == [] then s else Step(Run(s, schedule[..|schedule| - 1]), schedule[|schedule| - 1])
  }

  // ---------------------------------------------------------------- what every write obeys

  /** What Plan puts into a task: the document kind it writes, and the pair that a release document names. */
  ghost predicate WellFormedTask(t: Task) {
    t.Put? ==>
      && (t.signed ==> t.next.ManifestDoc? && Consistent(t.next.payload))
      && (!t.signed ==> t.next.ReleaseDoc? && t.next.release.generation == t.pair.generation
                        && t.next.release.system == t.pair.system && t.next.release.packages == t.pair.packages)
  }

  predicate ModernDocument(d: Document) {
    d.ManifestDoc? ==> d.payload.schema.V3?
  }

  predicate ModernTask(t: Task) {
    t.Put? ==> ModernDocument(t.next)
  }

  /** Any two documents of one key, the second stored after the first. */
  predicate Later(a: Document, b: Document) {
    a == b ||
    match (a, b)
    case (ReleaseDoc(r), ReleaseDoc(q)) => r.generation < q.generation
    case (CompletionDoc(r), CompletionDoc(q)) => r.generation < q.generation
    case (ManifestDoc(_), ManifestDoc(_)) => true
    case _ => false
  }

  predicate LaterModern(a: Document, b: Document) {
    a.ManifestDoc? ==> b.ManifestDoc? && Forward(a.payload, b.payload)
  }

  lemma WriteIsLater(t: Task, before: Document)
    requires WellFormedTask(t)
    ensures DecideTask(t, Some(before)).Write? ==> Later(before, DecideTask(t, Some(before)).document)
  {
    hide Mutate, KeepRetained;
  }

  lemma MutationKeeps(p: Payload, request: Request)
    ensures Mutate(p, request).Some? ==>
      var next := Mutate(p, request).value;
      (Consistent(p) ==> Consistent(next)) && (!Legacy(p) ==> Forward(p, next))
  {
    hide Updated, Verified, SealedStable, PublishedTesting, Consistent, Forward;
    if Mutate(p, request).Some? {
      match request
      case RequestUpdate(o) => UpdateKeeps(p, o);
      case RequestVerify(kind, fingerprint) => VerifyKeeps(p, kind, fingerprint);
      case RequestSealStable(system, packages) => SealStableKeeps(p, system, packages);
      case RequestSealTesting(system, packages) => PublishTestingKeeps(p, system, packages);
    }
  }

  lemma WriteIsForward(t: Task, before: Document)
    requires WellFormedTask(t) && ModernTask(t) && ModernDocument(before)
    ensures DecideTask(t, Some(before)).Write? ==> LaterModern(before, DecideTask(t, Some(before)).document)
  {
    hide Mutate, KeepRetained, LivePair;
    if DecideTask(t, Some(before)).Write? && before.ManifestDoc? {
      match t
      case Mutation(_, request) =>
        MutationKeeps(before.payload, request);
        SchemaIsNoPartOfForward(before.payload, Mutate(before.payload, request).value);
      case Put(_, next, _, signed, _) =>
        if signed {
          KeepRetainedIsForward(before.payload, next.payload);
        } else {
          WriteIsLater(t, before);
        }
      case Complete(_) =>
    }
  }

  lemma SchemaIsNoPartOfForward(p: Payload, q: Payload)
    ensures Forward(p, q) ==> Forward(p, q.(schema := V3))
    ensures Consistent(q) ==> Consistent(q.(schema := V3))
  {
  }

  ghost predicate ConsistentDocument(d: Document) {
    d.ManifestDoc? ==> Consistent(d.payload)
  }

  lemma WriteIsConsistent(t: Task, current: Option<Document>)
    requires WellFormedTask(t) && (current.Some? ==> ConsistentDocument(current.value))
    ensures DecideTask(t, current).Write? ==> ConsistentDocument(DecideTask(t, current).document)
  {
    hide Mutate, KeepRetained, LivePair;
    if DecideTask(t, current).Write? && t.Mutation? {
      var payload := if current.Some? then current.value.payload else Payload(Unset, map[]);
      MutationKeeps(payload, t.request);
      SchemaIsNoPartOfForward(payload, Mutate(payload, t.request).value);
    }
  }

  /** The channel command always stamps the current schema; the other commits install what they were given. */
  lemma WriteIsModern(t: Task, current: Option<Document>)
    requires ModernTask(t)
    ensures DecideTask(t, current).Write? ==> ModernDocument(DecideTask(t, current).document)
  {
    hide Mutate, KeepRetained, LivePair;
  }

  // ---------------------------------------------------------------- invariants

  ghost predicate AllTasks(s: State, ok: Task -> bool) {
    && (forall id, i :: id in s.processes && 0 <= i < |s.processes[id].tasks| ==> ok(s.processes[id].tasks[i]))
    && (forall i :: 0 <= i < |s.flight| ==> ok(s.flight[i].task))
  }

  ghost predicate WellFormed(s: State) {
    AllTasks(s, t => WellFormedTask(t))
  }

  /** The manifest of one key, in the store and in every commit to that key, is of the current schema. */
  ghost predicate Modern(s: State, key: Key) {
    && AllTasks(s, t => KeyOf(t) == key ==> ModernTask(t))
    && (key in s.store ==> ModernDocument(s.store[key]))
  }

  ghost predicate ConsistentAt(s: State, key: Key) {
    key in s.store ==> ConsistentDocument(s.store[key])
  }

  /** No document that the call brings for this key is of a legacy schema. */
  predicate ModernCall(call: Call, key: Key) {
    Plan(call).Some? ==>
      forall i :: 0 <= i < |Plan(call).value| && KeyOf(Plan(call).value[i]) == key ==> ModernTask(Plan(call).value[i])
  }

  predicate ModernSchedule(schedule: seq<Event>, key: Key) {
    forall i :: 0 <= i < |schedule| && schedule[i].Start? ==> ModernCall(schedule[i].call, key)
  }

  lemma RepositoriesAreConsistent(repositories: Document, architecture: string)
    requires RepositoriesPair(repositories, architecture).Some?
    ensures repositories.ManifestDoc? && Consistent(repositories.payload)
  {
    hide ValidDevelopmentPair, Consistent;
    ValidPairIsConsistent(repositories.payload, architecture, PackageArch(architecture));
  }

  lemma PlanIsWellFormed(call: Call)
    requires Plan(call).Some?
    ensures forall i :: 0 <= i < |Plan(call).value| ==> WellFormedTask(Plan(call).value[i])
  {
    hide RepositoriesPair, Consistent;
    match call
    case Repositories(repositories, architecture) => RepositoriesAreConsistent(repositories, architecture);
    case Qualified(repositories, _, architecture) => RepositoriesAreConsistent(repositories, architecture);
    case LegacyAMD64(repositories, _) => RepositoriesAreConsistent(repositories, "amd64");
    case _ =>
  }

  /** Tasks only ever come from a plan: whatever every plan guarantees, every reachable task has. */
  lemma StepKeepsTasks(s: State, e: Event, ok: Task -> bool)
    requires AllTasks(s, ok)
    requires e.Start? && Plan(e.call).Some? ==>
      forall i :: 0 <= i < |Plan(e.call).value| ==> ok(Plan(e.call).value[i])
    ensures AllTasks(Step(s, e), ok)
  {
    hide DecideTask, Plan;
  }

  /** A step changes the store by the decision of one task on the document it replaces, or not at all. */
  lemma StepStore(s: State, e: Event)
    ensures Step(s, e).store == StoreAfter(s, e)
    ensures Applied(s, e).Some? ==>
      var t := Applied(s, e).value;
      && DecideTask(t, Current(s.store, KeyOf(t))).Write?
      && Step(s, e).store == s.store[KeyOf(t) := DecideTask(t, Current(s.store, KeyOf(t))).document]
  {
    hide DecideTask, Plan;
  }

  lemma AppliedTask(s: State, e: Event, ok: Task -> bool)
    requires AllTasks(s, ok) && Applied(s, e).Some?
    ensures ok(Applied(s, e).value)
  {
    hide DecideTask, Plan;
  }

  lemma StepKeepsWellFormed(s: State, e: Event)
    requires WellFormed(s)
    ensures WellFormed(Step(s, e))
  {
    hide Plan, WellFormedTask, Step;
    if e.Start? && Plan(e.call).Some? {
      PlanIsWellFormed(e.call);
    }
    StepKeepsTasks(s, e, t => WellFormedTask(t));
  }

  lemma StepKeepsConsistent(s: State, e: Event, key: Key)
    requires WellFormed(s) && ConsistentAt(s, key)
    ensures ConsistentAt(Step(s, e), key)
  {
    hide DecideTask, Plan, Step, Consistent;
    StepStore(s, e);
    if Applied(s, e).Some? && KeyOf(Applied(s, e).value) == key {
      var t := Applied(s, e).value;
      AppliedTask(s, e, t => WellFormedTask(t));
      WriteIsConsistent(t, Current(s.store, key));
    }
  }

  lemma StepKeepsModern(s: State, e: Event, key: Key)
    requires Modern(s, key) && (e.Start? ==> ModernCall(e.call, key))
    ensures Modern(Step(s, e), key)
  {
    hide DecideTask, Plan, Step, KeyOf, ModernTask;
    StepKeepsTasks(s, e, t => KeyOf(t) == key ==> ModernTask(t));
    StepStore(s, e);
    if Applied(s, e).Some? {
      var t := Applied(s, e).value;
      AppliedTask(s, e, t => KeyOf(t) == key ==> ModernTask(t));
      if KeyOf(t) == key {
        WriteIsModern(t, Current(s.store, key));
      }
    }
  }

  // ---------------------------------------------------------------- histories

  /** Nothing stored is ever lost, and what replaces it came later. */
  ghost predicate StoreLater(a: map<Key, Document>, b: map<Key, Document>) {
    forall key :: key in a ==> key in b && Later(a[key], b[key])
  }

  /** The document of one key stays, and its retained channels only move forward. */
  ghost predicate StoreForward(a: map<Key, Document>, b: map<Key, Document>, key: Key) {
    key in a ==> key in b && LaterModern(a[key], b[key])
  }

  lemma StepIsLater(s: State, e: Event)
    requires WellFormed(s)
    ensures StoreLater(s.store, Step(s, e).store)
  {
    hide DecideTask, Plan, Step, WellFormedTask;
    StepStore(s, e);
    if Applied(s, e).Some? {
      var t := Applied(s, e).value;
      AppliedTask(s, e, t => WellFormedTask(t));
      if KeyOf(t) in s.store {
        WriteIsLater(t, s.store[KeyOf(t)]);
      }
    }
  }

  lemma StepIsForward(s: State, e: Event, key: Key)
    requires WellFormed(s) && Modern(s, key)
    ensures StoreForward(s.store, Step(s, e).store, key)
  {
    hide DecideTask, Plan, Step, WellFormedTask, ModernTask, KeyOf, Forward;
    StepStore(s, e);
    if key in s.store && s.store[key].ManifestDoc? {
      ForwardIsReflexive(s.store[key].payload);
    }
    if Applied(s, e).Some? {
      var t := Applied(s, e).value;
      AppliedTask(s, e, t => WellFormedTask(t));
      AppliedTask(s, e, t => KeyOf(t) == key ==> ModernTask(t));
      if KeyOf(t) == key && key in s.store {
        WriteIsForward(t, s.store[key]);
      }
    }
  }

  lemma ForwardIsReflexive(p: Payload)
    ensures Forward(p, p)
  {
  }

  // ---------------------------------------------------------------- what a call writes, and where

  function KeysOf(tasks: seq<Task>): seq<Key> {
    seq(|tasks|, i requires 0 <= i < |tasks| => KeyOf(tasks[i]))
  }

  /** The manifest of each architecture, and the amd64 alias that older clients read. */
  lemma ManifestKeysExactly(packageArch: string)
    ensures ManifestKey("amd64", true) == Some("repos.amd64.manifest.json")
    ensures ManifestKey("amd64", false) == Some("repos.manifest.json")
    ensures forall qualified :: ManifestKey("aarch64", qualified) == Some("repos.aarch64.manifest.json")
    ensures packageArch !in {"amd64", "aarch64"} ==> forall qualified :: ManifestKey(packageArch, qualified) == None
  {
    assert "repos." + "amd64" + ".manifest.json" == "repos.amd64.manifest.json";
    assert "repos." + "aarch64" + ".manifest.json" == "repos.aarch64.manifest.json";
  }

  /** A repository commit writes its manifest under the qualified key, and for amd64 once more under the alias. */
  lemma RepositoriesWrite(repositories: Document, architecture: string)
    ensures var plan := Plan(Repositories(repositories, architecture));
      && (plan == None <==> RepositoriesPair(repositories, architecture) == None)
      && (plan.Some? ==>
            && architecture in {"amd64", "arm64"}
            && KeysOf(plan.value) == (if architecture == "amd64"
                                      then ["repos.amd64.manifest.json", "repos.manifest.json"]
                                      else ["repos.aarch64.manifest.json"])
            && forall t :: t in plan.value ==>
                 t.Put? && t.next == repositories && t.signed && t.staged == None
                 && RepositoriesPair(repositories, architecture) == Some(t.pair))
  {
    hide ValidDevelopmentPair;
    assert "repos." + "amd64" + ".manifest.json" == "repos.amd64.manifest.json";
    assert "repos." + "aarch64" + ".manifest.json" == "repos.aarch64.manifest.json";
  }

  lemma PairNeedsArchitecture(repositories: Document, release: Document, architecture: string)
    ensures RepositoriesPair(repositories, architecture).Some? ==> architecture in {"amd64", "arm64"}
    ensures QualifiedPair(repositories, release, architecture).Some? ==> architecture in {"amd64", "arm64"}
  {
    hide ValidDevelopmentPair;
  }

  /** Where a staged commit puts its release document, and where its manifest. */
  function StagedKeys(call: Call): (Key, Key)
    requires call.Qualified? || call.LegacyAMD64?
  {
    if call.LegacyAMD64? then ("releases/devel.json", "repos.manifest.json")
    else if call.architecture == "amd64" then ("releases/devel.amd64.json", "repos.amd64.manifest.json")
    else ("releases/devel.arm64.json", "repos.aarch64.manifest.json")
  }

  /** A staged commit writes its release document first and then the manifest, both for the pair that they form. */
  lemma StagedWrite(call: Call)
    requires call.Qualified? || call.LegacyAMD64?
    ensures var architecture := if call.Qualified? then call.architecture else "amd64";
      match QualifiedPair(call.repositories, call.release, architecture)
      case None => Plan(call) == None
      case Some(pair) =>
        var (first, second) := StagedKeys(call);
        Plan(call) == Some([Put(first, call.release, pair, false, None),
                            Put(second, call.repositories, pair, true, Some(first))])
  {
    hide QualifiedPair, RepositoriesPair, PackageArch;
    if call.Qualified? {
      PairNeedsArchitecture(call.repositories, call.release, call.architecture);
      if call.architecture in {"amd64", "arm64"} {
        QualifiedKeys(call.architecture);
      }
    }
  }

  lemma QualifiedKeys(architecture: string)
    requires architecture in {"amd64", "arm64"}
    ensures "releases/devel." + architecture + ".json"
         == if architecture == "amd64" then "releases/devel.amd64.json" else "releases/devel.arm64.json"
    ensures "repos." + PackageArch(architecture) + ".manifest.json"
         == if architecture == "amd64" then "repos.amd64.manifest.json" else "repos.aarch64.manifest.json"
  {
    assert "repos." + "amd64" + ".manifest.json" == "repos.amd64.manifest.json";
    assert "repos." + "aarch64" + ".manifest.json" == "repos.aarch64.manifest.json";
    assert "releases/devel." + "amd64" + ".json" == "releases/devel.amd64.json";
    assert "releases/devel." + "arm64" + ".json" == "releases/devel.arm64.json";
  }

  /** The other calls make one write: of the channel's manifest, or of the completion if it is valid. */
  lemma SingleWrite(call: Call)
    requires call.Channel? || call.Multiarch?
    ensures Plan(call) ==
      if call.Channel? then
        var key := ManifestKey(call.packageArch, call.qualified);
        if key == None then None else Some([Mutation(key.value, call.request)])
      else if call.completion.Valid() then Some([Complete(call.completion)]) else None
    ensures call.Multiarch? ==> KeyOf(Complete(call.completion)) == "releases/devel.multiarch.json"
  {
  }

  // ---------------------------------------------------------------- what one event does

  /** A call starts under a free id with all its writes; a process reads what is stored for its next one. */
  lemma StartExactly(s: State, id: nat, call: Call)
    ensures Step(s, Start(id, call)) ==
      if id !in s.processes && Plan(call).Some?
      then s.(processes := s.processes[id := Process(Plan(call).value, Ready)]) else s
    ensures id in s.processes && s.processes[id].tasks != [] ==>
      var tasks := s.processes[id].tasks;
      Step(s, Read(id)) == s.(processes := s.processes[id := Process(tasks, Seen(
        if KeyOf(tasks[0]) in s.store then Some(s.store[KeyOf(tasks[0])]) else None))])
  {
    hide Plan, KeyOf;
  }

  /** A process that read something for its next write, and the document it then asks for. */
  predicate Wants(s: State, id: nat, t: Task, seen: Option<Document>, d: Document) {
    && id in s.processes && s.processes[id].tasks != [] && s.processes[id].tasks[0] == t
    && s.processes[id].phase == Seen(seen) && DecideTask(t, seen) == Decision.Write(d)
  }

  /** The key still holds what the process saw. */
  predicate Unchanged(s: State, key: Key, seen: Option<Document>) {
    match seen
    case Some(d) => key in s.store && s.store[key] == d
    case None => key !in s.store
  }

  /** A swap changes its own key exactly if it is applied while the key still holds what the process saw. */
  lemma SwapStoresExactly(s: State, id: nat, reply: Reply, t: Task, seen: Option<Document>, d: Document)
    requires Wants(s, id, t, seen, d)
    ensures var next := Step(s, Swap(id, reply));
      && next.store == (if Unchanged(s, KeyOf(t), seen) && reply in {Confirmed, Lost(true, true), Lost(true, false)}
                        then s.store[KeyOf(t) := d] else s.store)
      && next.flight == (if reply.Delayed? then s.flight + [Message(t, seen)] else s.flight)
  {
    hide DecideTask, KeyOf;
  }

  /** Then the process goes on to its next write, tries again, or is gone. */
  lemma SwapEndsExactly(s: State, id: nat, reply: Reply, t: Task, seen: Option<Document>, d: Document)
    requires Wants(s, id, t, seen, d)
    ensures var tasks, done := s.processes[id].tasks, Unchanged(s, KeyOf(t), seen);
      Step(s, Swap(id, reply)).processes ==
        if reply == Confirmed then s.processes[id := Process(if done then tasks[1..] else tasks, Ready)]
        else if reply in {Lost(true, true), Lost(false, true), Delayed(true)}
        then s.processes[id := Process(tasks, Ready)]
        else s.processes - {id}
  {
    hide DecideTask, KeyOf;
  }

  /** A process with nothing to write goes on, and one that is refused is gone; neither touches the store. */
  lemma SettleExactly(s: State, id: nat)
    requires HasSeen(s, id)
    ensures var p, next := s.processes[id], Step(s, Settle(id));
      && next.store == s.store && next.flight == s.flight
      && next.processes == match DecideTask(p.tasks[0], p.phase.current)
                           case Keep => s.processes[id := Process(p.tasks[1..], Ready)]
                           case Refuse => s.processes - {id}
                           case Write(_) => s.processes
  {
    hide DecideTask;
  }

  /** A late write applies exactly while its key holds what it expects; a crash loses the process alone. */
  lemma DeliverExactly(s: State, i: nat, id: nat, d: Document)
    requires i < |s.flight| && DecideTask(s.flight[i].task, s.flight[i].expected) == Decision.Write(d)
    ensures var key := KeyOf(s.flight[i].task);
      Step(s, Deliver(i)) ==
        State(if Unchanged(s, key, s.flight[i].expected) then s.store[key := d] else s.store, s.processes,
              s.flight[..i] + s.flight[i + 1..])
    ensures Step(s, Crash(id)) == State(s.store, s.processes - {id}, s.flight)
  {
    hide DecideTask, KeyOf;
  }
}
