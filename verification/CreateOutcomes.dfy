/**
The conditional create on an object that other callers replace at will. However its requests, replies
and probes are lost or delayed, a create that has ended left the object, the changes and the reply of
ObjectStore.Created for some turns of the others; and each of those outcomes does occur.
*/
module CreateOutcomes {
  import opened Wrappers
  import opened ObjectStore
  import opened CreateClient

  /** delayed: the create is still on its way to the server and may land later. */
  datatype Event<D> =
    | Send(processed: bool, delayed: bool, answer: ConditionalCreate.Answer)
    | Look(heard: Heard)
    | Land
    | Store(document: D)
    | Cancel

  /** The object, what changed it since the create began, the creates under way, and the caller. */
  datatype State<D> = State(value: Option<D>, changes: seq<Change<D>>, flight: nat, client: Client<D>)

  function Begin<D>(value: Option<D>, document: D): State<D> {
    State(value, [], 0, Client(document, 0, false, Sending))
  }

  predicate Ended<D>(c: Client<D>) {
    c.phase.Done? || c.phase.Fetching?
  }

  /** What the caller is told: created, not created, or an error. */
  function Reply<D>(c: Client<D>): Outcome
    requires Ended(c)
  {
    if c.phase.Fetching? then Precondition else if c.phase.created then Outcome.Done else Unknown
  }

  function Landing<D>(s: State<D>): State<D> {
    if s.value.Some? then s
    else s.(value := Some(s.client.wanted), changes := s.changes + [Change(None, s.client.wanted, true)])
  }

  function Step<D(==)>(attempts: nat, s: State<D>, e: Event<D>): State<D> {
    if Ended(s.client) then s else
    match e
    case Send(processed, delayed, answer) =>
      if !s.client.phase.Sending? then s else
      var reached := processed || IsGenuine(answer);
      (if reached then Landing(s) else if delayed then s.(flight := s.flight + 1) else s)
        .(client := AfterSend(s.client, s.value.None?, answer))
    case Look(heard) =>
      var probe := Observe(s.value, heard);
      if s.client.phase.Probing? then s.(client := AfterProbe(attempts, s.client, probe))
      else if s.client.phase.Confirming? then s.(client := AfterConfirm(s.client, probe))
      else s
    case Land => if s.flight == 0 then s else Landing(s).(flight := s.flight - 1)
    case Store(document) =>
      s.(value := Some(document), changes := s.changes + [Change(s.value, document, false)])
    case Cancel => s.(client := s.client.(phase := Phase.Done(None, false)))
  }

  function Run<D(==)>(attempts: nat, s: State<D>, schedule: seq<Event<D>>): State<D> {
    if schedule == [] then s
    else Step(attempts, Run(attempts, s, schedule[..|schedule| - 1]), schedule[|schedule| - 1])
  }

  // ---------------------------------------------------------------- no other outcome

  /** The changes so far: the others' alone, or the create's own on an absent object and then the others'. */
  predicate LeadsTo<D(==)>(value: Option<D>, document: D, own: bool, others: seq<D>, s: State<D>) {
    && (own ==> value.None?)
    && var from := if own then Some(document) else value;
    && s.value == StoredBy(from, others)
    && s.changes == (if own then [Change(None, document, true)] else []) + ChangesBy(from, others)
  }

  /** What a caller has been told is true of the object. */
  predicate Told<D(==)>(s: State<D>) {
    && (s.client.phase.Done? && s.client.phase.created ==> s.value == Some(s.client.wanted))
    && (s.client.phase.Fetching? ==> s.value.Some?)
  }

  lemma StepLeads<D>(attempts: nat, value: Option<D>, own: bool, others: seq<D>, s: State<D>, e: Event<D>)
    returns (ownNext: bool, othersNext: seq<D>)
    requires LeadsTo(value, s.client.wanted, own, others, s) && Told(s)
    ensures LeadsTo(value, s.client.wanted, ownNext, othersNext, Step(attempts, s, e)) && Told(Step(attempts, s, e))
    ensures Step(attempts, s, e).client.wanted == s.client.wanted
  {
    hide ConditionalCreate.RetryableStatus;
    ownNext, othersNext := own, others;
    if !Ended(s.client) {
      if e.Store? {
        othersNext := others + [e.document];
        assert othersNext[..|others|] == others;
      } else if s.value.None? && Step(attempts, s, e).value.Some? {
        assert others == [] && s.changes == [];
        ownNext := true;
      }
    }
  }

  lemma {:induction false} RunLeads<D>(attempts: nat, value: Option<D>, document: D, schedule: seq<Event<D>>)
    returns (own: bool, others: seq<D>)
    ensures var s := Run(attempts, Begin(value, document), schedule);
      s.client.wanted == document && Told(s) && LeadsTo(value, document, own, others, s)
  {
    if schedule == [] {
      own, others := false, [];
    } else {
      var n := |schedule| - 1;
      own, others := RunLeads(attempts, value, document, schedule[..n]);
      hide Step, Told, LeadsTo;
      own, others := StepLeads(attempts, value, own, others, Run(attempts, Begin(value, document), schedule[..n]),
                               schedule[n]);
    }
  }

  /** The turns of the others under which a create has this outcome. */
  function TurnsOf<D>(own: bool, others: seq<D>, reply: Outcome): seq<Turn<D>> {
    match reply
    case Done => [if own then Turn([], Probed(true, others, false)) else Turn(others, Probed(false, [], false))]
    case Precondition => [if own then Turn([], Probed(true, others, true)) else Turn(others, Fault.Answered)]
    case Unknown => [if own then Turn([], Failed(true)) else Turn(others, Failed(false))]
  }

  lemma TurnsLead<D>(value: Option<D>, document: D, own: bool, others: seq<D>, s: State<D>)
    requires LeadsTo(value, document, own, others, s) && Told(s) && Ended(s.client) && s.client.wanted == document
    ensures var a := Created(value, TurnsOf(own, others, Reply(s.client)), document);
      var later := if own && Reply(s.client).Unknown? then others else [];
      && Reply(s.client) == a.reply && s.value == StoredBy(a.value, later)
      && s.changes == a.changes + ChangesBy(a.value, later)
  {
    assert ChangesBy<D>(value, []) == [];
    var turns := TurnsOf(own, others, Reply(s.client));
    var first := Change(None, document, true);
    assert [] + [first] == [first];
    assert s.changes == if own then [first] + ChangesBy(Some(document), others) else ChangesBy(value, others);
    assert Next(turns) == turns[0] && Rest(turns) == [];
    assert ChangesBy(value, others) + [] == ChangesBy(value, others);
  }

  /**
  A create that has ended has one of the outcomes of Created; only after an error may the others have
  stored more than its turns say, before the caller learned of it.
  */
  lemma ClientIsCreated<D>(attempts: nat, value: Option<D>, document: D, schedule: seq<Event<D>>)
    requires Ended(Run(attempts, Begin(value, document), schedule).client)
    ensures var s := Run(attempts, Begin(value, document), schedule);
      exists script, later :: EndsAs(s, Created(value, script, document), later)
  {
    hide Step, Created;
    var s := Run(attempts, Begin(value, document), schedule);
    var own, others := RunLeads(attempts, value, document, schedule);
    TurnsLead(value, document, own, others, s);
    var reply := Reply(s.client);
    var script, later := TurnsOf(own, others, reply), if own && reply.Unknown? then others else [];
    assert EndsAs(s, Created(value, script, document), later);
  }

  predicate EndsAs<D(==)>(s: State<D>, a: Access<D, Outcome>, later: seq<D>) {
    && Ended(s.client) && Reply(s.client) == a.reply && (later != [] ==> a.reply.Unknown?)
    && s.value == StoredBy(a.value, later) && s.changes == a.changes + ChangesBy(a.value, later)
  }

  // ---------------------------------------------------------------- each of them occurs

  /** What every create leaves, told apart by whether it was applied. */
  lemma {:induction false} CreatedLeads<D>(value: Option<D>, script: seq<Turn<D>>, document: D)
    returns (own: bool, others: seq<D>)
    ensures var a := Created(value, script, document);
      && (own ==> value.None?)
      && var from := if own then Some(document) else value;
      && a.value == StoredBy(from, others)
      && a.changes == (if own then [Change(None, document, true)] else []) + ChangesBy(from, others)
      && (a.reply.Done? ==> a.value == Some(document)) && (a.reply.Precondition? ==> a.value.Some?)
    decreases |script|
  {
    var turn, sent, first := Next(script), Sent(value, script, document), Change(None, document, true);
    assert [] + [first] == [first] + [] == [first];
    own := sent.reply;
    others := if own then [] else turn.others;
    assert sent.changes == if own then [first] else ChangesBy(value, others);
    if turn.fault.Probed? {
      var seen := StoredBy(sent.value, turn.fault.later);
      if seen.None? {
        assert sent.changes == [] && turn.fault.later == [];
        assert sent.script == Rest(script);
        own, others := CreatedLeads(None, sent.script, document);
      } else if own {
        others := turn.fault.later;
      } else {
        OthersJoin(value, turn.others, turn.fault.later);
        others := turn.others + turn.fault.later;
      }
    }
  }

  lemma {:induction false} OthersJoin<D>(value: Option<D>, a: seq<D>, b: seq<D>)
    ensures StoredBy(value, a + b) == StoredBy(StoredBy(value, a), b)
    ensures ChangesBy(value, a + b) == ChangesBy(value, a) + ChangesBy(StoredBy(value, a), b)
    decreases |b|
  {
    if b == [] {
      assert a + b == a;
    } else {
      var n := |b| - 1;
      OthersJoin(value, a, b[..n]);
      assert (a + b)[..|a + b| - 1] == a + b[..n];
    }
  }

  /** A schedule with a given outcome: the create lands before the others store, or never. */
  function ScheduleOf<D>(own: bool, others: seq<D>, reply: Outcome): seq<Event<D>> {
    var lost := ConditionalCreate.Transport(false);
    (if own then [Send(true, false, lost)] else []) + Stores(others)
    + match reply
      case Done => (if own then [] else [Send(false, false, lost)]) + [Look(Heard.Answered)]
      case Precondition =>
        [if own then Look(ConflictStatus) else Send(false, false, ConditionalCreate.Genuine)] + [Look(Heard.Answered)]
      case Unknown => [Cancel]
  }

  function Stores<D>(documents: seq<D>): seq<Event<D>> {
    seq(|documents|, i requires 0 <= i < |documents| => Store(documents[i]))
  }

  lemma RunOne<D>(attempts: nat, s: State<D>, e: Event<D>)
    ensures Run(attempts, s, [e]) == Step(attempts, s, e)
  {
    assert [e][..0] == [];
    assert Run(attempts, s, []) == s;
  }

  lemma {:induction false} RunJoins<D>(attempts: nat, s: State<D>, a: seq<Event<D>>, b: seq<Event<D>>)
    ensures Run(attempts, s, a + b) == Run(attempts, Run(attempts, s, a), b)
    decreases |b|
  {
    hide Step;
    if b == [] {
      assert a + b == a;
    } else {
      var n := |b| - 1;
      RunJoins(attempts, s, a, b[..n]);
      assert (a + b)[..|a + b| - 1] == a + b[..n];
    }
  }

  lemma {:induction false} RunStores<D>(attempts: nat, s: State<D>, documents: seq<D>)
    requires !Ended(s.client)
    ensures Run(attempts, s, Stores(documents))
         == s.(value := StoredBy(s.value, documents), changes := s.changes + ChangesBy(s.value, documents))
  {
    if documents != [] {
      var n := |documents| - 1;
      RunStores(attempts, s, documents[..n]);
      assert Stores(documents)[..n] == Stores(documents[..n]);
    }
  }

  /** Everything but the last events of such a schedule. */
  lemma ScheduleLeads<D>(attempts: nat, value: Option<D>, document: D, own: bool, others: seq<D>)
    requires own ==> value.None?
    ensures var lost: Event<D> := Send(true, false, ConditionalCreate.Transport(false));
      var s := Run(attempts, Begin(value, document), (if own then [lost] else []) + Stores(others));
      && LeadsTo(value, document, own, others, s)
      && s.client == Client(document, 0, own, if own then Probing(None) else Sending)
  {
    var begin, first := Begin(value, document), Send(true, false, ConditionalCreate.Transport(false));
    RunOne(attempts, begin, first);
    RunJoins(attempts, begin, if own then [first] else [], Stores(others));
    RunStores(attempts, if own then Step(attempts, begin, first) else begin, others);
    assert [] + [Change(None, document, true)] == [Change(None, document, true)];
  }

  /** Every outcome of Created is the end of some run of the client, however many attempts it has. */
  lemma CreatedIsClient<D>(attempts: nat, value: Option<D>, script: seq<Turn<D>>, document: D)
    ensures exists schedule ::
      EndsAs(Run(attempts, Begin(value, document), schedule), Created(value, script, document), [])
  {
    hide Created, Run, Step, ScheduleOf;
    var a := Created(value, script, document);
    var own, others := CreatedLeads(value, script, document);
    ScheduleEnds(attempts, value, document, own, others, a);
    assert a.changes + [] == a.changes;
    assert ChangesBy<D>(a.value, []) == [];
    assert EndsAs(Run(attempts, Begin(value, document), ScheduleOf(own, others, a.reply)), a, []);
  }

  lemma ScheduleEnds<D>(attempts: nat, value: Option<D>, document: D, own: bool, others: seq<D>, a: Access<D, Outcome>)
    requires own ==> value.None?
    requires var from := if own then Some(document) else value;
      && a.value == StoredBy(from, others)
      && a.changes == (if own then [Change(None, document, true)] else []) + ChangesBy(from, others)
    requires (a.reply.Done? ==> a.value == Some(document)) && (a.reply.Precondition? ==> a.value.Some?)
    ensures var s := Run(attempts, Begin(value, document), ScheduleOf(own, others, a.reply));
      Ended(s.client) && Reply(s.client) == a.reply && s.value == a.value && s.changes == a.changes
  {
    hide Run, StoredBy, ChangesBy;
    var begin := Begin(value, document);
    var lost := ConditionalCreate.Transport(false);
    var start := (if own then [Send(true, false, lost)] else []) + Stores(others);
    var s := Run(attempts, begin, start);
    ScheduleLeads(attempts, value, document, own, others);
    var end := ScheduleOf(own, others, a.reply)[|start|..];
    assert ScheduleOf(own, others, a.reply) == start + end;
    RunJoins(attempts, begin, start, end);
    RunOne(attempts, s, end[0]);
    if |end| > 1 {
      assert end == [end[0]] + [end[1]];
      RunJoins(attempts, s, [end[0]], [end[1]]);
      RunOne(attempts, Step(attempts, s, end[0]), end[1]);
    } else {
      assert end == [end[0]];
    }
  }

  // ---------------------------------------------------------------- what one event does

  /** A create that is processed lands where nothing is stored; one that is delayed is still under way. */
  lemma SendExactly<D>(attempts: nat, s: State<D>, processed: bool, delayed: bool, answer: ConditionalCreate.Answer)
    requires s.client.phase == Sending
    ensures var next, wanted := Step(attempts, s, Send(processed, delayed, answer)), s.client.wanted;
      var reached := processed || IsGenuine(answer);
      && next.value == (if s.value == None && reached then Some(wanted) else s.value)
      && next.changes == (if s.value == None && reached then s.changes + [Change(None, wanted, true)] else s.changes)
      && next.flight == (if delayed && !reached then s.flight + 1 else s.flight)
      && next.client == AfterSend(s.client, s.value == None, answer)
  {
    hide AfterSend;
  }

  /** Nothing is sent while an earlier create is being asked about, and nothing happens once it has ended. */
  lemma NothingElseHappens<D>(attempts: nat, s: State<D>, e: Event<D>)
    requires Ended(s.client) || (e.Send? && s.client.phase != Sending)
    ensures Step(attempts, s, e) == s
  {
  }

  /** A create under way lands where nothing is stored by then, and the others store at any time. */
  lemma OthersExactly<D>(attempts: nat, s: State<D>, document: D)
    requires !Ended(s.client)
    ensures Step(attempts, s, Store(document)) ==
      State(Some(document), s.changes + [Change(s.value, document, false)], s.flight, s.client)
    ensures var next := Step(attempts, s, Land);
      if s.flight == 0 then next == s
      else if s.value.Some? then next == s.(flight := s.flight - 1)
      else next == State(Some(s.client.wanted), s.changes + [Change(None, s.client.wanted, true)],
                         s.flight - 1, s.client)
    ensures Step(attempts, s, Cancel) == s.(client := s.client.(phase := Phase.Done(None, false)))
  {
  }

  /** What a look tells the caller, wherever it stands; it changes nothing but the caller. */
  lemma LookExactly<D>(attempts: nat, s: State<D>, heard: Heard)
    requires !Ended(s.client)
    ensures var c, next := s.client, Step(attempts, s, Look(heard));
      && next == s.(client := next.client)
      && (c.phase == Sending ==> next.client == c)
      && (c.phase == Confirming ==>
            next.client == c.(phase := if heard == Heard.Answered && s.value.Some? then Fetching
                                       else Phase.Done(None, false)))
      && (c.phase.Probing? && heard == Heard.Answered && s.value.Some? ==>
            next.client == c.(phase := if s.value == Some(c.wanted) then Phase.Done(s.value, true) else Confirming))
      && (c.phase.Probing? && heard == ConflictStatus ==> next.client == c.(phase := Confirming))
  {
    hide RetryOr, ConditionalCreate.RetryableStatus;
  }
}
