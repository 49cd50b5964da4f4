/**
The read-decide-write loop that every commit shares: what a whole commit does to one object, as a
function of the object and of what the other callers and the network do meanwhile.
*/
module CommitLoop {
  import opened Wrappers
  import opened ObjectStore

  /** What a caller does with the document it read: give up, leave it, or replace it. */
  datatype Verdict<D> = Refuse | Keep | Write(document: D)

  /** How a commit ends: it reports its write, it found nothing to do, or it reports an error. */
  datatype Ending = Committed | Unchanged | Failure

  /** A decision on what was read, which may update what the caller carries into its next attempt. */
  type Decider<!S, !D> = (S, Option<D>) -> (S, Verdict<D>)

  datatype Trace<S, D> = Trace(carried: S, value: Option<D>, script: seq<Turn<D>>, changes: seq<Change<D>>,
                               ending: Ending)

  /** The write that a verdict asks for: a create where nothing was read, a swap of what was read otherwise. */
  function Written<D(==)>(read: Access<D, Lookup<D>>, document: D): Access<D, Outcome> {
    if read.value.None? then Created(read.value, read.script, document)
    else Swapped(read.value, read.script, read.value.value, document)
  }

  /** One commit with so many attempts: a raced write, or a create found not to be its own, is tried again. */
  function Loop<S, D(==)>(decide: Decider<S, D>, carried: S, value: Option<D>, script: seq<Turn<D>>,
                          attempts: nat): Trace<S, D>
    decreases attempts
  {
    if attempts == 0 then Trace(carried, value, script, [], Failure) else
    var read := Looked(value, script);
    if read.reply.Unavailable? then Trace(carried, read.value, read.script, read.changes, Failure) else
    var (next, verdict) := decide(carried, read.value);
    match verdict
    case Refuse => Trace(next, read.value, read.script, read.changes, Failure)
    case Keep => Trace(next, read.value, read.script, read.changes, Unchanged)
    case Write(document) =>
      var put := Written(read, document);
      var changes := read.changes + put.changes;
      match put.reply
      case Done => Trace(next, put.value, put.script, changes, Committed)
      case Unknown => Trace(next, put.value, put.script, changes, Failure)
      case Precondition => After(changes, Loop(decide, next, put.value, put.script, attempts - 1))
  }

  function After<S, D>(changes: seq<Change<D>>, rest: Trace<S, D>): Trace<S, D> {
    rest.(changes := changes + rest.changes)
  }

  // ---------------------------------------------------------------- every own write is a decision

  /** The caller's own changes are its decisions on the very documents they replaced. */
  ghost predicate Decided<S(!new), D>(decide: Decider<S, D>, ok: S -> bool, changes: seq<Change<D>>) {
    forall i :: 0 <= i < |changes| && changes[i].own ==> IsDecision(decide, ok, changes[i])
  }

  ghost predicate IsDecision<S(!new), D>(decide: Decider<S, D>, ok: S -> bool, change: Change<D>) {
    exists carried :: ok(carried) && decide(carried, change.before).1 == Write(change.after)
  }

  /** Whatever a decision keeps true of the carried value stays true of it. */
  ghost predicate Kept<S(!new), D(!new)>(decide: Decider<S, D>, ok: S -> bool) {
    forall carried, value :: ok(carried) ==> ok(decide(carried, value).0)
  }

  lemma DecidedJoins<S(!new), D(!new)>(decide: Decider<S, D>, ok: S -> bool, a: seq<Change<D>>, b: seq<Change<D>>)
    requires Decided(decide, ok, a) && Decided(decide, ok, b)
    ensures Decided(decide, ok, a + b)
  {
  }

  lemma OthersDecideNothing<S(!new), D(!new)>(decide: Decider<S, D>, ok: S -> bool, value: Option<D>, documents: seq<D>)
    ensures Decided(decide, ok, ChangesBy(value, documents))
  {
    OthersChain(value, documents);
  }

  lemma {:induction false} CreatedIsDecided<S(!new), D(!new)>(decide: Decider<S, D>, ok: S -> bool, carried: S,
                                                  value: Option<D>, script: seq<Turn<D>>, document: D)
    requires ok(carried) && decide(carried, None).1 == Write(document)
    ensures Decided(decide, ok, Created(value, script, document).changes)
    decreases |script|
  {
    OthersDecideNothing(decide, ok, value, Next(script).others);
    var sent := Sent(value, script, document);
    assert sent.script == Rest(script);
    assert IsDecision(decide, ok, Change(None, document, true));
    DecidedJoins(decide, ok, ChangesBy(value, Next(script).others),
                 if sent.reply then [Change(None, document, true)] else []);
    var fault := Next(script).fault;
    hide Sent, IsDecision;
    if fault.Probed? {
      OthersDecideNothing(decide, ok, sent.value, fault.later);
      var seen := StoredBy(sent.value, fault.later);
      var changes := sent.changes + ChangesBy(sent.value, fault.later);
      DecidedJoins(decide, ok, sent.changes, ChangesBy(sent.value, fault.later));
      if seen.None? {
        CreatedIsDecided(decide, ok, carried, seen, sent.script, document);
        DecidedJoins(decide, ok, changes, Created(seen, sent.script, document).changes);
      }
    }
  }

  lemma WrittenIsDecided<S(!new), D(!new)>(decide: Decider<S, D>, ok: S -> bool, carried: S,
                                            read: Access<D, Lookup<D>>, document: D)
    requires ok(carried) && decide(carried, read.value).1 == Write(document)
    ensures Decided(decide, ok, Written(read, document).changes)
  {
    if read.value.None? {
      CreatedIsDecided(decide, ok, carried, read.value, read.script, document);
    } else {
      OthersDecideNothing(decide, ok, read.value, Next(read.script).others);
      assert IsDecision(decide, ok, Change(read.value, document, true));
    }
  }

  /** No commit ever writes anything but its decision about the document it replaces. */
  lemma {:induction false} OwnWritesAreDecisions<S(!new), D(!new)>(decide: Decider<S, D>, ok: S -> bool, carried: S,
                                                       value: Option<D>, script: seq<Turn<D>>, attempts: nat)
    requires ok(carried) && Kept(decide, ok)
    ensures Decided(decide, ok, Loop(decide, carried, value, script, attempts).changes)
    ensures ok(Loop(decide, carried, value, script, attempts).carried)
    decreases attempts
  {
    hide Decided, Looked, Written;
    var read := Looked(value, script);
    assert Decided(decide, ok, []) by { NothingDecided(decide, ok); }
    if attempts > 0 {
      LookDecidesNothing(decide, ok, value, script);
      var (next, verdict) := decide(carried, read.value);
      if !read.reply.Unavailable? && verdict.Write? {
        var put := Written(read, verdict.document);
        WrittenIsDecided(decide, ok, carried, read, verdict.document);
        DecidedJoins(decide, ok, read.changes, put.changes);
        if put.reply.Precondition? {
          OwnWritesAreDecisions(decide, ok, next, put.value, put.script, attempts - 1);
          DecidedJoins(decide, ok, read.changes + put.changes,
                       Loop(decide, next, put.value, put.script, attempts - 1).changes);
        }
      }
    }
  }

  lemma NothingDecided<S(!new), D(!new)>(decide: Decider<S, D>, ok: S -> bool)
    ensures Decided(decide, ok, [])
  {
  }

  lemma LookDecidesNothing<S(!new), D(!new)>(decide: Decider<S, D>, ok: S -> bool, value: Option<D>,
                                               script: seq<Turn<D>>)
    ensures Decided(decide, ok, Looked(value, script).changes)
  {
    OthersDecideNothing(decide, ok, value, Next(script).others);
  }

  // ---------------------------------------------------------------- what an ending means

  lemma {:induction false} DoneIsStored<D>(read: Access<D, Lookup<D>>, document: D)
    ensures Written(read, document).reply.Done? ==> Written(read, document).value == Some(document)
    ensures Written(read, document).reply.Precondition? ==> Written(read, document).value.Some? || read.value.Some?
  {
    if read.value.None? {
      CreatedIsStored(read.value, read.script, document);
    }
  }

  lemma {:induction false} CreatedIsStored<D>(value: Option<D>, script: seq<Turn<D>>, document: D)
    ensures var a := Created(value, script, document);
      && (a.reply.Done? ==> a.value == Some(document))
      && (a.reply.Precondition? ==> a.value.Some?)
      && (value.Some? ==> a.value.Some?)
    decreases |script|
  {
    var sent := Sent(value, script, document);
    assert sent.script == Rest(script);
    if Next(script).fault.Probed? && StoredBy(sent.value, Next(script).fault.later).None? {
      CreatedIsStored(None, sent.script, document);
    }
  }

  /** Reported changes are decisions whose document is stored; a report of no change is a decision to keep. */
  lemma {:induction false} EndingIsTrue<S(!new), D(!new)>(decide: Decider<S, D>, ok: S -> bool, carried: S,
                                                          value: Option<D>, script: seq<Turn<D>>, attempts: nat)
    requires ok(carried) && Kept(decide, ok)
    ensures var run := Loop(decide, carried, value, script, attempts);
      && (run.ending.Unchanged? ==> exists t :: ok(t) && decide(t, run.value).1.Keep?)
      && (run.ending.Committed? ==>
            run.value.Some? && exists t, seen :: ok(t) && decide(t, seen).1 == Write(run.value.value))
    decreases attempts
  {
    hide Looked, Written;
    if attempts > 0 {
      var read := Looked(value, script);
      var (next, verdict) := decide(carried, read.value);
      if !read.reply.Unavailable? && verdict.Write? {
        DoneIsStored(read, verdict.document);
        var put := Written(read, verdict.document);
        if put.reply.Precondition? {
          EndingIsTrue(decide, ok, next, put.value, put.script, attempts - 1);
        }
      }
    }
  }

  /** Some attempt within the limit is answered and not raced, and every access before it is answered. */
  predicate Settles<D(==)>(script: seq<Turn<D>>, attempts: nat) {
    && attempts > 0
    && Next(script).fault.Answered? && Next(Rest(script)).fault.Answered?
    && (Next(Rest(script)).others == [] || Settles(Rest(Rest(script)), attempts - 1))
  }

  /** A commit that was answered, and not raced to the end, fails only where it refuses what is stored. */
  lemma {:induction false} SettledFailureIsRefusal<S(!new), D(!new)>(decide: Decider<S, D>, ok: S -> bool, carried: S,
                                                                     value: Option<D>, script: seq<Turn<D>>,
                                                                     attempts: nat)
    requires ok(carried) && Kept(decide, ok) && Settles(script, attempts)
    ensures var run := Loop(decide, carried, value, script, attempts);
      run.ending.Failure? ==> exists t :: ok(t) && decide(t, run.value).1.Refuse?
    decreases attempts
  {
    var read := Looked(value, script);
    var (next, verdict) := decide(carried, read.value);
    if verdict.Write? {
      var put := Written(read, verdict.document);
      assert put.script == Rest(Rest(script));
      if put.reply.Precondition? {
        SettledFailureIsRefusal(decide, ok, next, put.value, put.script, attempts - 1);
      }
    }
  }

  /** The first look and the access after it are answered, and nobody stores anything in between. */
  predicate Unraced<D>(script: seq<Turn<D>>) {
    Next(script).fault.Answered? && Next(Rest(script)) == Turn([], Answered)
  }

  /** A commit that is not raced stores what it decides on what it sees, and says so. */
  lemma UnracedIsDecided<S, D>(decide: Decider<S, D>, carried: S, value: Option<D>, script: seq<Turn<D>>,
                               attempts: nat)
    requires attempts > 0 && Unraced(script)
    ensures var run, seen := Loop(decide, carried, value, script, attempts), StoredBy(value, Next(script).others);
      match decide(carried, seen).1
      case Refuse => run.ending.Failure? && run.value == seen
      case Keep => run.ending.Unchanged? && run.value == seen
      case Write(document) => run.ending.Committed? && run.value == Some(document)
  {
    var read := Looked(value, script);
    var verdict := decide(carried, read.value).1;
    if verdict.Write? {
      assert StoredBy(read.value, []) == read.value;
    }
  }

  lemma {:induction false} LoopChains<S, D>(decide: Decider<S, D>, carried: S, value: Option<D>,
                                            script: seq<Turn<D>>, attempts: nat)
    ensures var run := Loop(decide, carried, value, script, attempts); Chained(value, run.changes, run.value)
    decreases attempts
  {
    hide Chained, Looked, Swapped, Created;
    NothingChains(value);
    if attempts > 0 {
      LookedChains(value, script);
      var read := Looked(value, script);
      var (next, verdict) := decide(carried, read.value);
      if !read.reply.Unavailable? && verdict.Write? {
        var put := Written(read, verdict.document);
        WrittenChains(read, verdict.document);
        ChainsJoin(value, read.changes, read.value, put.changes, put.value);
        if put.reply.Precondition? {
          var rest := Loop(decide, next, put.value, put.script, attempts - 1);
          LoopChains(decide, next, put.value, put.script, attempts - 1);
          ChainsJoin(value, read.changes + put.changes, put.value, rest.changes, rest.value);
        }
      }
    }
  }

  lemma NothingChains<D>(value: Option<D>)
    ensures Chained(value, [], value)
  {
  }

  lemma WrittenChains<D>(read: Access<D, Lookup<D>>, document: D)
    ensures var put := Written(read, document); Chained(read.value, put.changes, put.value)
  {
    hide Chained, Swapped, Created;
    if read.value.None? {
      CreatedChains(read.value, read.script, document);
    } else {
      SwappedChains(read.value, read.script, read.value.value, document);
    }
  }

  // ---------------------------------------------------------------- how often one commit writes

  function OwnWrites<D>(changes: seq<Change<D>>): nat {
    if changes == [] then 0 else
    OwnWrites(changes[..|changes| - 1]) + if changes[|changes| - 1].own then 1 else 0
  }

  lemma {:induction false} OwnWritesAdd<D>(a: seq<Change<D>>, b: seq<Change<D>>)
    ensures OwnWrites(a + b) == OwnWrites(a) + OwnWrites(b)
    decreases |b|
  {
    if b == [] {
      assert a + b == a;
    } else {
      var n := |b| - 1;
      OwnWritesAdd(a, b[..n]);
      assert (a + b)[..|a + b| - 1] == a + b[..n];
    }
  }

  lemma {:induction false} OthersAreNotOwn<D>(value: Option<D>, documents: seq<D>)
    ensures OwnWrites(ChangesBy(value, documents)) == 0
  {
    if documents != [] {
      OthersAreNotOwn(value, documents[..|documents| - 1]);
    }
  }

  lemma OneOwnWrite<D>(change: Change<D>)
    ensures OwnWrites([change]) == if change.own then 1 else 0
  {
    assert [change][..0] == [];
  }

  /**
  The create was applied and still ends as not created: looks before it found nothing, its reply was
  lost, and then it was replaced before the look that decides, or that look denied it.
  */
  predicate Denied<D(==)>(value: Option<D>, script: seq<Turn<D>>, document: D)
    decreases |script|
  {
    && script != [] && script[0].fault.Probed? && StoredBy(value, script[0].others).None?
    && if script[0].fault.applied
       then script[0].fault.denied || StoredBy(Some(document), script[0].fault.later) != Some(document)
       else script[0].fault.later == [] && Denied(None, script[1..], document)
  }

  /** The create ends as created although it was not applied: the look that decides finds another's equal document. */
  predicate Claimed<D(==)>(value: Option<D>, script: seq<Turn<D>>, document: D)
    decreases |script|
  {
    && script != [] && script[0].fault.Probed?
    && var found := StoredBy(value, script[0].others);
    && !(found.None? && script[0].fault.applied)
    && var seen := StoredBy(found, script[0].fault.later);
    if seen.None? then Claimed(None, script[1..], document)
    else seen == Some(document) && !script[0].fault.denied
  }

  lemma SentWrites<D>(value: Option<D>, script: seq<Turn<D>>, document: D)
    ensures var a := Sent(value, script, document); OwnWrites(a.changes) == if a.reply then 1 else 0
  {
    var others := ChangesBy(value, Next(script).others);
    OthersAreNotOwn(value, Next(script).others);
    OneOwnWrite(Change(None, document, true));
    OwnWritesAdd(others, [Change(None, document, true)]);
    assert others + [] == others;
  }

  /** A create is applied at most once; its report is wrong about that in exactly two ways. */
  lemma {:induction false} CreateIsReportedExactly<D>(value: Option<D>, script: seq<Turn<D>>, document: D)
    ensures var a := Created(value, script, document);
      && OwnWrites(a.changes) <= 1
      && (value.Some? ==> OwnWrites(a.changes) == 0)
      && (a.reply.Precondition? && OwnWrites(a.changes) == 1 <==> Denied(value, script, document))
      && (a.reply.Done? && OwnWrites(a.changes) == 0 <==> Claimed(value, script, document))
    decreases |script|
  {
    hide OwnWrites, ChangesBy;
    SentWrites(value, script, document);
    var sent := Sent(value, script, document);
    assert sent.script == Rest(script);
    var fault := Next(script).fault;
    if fault.Probed? {
      var seen := StoredBy(sent.value, fault.later);
      var changes := sent.changes + ChangesBy(sent.value, fault.later);
      OthersAreNotOwn(sent.value, fault.later);
      OwnWritesAdd(sent.changes, ChangesBy(sent.value, fault.later));
      if seen.None? {
        CreateIsReportedExactly(seen, sent.script, document);
        OwnWritesAdd(changes, Created(seen, sent.script, document).changes);
      }
    }
  }

  /** An equal document that another caller stores while the create is lost is reported as created. */
  lemma EqualDocumentIsClaimed<D>(document: D)
    ensures var script := [Turn([document], Probed(false, [], false))];
      && Claimed(None, script, document)
      && Created(None, script, document).reply.Done? && OwnWrites(Created(None, script, document).changes) == 0
  {
    var script := [Turn([document], Probed(false, [], false))];
    assert StoredBy(None, script[0].others) == Some(document);
    CreateIsReportedExactly(None, script, document);
  }

  lemma SwapWrites<D>(value: Option<D>, script: seq<Turn<D>>, expected: D, document: D)
    ensures var a := Swapped(value, script, expected, document);
      && OwnWrites(a.changes) <= 1 && (a.reply.Precondition? ==> OwnWrites(a.changes) == 0)
      && (a.reply.Done? ==> OwnWrites(a.changes) == 1) && (value.Some? ==> a.value.Some?)
      && (script == [] && value == Some(expected) ==> a.reply.Done?)
  {
    var others := Next(script).others;
    var now := StoredBy(value, others);
    OthersAreNotOwn(value, others);
    OneOwnWrite(Change(now, document, true));
    OwnWritesAdd(ChangesBy(value, others), [Change(now, document, true)]);
  }

  /** Once something is stored, a commit writes at most once. */
  lemma {:induction false} StoredIsWrittenOnce<S, D>(decide: Decider<S, D>, carried: S, value: Option<D>,
                                                     script: seq<Turn<D>>, attempts: nat)
    requires value.Some?
    ensures OwnWrites(Loop(decide, carried, value, script, attempts).changes) <= 1
    decreases attempts
  {
    hide OwnWrites, ChangesBy, Swapped;
    NoOwnWrite<D>();
    if attempts > 0 {
      var read := Looked(value, script);
      OthersAreNotOwn(value, Next(script).others);
      assert read.value.Some?;
      var (next, verdict) := decide(carried, read.value);
      if !read.reply.Unavailable? && verdict.Write? {
        var put := Written(read, verdict.document);
        SwapWrites(read.value, read.script, read.value.value, verdict.document);
        OwnWritesAdd(read.changes, put.changes);
        if put.reply.Precondition? {
          StoredIsWrittenOnce(decide, next, put.value, put.script, attempts - 1);
          OwnWritesAdd(read.changes + put.changes, Loop(decide, next, put.value, put.script, attempts - 1).changes);
        }
      }
    }
  }

  lemma NoOwnWrite<D>()
    ensures OwnWrites<D>([]) == 0
  {
  }

  /**
  The attempts that are left over a stored object write it: in some attempt that follows only raced
  ones the decision is to write, and its swap reaches the store before anything else is stored.
  */
  predicate Rewrites<S, D(==)>(decide: Decider<S, D>, carried: S, value: Option<D>, script: seq<Turn<D>>,
                               attempts: nat)
    decreases attempts
  {
    && attempts > 0 && Next(script).fault.Answered?
    && var seen, swap := StoredBy(value, Next(script).others), Next(Rest(script));
    && var (next, verdict) := decide(carried, seen);
    && verdict.Write?
    && if StoredBy(seen, swap.others) == seen then Reaches(swap.fault)
       else swap.fault.Answered?
            && Rewrites(decide, next, StoredBy(seen, swap.others), Rest(Rest(script)), attempts - 1)
  }

  lemma SwapOutcome<D>(value: Option<D>, script: seq<Turn<D>>, document: D)
    requires value.Some?
    ensures var turn, a := Next(script), Swapped(value, script, value.value, document);
      && var raced := StoredBy(value, turn.others) != value;
      && OwnWrites(a.changes) == (if !raced && Reaches(turn.fault) then 1 else 0)
      && (a.reply.Precondition? <==> raced && turn.fault.Answered?)
      && (a.reply.Precondition? ==> a.value == StoredBy(value, turn.others) && a.value.Some?)
      && (a.reply.Precondition? ==> a.script == Rest(script))
  {
    SwapWrites(value, script, value.value, document);
    OthersAreNotOwn(value, Next(script).others);
    OneOwnWrite(Change(value, document, true));
    OwnWritesAdd(ChangesBy(value, Next(script).others), [Change(value, document, true)]);
  }

  /** Over a stored object, whether a commit writes is decided by what happens before each of its accesses. */
  lemma {:induction false} StoredIsRewrittenExactly<S, D>(decide: Decider<S, D>, carried: S, value: Option<D>,
                                                          script: seq<Turn<D>>, attempts: nat)
    requires value.Some?
    ensures OwnWrites(Loop(decide, carried, value, script, attempts).changes) == 1
       <==> Rewrites(decide, carried, value, script, attempts)
    decreases attempts
  {
    hide OwnWrites, ChangesBy, Swapped, StoredBy, Next, Rest;
    NoOwnWrite<D>();
    if attempts > 0 {
      var read := Looked(value, script);
      LookIsAnswered(value, script);
      var (next, verdict) := decide(carried, read.value);
      if !read.reply.Unavailable? && verdict.Write? {
        var put := Written(read, verdict.document);
        SwapOutcome(read.value, read.script, verdict.document);
        OwnWritesAdd(read.changes, put.changes);
        if put.reply.Precondition? {
          StoredIsRewrittenExactly(decide, next, put.value, put.script, attempts - 1);
          OwnWritesAdd(read.changes + put.changes, Loop(decide, next, put.value, put.script, attempts - 1).changes);
        }
      }
    }
  }

  lemma LookIsAnswered<D>(value: Option<D>, script: seq<Turn<D>>)
    ensures var read := Looked(value, script);
      && read.value == StoredBy(value, Next(script).others) && read.script == Rest(script)
      && OwnWrites(read.changes) == 0 && (value.Some? ==> read.value.Some?)
      && (read.reply.Unavailable? <==> !Next(script).fault.Answered?)
  {
    OthersAreNotOwn(value, Next(script).others);
  }

  /** The first attempt of a commit that found nothing: its create, and the attempts that are left after it. */
  predicate Creates<S, D(==)>(decide: Decider<S, D>, carried: S, value: Option<D>, script: seq<Turn<D>>) {
    Looked(value, script).reply.NotFound? && decide(carried, None).1.Write?
  }

  function CreatedFirst<S, D(==)>(decide: Decider<S, D>, carried: S, value: Option<D>,
                                  script: seq<Turn<D>>): Access<D, Outcome>
    requires Creates(decide, carried, value, script)
  {
    Created(None, Looked(value, script).script, decide(carried, None).1.document)
  }

  /**
  One commit writes at most twice. It writes a second time exactly when its first attempt finds nothing,
  its create is applied but denied, and the attempts that are left rewrite what is stored by then.
  */
  lemma SecondWriteExactly<S, D>(decide: Decider<S, D>, carried: S, value: Option<D>, script: seq<Turn<D>>,
                                 attempts: nat)
    ensures OwnWrites(Loop(decide, carried, value, script, attempts).changes) <= 2
    ensures OwnWrites(Loop(decide, carried, value, script, attempts).changes) == 2 <==>
      && attempts > 0 && Creates(decide, carried, value, script)
      && var (next, verdict) := decide(carried, None);
      && Denied(None, Looked(value, script).script, verdict.document)
      && var put := CreatedFirst(decide, carried, value, script);
      && Rewrites(decide, next, put.value, put.script, attempts - 1)
  {
    hide OwnWrites, ChangesBy, Swapped, Created, Denied, Rewrites;
    NoOwnWrite<D>();
    if attempts > 0 {
      var read := Looked(value, script);
      OthersAreNotOwn(value, Next(script).others);
      var (next, verdict) := decide(carried, read.value);
      if !read.reply.Unavailable? && verdict.Write? {
        var put := Written(read, verdict.document);
        OwnWritesAdd(read.changes, put.changes);
        if read.value.None? {
          CreateIsReportedExactly(read.value, read.script, verdict.document);
          CreatedIsStored(read.value, read.script, verdict.document);
        } else {
          SwapWrites(read.value, read.script, read.value.value, verdict.document);
        }
        if put.reply.Precondition? {
          StoredIsWrittenOnce(decide, next, put.value, put.script, attempts - 1);
          StoredIsRewrittenExactly(decide, next, put.value, put.script, attempts - 1);
          OwnWritesAdd(read.changes + put.changes, Loop(decide, next, put.value, put.script, attempts - 1).changes);
        }
      }
    }
  }

  /** With nothing else going on, the attempts that are left write exactly when they decide to. */
  lemma QuietWrite<S, D>(decide: Decider<S, D>, carried: S, value: Option<D>, attempts: nat)
    requires value.Some?
    ensures OwnWrites(Loop(decide, carried, value, [], attempts).changes) == 1 <==>
      attempts > 0 && decide(carried, value).1.Write?
  {
    hide Loop, OwnWrites;
    StoredIsRewrittenExactly(decide, carried, value, [], attempts);
  }

  /** A store that is empty, a create whose reply is lost, and another caller's document stored before the look. */
  function ReplacedScript<D>(replacement: D): seq<Turn<D>> {
    [Turn([], Answered), Turn([], Probed(true, [replacement], false))]
  }

  /**
  A commit that does write twice: it creates a document, another caller replaces it, and it decides
  to write again.
  */
  lemma ReplacedCreateWritesTwice<S, D>(decide: Decider<S, D>, carried: S, replacement: D, attempts: nat)
    requires attempts > 1
    requires var (next, verdict) := decide(carried, None);
      verdict.Write? && verdict.document != replacement && decide(next, Some(replacement)).1.Write?
    ensures OwnWrites(Loop(decide, carried, None, ReplacedScript(replacement), attempts).changes) == 2
  {
    hide OwnWrites, Loop;
    var script := ReplacedScript(replacement);
    var (next, verdict) := decide(carried, None);
    var read := Looked(None, script);
    assert read.reply.NotFound? && read.script == script[1..];
    assert Rest(read.script) == [];
    assert StoredBy(Some(verdict.document), [replacement]) == Some(replacement);
    assert Denied(None, read.script, verdict.document);
    var put := CreatedFirst(decide, carried, None, script);
    assert put.value == Some(replacement) && put.script == [];
    SecondWriteExactly(decide, carried, None, script, attempts);
  }

  // ---------------------------------------------------------------- commits that carry nothing

  /** A decision that depends on nothing but what was read. */
  function Plain<D>(decide: Option<D> -> Verdict<D>): Decider<(), D> {
    (carried: (), current: Option<D>) => (carried, decide(current))
  }

  function Commit<D(==)>(decide: Option<D> -> Verdict<D>, value: Option<D>, script: seq<Turn<D>>): Trace<(), D> {
    Loop(Plain(decide), (), value, script, 5)
  }

  /** What one commit may do, and what its report means. */
  ghost predicate Faithful<D(!new)>(decide: Option<D> -> Verdict<D>, run: Trace<(), D>) {
    && (forall i :: 0 <= i < |run.changes| && run.changes[i].own ==>
          decide(run.changes[i].before) == Write(run.changes[i].after))
    && OwnWrites(run.changes) <= 2
    && (run.ending.Unchanged? ==> decide(run.value).Keep?)
    && (run.ending.Committed? ==> run.value.Some? && exists seen :: decide(seen) == Write(run.value.value))
  }

  /** Every commit is faithful, and an answered one that is not raced to the end fails only where it refuses. */
  lemma CommitIsFaithful<D(!new)>(decide: Option<D> -> Verdict<D>, value: Option<D>, script: seq<Turn<D>>)
    ensures Faithful(decide, Commit(decide, value, script))
    ensures Settles(script, 5) && Commit(decide, value, script).ending.Failure? ==>
      decide(Commit(decide, value, script).value).Refuse?
  {
    hide Loop, Settles, OwnWrites;
    var d, ok := Plain(decide), (u: ()) => true;
    var run := Commit(decide, value, script);
    assert Kept(d, ok);
    OwnWritesAreDecisions(d, ok, (), value, script, 5);
    forall i | 0 <= i < |run.changes| && run.changes[i].own
      ensures decide(run.changes[i].before) == Write(run.changes[i].after)
    {
      assert IsDecision(d, ok, run.changes[i]);
    }
    EndingIsTrue(d, ok, (), value, script, 5);
    SecondWriteExactly(d, (), value, script, 5);
    if Settles(script, 5) {
      SettledFailureIsRefusal(d, ok, (), value, script, 5);
    }
  }

  // ---------------------------------------------------------------- following a loop step by step

  /** What is left of a loop after some of its attempts continues the whole of it. */
  ghost predicate Continues<S, D>(whole: Trace<S, D>, done: seq<Change<D>>, rest: Trace<S, D>) {
    whole == After(done, rest)
  }

  ghost predicate Ends<S, D>(whole: Trace<S, D>, done: seq<Change<D>>, value: Option<D>, ending: Ending) {
    whole.value == value && whole.changes == done && whole.ending == ending
  }

  lemma Begins<S, D>(whole: Trace<S, D>)
    ensures Continues(whole, [], whole)
  {
    assert [] + whole.changes == whole.changes;
  }

  lemma NoAttemptLeft<S, D>(decide: Decider<S, D>, carried: S, value: Option<D>, script: seq<Turn<D>>,
                            whole: Trace<S, D>, done: seq<Change<D>>)
    requires Continues(whole, done, Loop(decide, carried, value, script, 0))
    ensures Ends(whole, done, value, Failure)
  {
    assert done + [] == done;
  }

  /** One attempt: what it reads, and how each outcome ends or continues the whole loop. */
  lemma AttemptReads<S, D>(decide: Decider<S, D>, carried: S, value: Option<D>, script: seq<Turn<D>>, attempts: nat,
                           whole: Trace<S, D>, done: seq<Change<D>>)
    requires attempts > 0 && Continues(whole, done, Loop(decide, carried, value, script, attempts))
    ensures var read := Looked(value, script);
      && (read.reply.Unavailable? ==> Ends(whole, done + read.changes, read.value, Failure))
      && (read.reply.NotFound? ==> read.value.None?)
      && (read.reply.Found? ==> read.value == Some(read.reply.document))
      && (!read.reply.Unavailable? ==>
            var verdict := decide(carried, read.value).1;
            && (verdict.Refuse? ==> Ends(whole, done + read.changes, read.value, Failure))
            && (verdict.Keep? ==> Ends(whole, done + read.changes, read.value, Unchanged)))
  {
  }

  lemma AttemptWrites<S, D>(decide: Decider<S, D>, carried: S, value: Option<D>, script: seq<Turn<D>>, attempts: nat,
                            whole: Trace<S, D>, done: seq<Change<D>>, document: D)
    requires attempts > 0 && Continues(whole, done, Loop(decide, carried, value, script, attempts))
    requires !Looked(value, script).reply.Unavailable?
      && decide(carried, Looked(value, script).value).1 == Write(document)
    ensures var read := Looked(value, script);
      var put, next := Written(read, document), decide(carried, read.value).0;
      var all := done + read.changes + put.changes;
      && (put.reply.Done? ==> Ends(whole, all, put.value, Committed))
      && (put.reply.Unknown? ==> Ends(whole, all, put.value, Failure))
      && (put.reply.Precondition? ==> Continues(whole, all, Loop(decide, next, put.value, put.script, attempts - 1)))
  {
    hide Looked, Written;
    var read := Looked(value, script);
    var put := Written(read, document);
    assert done + (read.changes + put.changes) == done + read.changes + put.changes;
    if put.reply.Precondition? {
      var rest := Loop(decide, decide(carried, read.value).0, put.value, put.script, attempts - 1);
      assert done + (read.changes + put.changes + rest.changes) == done + read.changes + put.changes + rest.changes;
    }
  }

  lemma LogGrows<D>(start: seq<Change<D>>, done: seq<Change<D>>, changes: seq<Change<D>>)
    ensures start + done + changes == start + (done + changes)
  {
  }
}
