/**
One mutable object behind Get, PutIfAbsent and CompareAndSwap, as a caller sees it while any
number of other callers write the same object between its calls, and while replies get lost.
An object's ETag is the identity of its content, so a swap names the content it expects.
*/
module ObjectStore {
  import opened Wrappers

  /** How one access goes: what the others store just before it, and what becomes of it. */
  datatype Turn<D> = Turn(others: seq<D>, fault: Fault<D>)

  /**
  A failed access reports an error, and a failed write may have been applied all the same. A create
  with a lost reply is settled by looking at what is stored, after what others store in the meantime.
  The look may also deny a create that was applied: when it landed only after an earlier look, or when
  the look hears a conflict instead of the object.
  */
  datatype Fault<D> = Answered | Failed(applied: bool) | Probed(applied: bool, later: seq<D>, denied: bool)

  /** One change of the object. */
  datatype Change<D> = Change(before: Option<D>, after: D, own: bool)

  datatype Lookup<D> = Found(document: D) | NotFound | Unavailable

  datatype Outcome = Done | Precondition | Unknown

  // ---------------------------------------------------------------- what the others do

  function StoredBy<D>(value: Option<D>, documents: seq<D>): Option<D> {
    if documents == [] then value else Some(documents[|documents| - 1])
  }

  function ChangesBy<D>(value: Option<D>, documents: seq<D>): seq<Change<D>> {
    if documents == [] then [] else
    var n := |documents| - 1;
    ChangesBy(value, documents[..n]) + [Change(StoredBy(value, documents[..n]), documents[n], false)]
  }

  /** The turn that comes next; past the end of the script nothing interferes and every reply arrives. */
  function Next<D>(script: seq<Turn<D>>): Turn<D> {
    if script == [] then Turn([], Answered) else script[0]
  }

  function Rest<D>(script: seq<Turn<D>>): seq<Turn<D>> {
    if script == [] then [] else script[1..]
  }

  /** Whether a write that leaves the caller reaches the store. */
  predicate Reaches<D>(fault: Fault<D>) {
    fault.Answered? || fault.applied
  }

  // ---------------------------------------------------------------- one access

  /** What one access leaves behind: the object, the script, the changes made meanwhile, and its reply. */
  datatype Access<D, R> = Access(value: Option<D>, script: seq<Turn<D>>, changes: seq<Change<D>>, reply: R)

  function Looked<D>(value: Option<D>, script: seq<Turn<D>>): Access<D, Lookup<D>> {
    var turn := Next(script);
    var now := StoredBy(value, turn.others);
    Access(now, Rest(script), ChangesBy(value, turn.others),
           if !turn.fault.Answered? then Unavailable else if now.None? then NotFound else Found(now.value))
  }

  /** A swap is sent once: its reply is the store's, or it is lost. */
  function Swapped<D(==)>(value: Option<D>, script: seq<Turn<D>>, expected: D, document: D): Access<D, Outcome> {
    var turn := Next(script);
    var now := StoredBy(value, turn.others);
    var changes := ChangesBy(value, turn.others);
    if now == Some(expected) && Reaches(turn.fault) then
      Access(Some(document), Rest(script), changes + [Change(now, document, true)],
             if turn.fault.Answered? then Done else Unknown)
    else
      Access(now, Rest(script), changes, if turn.fault.Answered? then Precondition else Unknown)
  }

  /** A create on its way to the store: it lands if it reaches the store while nothing is stored. */
  function Sent<D>(value: Option<D>, script: seq<Turn<D>>, document: D): Access<D, bool> {
    var turn := Next(script);
    var found := StoredBy(value, turn.others);
    var landed := found.None? && Reaches(turn.fault);
    Access(if landed then Some(document) else found, Rest(script),
           ChangesBy(value, turn.others) + (if landed then [Change(None, document, true)] else []), landed)
  }

  /**
  A create is settled by what is stored: its own content counts as created, whoever stored it; other
  content counts as not created, even if the create was applied and then replaced; absence permits a replay.
  */
  function Created<D(==)>(value: Option<D>, script: seq<Turn<D>>, document: D): Access<D, Outcome>
    decreases |script|
  {
    var sent := Sent(value, script, document);
    match Next(script).fault
    case Answered => Access(sent.value, sent.script, sent.changes, if sent.reply then Done else Precondition)
    case Failed(_) => Access(sent.value, sent.script, sent.changes, Unknown)
    case Probed(_, later, denied) =>
      var seen := StoredBy(sent.value, later);
      var changes := sent.changes + ChangesBy(sent.value, later);
      if seen.None? then
        var replay := Created(seen, sent.script, document);
        replay.(changes := changes + replay.changes)
      else
        Access(seen, sent.script, changes, if seen == Some(document) && !denied then Done else Precondition)
  }

  // ---------------------------------------------------------------- histories

  /** The changes lead from the first value to the last one. */
  ghost predicate Chained<D>(first: Option<D>, log: seq<Change<D>>, last: Option<D>)
    decreases |log|
  {
    if log == [] then first == last
    else Some(log[|log| - 1].after) == last && Chained(first, log[..|log| - 1], log[|log| - 1].before)
  }

  lemma {:induction false} ChainsJoin<D>(a: Option<D>, x: seq<Change<D>>, b: Option<D>, y: seq<Change<D>>, c: Option<D>)
    requires Chained(a, x, b) && Chained(b, y, c)
    ensures Chained(a, x + y, c)
    decreases |y|
  {
    if y == [] {
      assert x + y == x;
    } else {
      var n := |y| - 1;
      ChainsJoin(a, x, b, y[..n], y[n].before);
      assert (x + y)[..|x + y| - 1] == x + y[..n];
    }
  }

  lemma {:induction false} OthersChain<D>(value: Option<D>, documents: seq<D>)
    ensures Chained(value, ChangesBy(value, documents), StoredBy(value, documents))
    ensures forall i :: 0 <= i < |ChangesBy(value, documents)| ==> !ChangesBy(value, documents)[i].own
  {
    if documents != [] {
      OthersChain(value, documents[..|documents| - 1]);
    }
  }

  lemma OneChange<D>(value: Option<D>, change: Change<D>)
    requires change.before == value
    ensures Chained(value, [change], Some(change.after))
  {
    assert [change][..0] == [];
  }

  lemma LookedChains<D>(value: Option<D>, script: seq<Turn<D>>)
    ensures var a := Looked(value, script); Chained(value, a.changes, a.value)
  {
    OthersChain(value, Next(script).others);
  }

  lemma SwappedChains<D>(value: Option<D>, script: seq<Turn<D>>, expected: D, document: D)
    ensures var a := Swapped(value, script, expected, document); Chained(value, a.changes, a.value)
  {
    var others := Next(script).others;
    var now := StoredBy(value, others);
    OthersChain(value, others);
    OneChange(now, Change(now, document, true));
    if now == Some(expected) && Reaches(Next(script).fault) {
      ChainsJoin(value, ChangesBy(value, others), now, [Change(now, document, true)], Some(document));
    }
  }

  lemma SentChains<D>(value: Option<D>, script: seq<Turn<D>>, document: D)
    ensures var a := Sent(value, script, document); Chained(value, a.changes, a.value)
  {
    var others := Next(script).others;
    var found := StoredBy(value, others);
    OthersChain(value, others);
    if found.None? && Reaches(Next(script).fault) {
      OneChange(found, Change(None, document, true));
      ChainsJoin(value, ChangesBy(value, others), found, [Change(None, document, true)], Some(document));
    } else {
      assert ChangesBy(value, others) + [] == ChangesBy(value, others);
    }
  }

  lemma {:induction false} CreatedChains<D>(value: Option<D>, script: seq<Turn<D>>, document: D)
    ensures var a := Created(value, script, document); Chained(value, a.changes, a.value)
    decreases |script|
  {
    hide Sent, Chained, StoredBy, ChangesBy;
    SentChains(value, script, document);
    var sent := Sent(value, script, document);
    assert sent.script == Rest(script) by { SentTakesOneTurn(value, script, document); }
    var fault := Next(script).fault;
    if fault.Probed? {
      OthersChain(sent.value, fault.later);
      var seen := StoredBy(sent.value, fault.later);
      var changes := sent.changes + ChangesBy(sent.value, fault.later);
      ChainsJoin(value, sent.changes, sent.value, ChangesBy(sent.value, fault.later), seen);
      if seen.None? {
        var replay := Created(seen, sent.script, document);
        CreatedChains(seen, sent.script, document);
        ChainsJoin(value, changes, seen, replay.changes, replay.value);
      }
    }
  }

  lemma SentTakesOneTurn<D>(value: Option<D>, script: seq<Turn<D>>, document: D)
    ensures Sent(value, script, document).script == Rest(script)
  {
  }

  // ---------------------------------------------------------------- the object itself

  class Register<D(==)> {
    var value: Option<D>
    var script: seq<Turn<D>>
    ghost const first: Option<D>
    ghost var log: seq<Change<D>>

    ghost predicate Valid()
      reads this
    {
      Chained(first, log, value)
    }

    constructor (value: Option<D>, script: seq<Turn<D>>)
      ensures Valid() && log == [] && this.value == value && this.script == script && first == value
    {
      this.value, this.script := value, script;
      first, log := value, [];
    }

    method Store(document: D, ghost own: bool)
      requires Valid()
      modifies this`value, this`log
      ensures Valid() && value == Some(document)
      ensures log == old(log) + [Change(old(value), document, own)]
    {
      log := log + [Change(value, document, own)];
      value := Some(document);
      assert log[..|log| - 1] == old(log);
    }

    /** Lets other callers store these documents. */
    method Others(documents: seq<D>)
      requires Valid()
      modifies this`value, this`log
      ensures Valid() && value == StoredBy(old(value), documents)
      ensures log == old(log) + ChangesBy(old(value), documents)
    {
      for i := 0 to |documents|
        invariant Valid() && value == StoredBy(old(value), documents[..i])
        invariant log == old(log) + ChangesBy(old(value), documents[..i])
      {
        assert documents[..i + 1][..i] == documents[..i];
        Store(documents[i], false);
      }
      assert documents[..|documents|] == documents;
    }

    /** Lets the other callers take their turn; returns what becomes of this access. */
    method Interleave() returns (fault: Fault<D>)
      requires Valid()
      modifies this
      ensures Valid() && value == StoredBy(old(value), Next(old(script)).others)
      ensures log == old(log) + ChangesBy(old(value), Next(old(script)).others)
      ensures fault == Next(old(script)).fault && script == Rest(old(script))
    {
      if script == [] {
        return Answered;
      }
      var turn := script[0];
      script := script[1..];
      Others(turn.others);
      fault := turn.fault;
    }

    method Get() returns (r: Lookup<D>)
      requires Valid()
      modifies this
      ensures Valid()
      ensures var a := Looked(old(value), old(script));
        value == a.value && script == a.script && log == old(log) + a.changes && r == a.reply
    {
      var fault := Interleave();
      if !fault.Answered? {
        return Unavailable;
      }
      r := if value.None? then NotFound else Found(value.value);
    }

    method CompareAndSwap(expected: D, document: D) returns (r: Outcome)
      requires Valid()
      modifies this
      ensures Valid()
      ensures var a := Swapped(old(value), old(script), expected, document);
        value == a.value && script == a.script && log == old(log) + a.changes && r == a.reply
    {
      var fault := Interleave();
      if value != Some(expected) {
        return if fault.Answered? then Precondition else Unknown;
      }
      if Reaches(fault) {
        Store(document, true);
      }
      r := if fault.Answered? then Done else Unknown;
    }

    method PutIfAbsent(document: D) returns (r: Outcome)
      requires Valid()
      modifies this
      ensures Valid()
      ensures var a := Created(old(value), old(script), document);
        value == a.value && script == a.script && log == old(log) + a.changes && r == a.reply
      decreases |script|
    {
      ghost var before, turn := log, Next(script);
      var fault := Interleave();
      var absent := value.None?;
      if absent && Reaches(fault) {
        Store(document, true);
      }
      match fault {
        case Answered => r := if absent then Done else Precondition;
        case Failed(_) => r := Unknown;
        case Probed(_, later, denied) =>
          Others(later);
          if value.None? {
            r := PutIfAbsent(document);
          } else {
            r := if value == Some(document) && !denied then Done else Precondition;
          }
      }
    }
  }
}
