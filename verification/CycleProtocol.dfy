/**
Concurrent cycle commits as a state machine. Each caller carries its own copy of the cycle, merges
what it reads into it, and keeps the merge when a swap fails; every result holds for every schedule.
*/
module CycleProtocol {
  import opened Wrappers
  import opened DevelopmentCycle

  datatype Phase = Ready | Seen(current: Option<Cycle>)

  datatype Process = Process(next: Cycle, phase: Phase)

  /** A conditional write under way: it applies only while the store still holds the expected cycle. */
  datatype Message = Message(expected: Option<Cycle>, cycle: Cycle)

  datatype State = State(store: Option<Cycle>, processes: map<nat, Process>, flight: seq<Message>)

  datatype Reply = Confirmed | Lost(applied: bool, retry: bool) | Delayed(retry: bool)

  datatype Event =
    | Start(id: nat, cycle: Cycle)
    | Read(id: nat)
    | Swap(id: nat, reply: Reply)
    | Deliver(index: nat)
    | Crash(id: nat)

  predicate HasSeen(s: State, id: nat) {
    id in s.processes && s.processes[id].phase.Seen? && Valid(s.processes[id].next)
  }

  function SeenDecision(s: State, id: nat): Decision
    requires HasSeen(s, id)
  {
    Decide(s.processes[id].phase.current, s.processes[id].next)
  }

  /** The process after acting on what it read: finished, or back to reading with its merged copy. */
  function ProcessesAfter(s: State, id: nat, reply: Reply): map<nat, Process>
    requires HasSeen(s, id)
  {
    var p := s.processes[id];
    var again := s.processes[id := Process(Carried(p.phase.current, p.next), Ready)];
    var gone := s.processes - {id};
    if !SeenDecision(s, id).Write? then gone else
    match reply
    case Confirmed => if s.store == p.phase.current then gone else again
    case Lost(_, retry) => if retry then again else gone
    case Delayed(retry) => if retry then again else gone
  }

  function StoreAfter(s: State, id: nat, reply: Reply): Option<Cycle>
    requires HasSeen(s, id)
  {
    if SeenDecision(s, id).Write? && s.store == s.processes[id].phase.current
       && (reply.Confirmed? || (reply.Lost? && reply.applied))
    then Some(SeenDecision(s, id).document) else s.store
  }

  function Step(s: State, e: Event): State {
    match e
    case Start(id, cycle) =>
      if id in s.processes || !Valid(cycle) then s
      else s.(processes := s.processes[id := Process(cycle, Ready)])
    case Read(id) =>
      if id !in s.processes then s
      else s.(processes := s.processes[id := s.processes[id].(phase := Seen(s.store))])
    case Swap(id, reply) =>
      if !HasSeen(s, id) then s else
      var sent := reply.Delayed? && SeenDecision(s, id).Write?;
      State(StoreAfter(s, id, reply), ProcessesAfter(s, id, reply),
            if sent then s.flight + [Message(s.processes[id].phase.current, SeenDecision(s, id).document)]
              else s.flight)
    case Deliver(i) =>
      if i >= |s.flight| then s else
      State(if s.store == s.flight[i].expected then Some(s.flight[i].cycle) else s.store,
            s.processes, s.flight[..i] + s.flight[i + 1..])
    case Crash(id) => s.(processes := s.processes - {id})
  }

  function Run(s: State, schedule: seq<Event>): State {
    if schedule == [] then s else Step(Run(s, schedule[..|schedule| - 1]), schedule[|schedule| - 1])
  }

  /** The state after the first n events. */
  function At(s: State, schedule: seq<Event>, n: nat): State
    requires n <= |schedule|
  {
    Run(s, schedule[..n])
  }

  lemma AtSuccessor(s: State, schedule: seq<Event>, n: nat)
    requires n < |schedule|
    ensures At(s, schedule, n + 1) == Step(At(s, schedule, n), schedule[n])
  {
    assert schedule[..n + 1][..n] == schedule[..n];
  }

  /** No process running; the store empty or holding a valid cycle. */
  predicate Initial(s: State) {
    s.processes == map[] && s.flight == [] && (s.store.Some? ==> Valid(s.store.value))
  }

  // ---------------------------------------------------------------- what one replacement obeys

  predicate Open(c: Cycle) {
    Valid(c) && !c.superseded && !Complete(c)
  }

  /** One stored cycle replaced by the next: never backwards, and an open cycle only makes progress. */
  ghost predicate Replaces(stored: Cycle, next: Cycle) {
    && Valid(next)
    && stored.generation <= next.generation
    && (Open(stored) ==>
          && InputsOf(next) == InputsOf(stored)
          && forall architecture, stage :: Has(stored, architecture, stage) ==> Has(next, architecture, stage))
  }

  ghost predicate GoodWrite(expected: Option<Cycle>, c: Cycle) {
    Valid(c) && (expected.Some? ==> Replaces(expected.value, c))
  }

  lemma DecisionReplaces(current: Option<Cycle>, next: Cycle)
    requires Valid(next)
    ensures Decide(current, next).Write? ==> GoodWrite(current, Decide(current, next).document)
    ensures Valid(Carried(current, next)) && InputsOf(Carried(current, next)) == InputsOf(next)
  {
    hide ValidIdentity, Has, Merged;
    if current.Some? && Valid(current.value) {
      MergeIsUnion(current.value, next);
    }
  }

  ghost predicate Sound(s: State) {
    && (s.store.Some? ==> Valid(s.store.value))
    && (forall id :: id in s.processes ==> Valid(s.processes[id].next))
    && (forall i :: 0 <= i < |s.flight| ==> GoodWrite(s.flight[i].expected, s.flight[i].cycle))
  }

  lemma StepIsSound(s: State, e: Event)
    requires Sound(s)
    ensures Sound(Step(s, e))
    ensures Step(s, e).store == s.store || (Step(s, e).store.Some? && GoodWrite(s.store, Step(s, e).store.value))
  {
    hide Valid, Decide, Carried, Replaces;
    if e.Swap? && HasSeen(s, e.id) {
      DecisionReplaces(s.processes[e.id].phase.current, s.processes[e.id].next);
    }
  }

  lemma {:induction false} AtIsSound(s: State, schedule: seq<Event>, n: nat)
    requires Initial(s) && n <= |schedule|
    ensures Sound(At(s, schedule, n))
  {
    hide Step, Valid;
    if n == 0 {
    } else {
      AtIsSound(s, schedule, n - 1);
      AtSuccessor(s, schedule, n - 1);
      StepIsSound(At(s, schedule, n - 1), schedule[n - 1]);
    }
  }

  /** Every cycle ever stored is valid, although the commit validates only before it merges. */
  lemma StoredCyclesAreValid(s: State, schedule: seq<Event>, n: nat)
    requires Initial(s) && n <= |schedule|
    ensures At(s, schedule, n).store.Some? ==> Valid(At(s, schedule, n).store.value)
  {
    hide Run, Valid;
    AtIsSound(s, schedule, n);
  }

  /** Over any run the stored cycle never disappears and its generation never decreases. */
  lemma {:induction false} GenerationNeverDecreases(s: State, schedule: seq<Event>, i: nat, j: nat)
    requires Initial(s) && i <= j <= |schedule| && At(s, schedule, i).store.Some?
    ensures At(s, schedule, j).store.Some?
    ensures At(s, schedule, i).store.value.generation <= At(s, schedule, j).store.value.generation
    decreases j
  {
    hide Step, Valid, Open;
    if i == j {
    } else {
      GenerationNeverDecreases(s, schedule, i, j - 1);
      AtIsSound(s, schedule, j - 1);
      AtSuccessor(s, schedule, j - 1);
      StepIsSound(At(s, schedule, j - 1), schedule[j - 1]);
    }
  }

  /**
  While the stored cycle stays incomplete and unsuperseded, its frozen inputs do not change and its
  complete and published flags only rise; the last replacement may complete or supersede it.
  */
  lemma {:induction false} OpenCycleOnlyProgresses(s: State, schedule: seq<Event>, i: nat, j: nat)
    requires Initial(s) && i <= j <= |schedule| && At(s, schedule, i).store.Some?
    requires forall k :: i <= k < j ==> At(s, schedule, k).store.Some? && Open(At(s, schedule, k).store.value)
    ensures At(s, schedule, j).store.Some?
    ensures var was, now := At(s, schedule, i).store.value, At(s, schedule, j).store.value;
      && InputsOf(now) == InputsOf(was)
      && forall architecture, stage :: Has(was, architecture, stage) ==> Has(now, architecture, stage)
    decreases j
  {
    hide Step, Valid, Open, Has;
    if i == j {
    } else {
      OpenCycleOnlyProgresses(s, schedule, i, j - 1);
      AtIsSound(s, schedule, j - 1);
      AtSuccessor(s, schedule, j - 1);
      StepIsSound(At(s, schedule, j - 1), schedule[j - 1]);
    }
  }

  // ---------------------------------------------------------------- no progress leaks between plans

  /** The call that this event starts, unless its id is taken or its cycle is refused. */
  predicate Starts(now: State, e: Event) {
    e.Start? && e.id !in now.processes && Valid(e.cycle)
  }

  /** Somebody reported this flag for exactly these inputs: a call that started earlier, or the start state. */
  ghost predicate Reported(s: State, schedule: seq<Event>, inputs: Inputs, architecture: string, stage: Stage) {
    || (s.store.Some? && InputsOf(s.store.value) == inputs && Has(s.store.value, architecture, stage))
    || exists i :: 0 <= i < |schedule| && Starts(Run(s, schedule[..i]), schedule[i])
                   && InputsOf(schedule[i].cycle) == inputs && Has(schedule[i].cycle, architecture, stage)
  }

  ghost predicate Grounded(s: State, schedule: seq<Event>, c: Cycle) {
    forall architecture, stage :: Has(c, architecture, stage)
      ==> Reported(s, schedule, InputsOf(c), architecture, stage)
  }

  lemma GroundedExtends(s: State, schedule: seq<Event>, e: Event, c: Cycle)
    requires Grounded(s, schedule, c)
    ensures Grounded(s, schedule + [e], c)
  {
    hide Has, Run, Valid;
    forall architecture, stage | Has(c, architecture, stage)
      ensures Reported(s, schedule + [e], InputsOf(c), architecture, stage)
    {
      assert Reported(s, schedule, InputsOf(c), architecture, stage);
      if i :| 0 <= i < |schedule| && Starts(Run(s, schedule[..i]), schedule[i])
              && InputsOf(schedule[i].cycle) == InputsOf(c) && Has(schedule[i].cycle, architecture, stage) {
        assert (schedule + [e])[i] == schedule[i] && (schedule + [e])[..i] == schedule[..i];
      }
    }
  }

  lemma StartIsGrounded(s: State, schedule: seq<Event>, e: Event)
    requires Starts(Run(s, schedule), e)
    ensures Grounded(s, schedule + [e], e.cycle)
  {
    hide Has, Run, Starts;
    assert (schedule + [e])[|schedule|] == e && (schedule + [e])[..|schedule|] == schedule;
  }

  /** Merging two grounded cycles of the same inputs, or deciding on them, stays grounded. */
  lemma DecisionIsGrounded(s: State, schedule: seq<Event>, current: Option<Cycle>, next: Cycle)
    requires Valid(next) && Grounded(s, schedule, next)
    requires current.Some? ==> Grounded(s, schedule, current.value)
    ensures Grounded(s, schedule, Carried(current, next))
    ensures Decide(current, next).Write? ==> Grounded(s, schedule, Decide(current, next).document)
  {
    hide ValidIdentity, Has, Merged, Reported;
    if current.Some? && Valid(current.value) {
      MergeIsUnion(current.value, next);
    }
  }

  ghost predicate GroundedState(s: State, schedule: seq<Event>, now: State) {
    && (now.store.Some? ==> Grounded(s, schedule, now.store.value))
    && (forall id :: id in now.processes ==>
          && Grounded(s, schedule, now.processes[id].next)
          && (now.processes[id].phase.Seen? && now.processes[id].phase.current.Some? ==>
                Grounded(s, schedule, now.processes[id].phase.current.value)))
    && (forall i :: 0 <= i < |now.flight| ==> Grounded(s, schedule, now.flight[i].cycle))
  }

  lemma StateExtends(s: State, schedule: seq<Event>, e: Event, now: State)
    requires GroundedState(s, schedule, now)
    ensures GroundedState(s, schedule + [e], now)
  {
    hide Grounded;
    forall c: Cycle | Grounded(s, schedule, c) ensures Grounded(s, schedule + [e], c) {
      GroundedExtends(s, schedule, e, c);
    }
  }

  lemma StepIsGrounded(s: State, schedule: seq<Event>, now: State, e: Event)
    requires GroundedState(s, schedule, now) && now == Run(s, schedule)
    ensures GroundedState(s, schedule + [e], Step(now, e))
  {
    hide Grounded, Valid, Decide, Carried, Run;
    StateExtends(s, schedule, e, now);
    if Starts(now, e) {
      StartIsGrounded(s, schedule, e);
    } else if e.Swap? && HasSeen(now, e.id) {
      DecisionIsGrounded(s, schedule + [e], now.processes[e.id].phase.current, now.processes[e.id].next);
    }
  }

  /**
  Every complete or published flag stored next to frozen inputs was reported by some commit for
  those same inputs, through any number of retries, supersessions and replans.
  */
  lemma {:induction false} NoProgressLeaks(s: State, schedule: seq<Event>, n: nat)
    requires Initial(s) && n <= |schedule|
    ensures GroundedState(s, schedule[..n], At(s, schedule, n))
  {
    hide Step, Has;
    if n == 0 {
    } else {
      NoProgressLeaks(s, schedule, n - 1);
      AtSuccessor(s, schedule, n - 1);
      StepIsGrounded(s, schedule[..n - 1], At(s, schedule, n - 1), schedule[n - 1]);
      assert schedule[..n] == schedule[..n - 1] + [schedule[n - 1]];
    }
  }

  // ---------------------------------------------------------------- what one event does

  lemma StartExactly(s: State, id: nat, cycle: Cycle)
    ensures Step(s, Start(id, cycle)) ==
      if id !in s.processes && Valid(cycle) then s.(processes := s.processes[id := Process(cycle, Ready)]) else s
    ensures id in s.processes ==>
      Step(s, Read(id)) == s.(processes := s.processes[id := Process(s.processes[id].next, Seen(s.store))])
  {
    hide Valid;
  }

  /** The commit that the process sends on what it saw, if it sends any. */
  predicate Sends(p: Process, c: Cycle)
    requires p.phase.Seen? && Valid(p.next)
  {
    Decide(p.phase.current, p.next) == Decision.Write(c)
  }

  /** A swap changes the store exactly if it is applied while the store still holds what the process saw. */
  lemma SwapStoresExactly(s: State, id: nat, reply: Reply, c: Cycle)
    requires id in s.processes && s.processes[id].phase.Seen? && Valid(s.processes[id].next)
    requires Sends(s.processes[id], c)
    ensures var seen, next := s.processes[id].phase.current, Step(s, Swap(id, reply));
      && next.store == (if s.store == seen && (reply == Confirmed || reply in {Lost(true, true), Lost(true, false)})
                        then Some(c) else s.store)
      && next.flight == (if reply.Delayed? then s.flight + [Message(seen, c)] else s.flight)
  {
    hide Valid, Decide;
  }

  /** A process tries again, with the progress it merged, exactly after a lost race or to retry a lost reply. */
  lemma SwapEndsExactly(s: State, id: nat, reply: Reply)
    requires id in s.processes && s.processes[id].phase.Seen? && Valid(s.processes[id].next)
    ensures var p, next := s.processes[id], Step(s, Swap(id, reply));
      var again := Decide(p.phase.current, p.next).Write?
        && match reply
           case Confirmed => s.store != p.phase.current
           case Lost(_, retry) => retry
           case Delayed(retry) => retry;
      && next.processes == (if again then s.processes[id := Process(Carried(p.phase.current, p.next), Ready)]
                            else s.processes - {id})
      && (!Decide(p.phase.current, p.next).Write? ==> next.store == s.store && next.flight == s.flight)
  {
    hide Valid, Decide, Carried;
  }

  /** A late commit applies exactly while the store holds what it expects, and a crash loses the process alone. */
  lemma DeliverExactly(s: State, i: nat, id: nat)
    requires i < |s.flight|
    ensures Step(s, Deliver(i)) ==
      State(if s.store == s.flight[i].expected then Some(s.flight[i].cycle) else s.store, s.processes,
            s.flight[..i] + s.flight[i + 1..])
    ensures Step(s, Crash(id)) == State(s.store, s.processes - {id}, s.flight)
  {
  }
}
