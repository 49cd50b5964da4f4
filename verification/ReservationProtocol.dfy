/**
Write-once reservations as a state machine: any number of proposers for one fingerprint, each at its
own point of the create-probe-replay loop, with lost replies, creates that land late, failed probes
and crashes. Results hold for every schedule.
*/
module ReservationProtocol {
  import opened Wrappers
  import opened Manifest
  import opened ConditionalCreate
  import opened CreateClient

  type Proposer = Client<Reservation>

  datatype State = State(stored: Option<Reservation>, flight: seq<Reservation>, clients: map<nat, Proposer>)

  /** delayed: the create is still on its way to the server and may land at any later time. */
  datatype Event =
    | Propose(id: nat, generation: nat)
    | Send(id: nat, processed: bool, delayed: bool, answer: Answer)
    | Look(id: nat, probe: Heard)
    | Land(index: nat)
    | Cancel(id: nat)

  /** What every proposer of this run shares. */
  datatype Config = Config(fingerprint: string, attempts: nat)

  const FAILED: Phase<Reservation> := Done(None, false)

  function AfterLook(config: Config, c: Proposer, probe: Probe<Reservation>): Proposer {
    match c.phase
    case Probing(_) => AfterProbe(config.attempts, c, probe)
    case Confirming => AfterConfirm(c, probe)
    case Fetching =>
      c.(phase := if probe.Found? && ValidReservation(probe.content, config.fingerprint)
                  then Done(Some(probe.content), false) else FAILED)
    case _ => c
  }

  function Step(config: Config, s: State, e: Event): State {
    match e
    case Propose(id, generation) =>
      if id in s.clients || generation == 0 || !IsFingerprint(config.fingerprint) then s
      else s.(clients := s.clients[id := Client(Reservation(config.fingerprint, generation), 0, false, Sending)])
    case Send(id, processed, delayed, answer) =>
      if id !in s.clients || !s.clients[id].phase.Sending? then s else
      var c := s.clients[id];
      var reached := processed || IsGenuine(answer);
      State(if reached then Landed(s.stored, c.wanted) else s.stored,
            if !reached && delayed then s.flight + [c.wanted] else s.flight,
            s.clients[id := AfterSend(c, s.stored.None?, answer)])
    case Look(id, heard) =>
      if id !in s.clients then s
      else s.(clients := s.clients[id := AfterLook(config, s.clients[id], Observe(s.stored, heard))])
    case Land(i) =>
      if i >= |s.flight| then s
      else s.(stored := Landed(s.stored, s.flight[i]), flight := s.flight[..i] + s.flight[i + 1..])
    case Cancel(id) =>
      if id !in s.clients || s.clients[id].phase.Done? then s
      else s.(clients := s.clients[id := s.clients[id].(phase := FAILED)])
  }

  function Run(config: Config, s: State, schedule: seq<Event>): State {
    if schedule == [] then s else Step(config, Run(config, s, schedule[..|schedule| - 1]), schedule[|schedule| - 1])
  }

  predicate Initial(s: State) {
    s.clients == map[] && s.flight == []
  }

  // ---------------------------------------------------------------- agreement

  /** A finished proposer holds what is stored; a creator's own proposal is what is stored. */
  ghost predicate Justified(config: Config, stored: Option<Reservation>, c: Proposer) {
    && c.wanted.fingerprint == config.fingerprint && c.wanted.generation != 0
    && (c.phase.Done? && c.phase.result.Some? ==>
          stored == c.phase.result && ValidReservation(stored.value, config.fingerprint))
    && (c.phase.Done? && c.phase.created ==> c.phase.result == Some(c.wanted))
  }

  ghost predicate Agreed(config: Config, s: State) {
    forall id :: id in s.clients ==> Justified(config, s.stored, s.clients[id])
  }

  lemma StepAgrees(config: Config, s: State, e: Event)
    requires Agreed(config, s)
    ensures Agreed(config, Step(config, s, e))
    ensures WriteOnce(s.stored, Step(config, s, e).stored)
    ensures forall id :: id in s.clients && s.clients[id].phase.Done? ==>
      id in Step(config, s, e).clients && Step(config, s, e).clients[id] == s.clients[id]
  {
    hide IsFingerprint, Justified, AfterSend, AfterLook, Observe;
    var next := Step(config, s, e);
    forall id | id in s.clients ensures Justified(config, next.stored, s.clients[id]) {
      StaysJustified(config, s.stored, next.stored, s.clients[id]);
    }
    match e
    case Propose(id, generation) =>
      if generation != 0 {
        ProposedIsJustified(config, s.stored, generation);
      }
    case Send(id, processed, _, answer) =>
      if id in s.clients && s.clients[id].phase.Sending? {
        SendIsJustified(config, s.stored, s.clients[id], processed || IsGenuine(answer), answer);
      }
    case Look(id, heard) =>
      if id in s.clients {
        LookIsJustified(config, s.stored, s.clients[id], heard);
      }
    case Land(_) =>
    case Cancel(id) =>
      if id in s.clients {
        CancelIsJustified(config, s.stored, s.clients[id]);
      }
  }

  lemma StaysJustified(config: Config, before: Option<Reservation>, after: Option<Reservation>, c: Proposer)
    requires Justified(config, before, c) && WriteOnce(before, after)
    ensures Justified(config, after, c)
  {
  }

  lemma ProposedIsJustified(config: Config, stored: Option<Reservation>, generation: nat)
    requires generation != 0
    ensures Justified(config, stored, Client(Reservation(config.fingerprint, generation), 0, false, Sending))
  {
  }

  lemma SendIsJustified(config: Config, stored: Option<Reservation>, c: Proposer, reached: bool, answer: Answer)
    requires Justified(config, stored, c) && (IsGenuine(answer) ==> reached)
    ensures Justified(config, if reached then Landed(stored, c.wanted) else stored,
                      AfterSend(c, stored.None?, answer))
  {
    hide RetryableStatus;
  }

  lemma LookIsJustified(config: Config, stored: Option<Reservation>, c: Proposer, heard: Heard)
    requires Justified(config, stored, c)
    ensures Justified(config, stored, AfterLook(config, c, Observe(stored, heard)))
    ensures c.phase.Done? ==> AfterLook(config, c, Observe(stored, heard)) == c
  {
    hide RetryableStatus, LastAttempt;
  }

  lemma CancelIsJustified(config: Config, stored: Option<Reservation>, c: Proposer)
    requires Justified(config, stored, c)
    ensures Justified(config, stored, c.(phase := FAILED))
  {
  }

  lemma {:induction false} RunAgrees(config: Config, s: State, schedule: seq<Event>)
    requires Initial(s)
    ensures Agreed(config, Run(config, s, schedule))
  {
    hide Step;
    if schedule == [] {
    } else {
      RunAgrees(config, s, schedule[..|schedule| - 1]);
      StepAgrees(config, Run(config, s, schedule[..|schedule| - 1]), schedule[|schedule| - 1]);
    }
  }

  /** What is stored and what a proposer was told never change afterwards. */
  lemma {:induction false} ResultsAreFinal(config: Config, s: State, schedule: seq<Event>, later: seq<Event>)
    requires Initial(s)
    ensures var was, now := Run(config, s, schedule), Run(config, s, schedule + later);
      && WriteOnce(was.stored, now.stored)
      && forall id :: id in was.clients && was.clients[id].phase.Done? ==>
           id in now.clients && now.clients[id] == was.clients[id]
    decreases |later|
  {
    hide Step;
    if later == [] {
      assert schedule + later == schedule;
    } else {
      var init := later[..|later| - 1];
      ResultsAreFinal(config, s, schedule, init);
      RunAgrees(config, s, schedule + init);
      assert (schedule + later)[..|schedule + later| - 1] == schedule + init;
      StepAgrees(config, Run(config, s, schedule + init), later[|later| - 1]);
      WriteOnceIsTransitive(Run(config, s, schedule).stored, Run(config, s, schedule + init).stored,
                            Run(config, s, schedule + later).stored);
    }
  }

  lemma WriteOnceIsTransitive(a: Option<Reservation>, b: Option<Reservation>, c: Option<Reservation>)
    ensures WriteOnce(a, b) && WriteOnce(b, c) ==> WriteOnce(a, c)
    ensures WriteOnce(a, a)
  {
  }

  /**
  All successful reservations of one fingerprint return the same generation. Two that both report
  having created it proposed that very generation.
  */
  lemma ReservationsAgree(config: Config, s: State, schedule: seq<Event>, a: nat, b: nat)
    requires Initial(s)
    requires a in Run(config, s, schedule).clients && b in Run(config, s, schedule).clients
    ensures var x, y := Run(config, s, schedule).clients[a], Run(config, s, schedule).clients[b];
      x.phase.Done? && y.phase.Done? && x.phase.result.Some? && y.phase.result.Some? ==>
        && x.phase.result == y.phase.result
        && (x.phase.created && y.phase.created ==> x.wanted == y.wanted)
  {
    hide Run;
    RunAgrees(config, s, schedule);
  }

  // ---------------------------------------------------------------- replays

  /** A replay goes out although the object is already stored exactly when the probe was not answered at all. */
  lemma UnconfirmedReplayExactly(config: Config, s: State, id: nat, heard: Heard)
    requires id in s.clients && s.clients[id].phase.Probing? && MayRetry(config.attempts, s.clients[id])
    ensures var c := Step(config, s, Look(id, heard)).clients[id];
      && (c.phase.Sending? && s.stored.Some? <==> heard.Nothing? && s.stored.Some?)
      && (c.phase.Sending? && heard.Answered? <==> s.stored.None? && heard.Answered?)
      && (heard.ConflictStatus? ==> !c.phase.Sending?)
  {
    ReplaysExactly(config.attempts, s.clients[id], Observe(s.stored, heard));
  }

  /** Two events after which a create that was already applied goes out again: its reply and its probe are lost. */
  lemma AppliedCreateIsReplayed(config: Config, wanted: Reservation)
    requires config.attempts > 1
    ensures var first := Client(wanted, 0, false, Sending);
      var lost := Step(config, Solo(None, [], first), Send(0, true, false, Transport(false)));
      var after := Step(config, lost, Look(0, Nothing));
      after == Solo(Some(wanted), [], Client(wanted, 1, true, Sending))
  {
  }

  // ---------------------------------------------------------------- what created promises

  /** Something that happens in a state when an event is taken. */
  type Occurrence = (State, Event) -> bool

  ghost predicate Ever(config: Config, s: State, schedule: seq<Event>, p: Occurrence) {
    exists i :: 0 <= i < |schedule| && p(Run(config, s, schedule[..i]), schedule[i])
  }

  /** The reply to the proposer's create is heard as it lands, or a probe is answered with what it wants. */
  function HeardBy(id: nat): Occurrence {
    (s: State, e: Event) =>
      && id in s.clients
      && match e
         case Send(sender, _, _, answer) =>
           sender == id && s.clients[id].phase.Sending? && s.stored.None? && IsGenuine(answer)
         case Look(sender, heard) =>
           sender == id && s.clients[id].phase.Probing? && heard.Answered? && s.stored == Some(s.clients[id].wanted)
         case _ => false
  }

  /** The probe finds nothing or is not answered, and the status behind it then counts as a failed precondition. */
  predicate GivesUp(config: Config, c: Proposer)
    requires c.phase.Probing?
  {
    && c.phase.status.Some? && StatusError(c.phase.status.value).Precondition?
    && !MayRetry(config.attempts, c)
  }

  predicate DeniedByProbe(config: Config, stored: Option<Reservation>, c: Proposer, heard: Heard)
    requires c.phase.Probing?
  {
    match heard
    case Answered => if stored.Some? then stored.value != c.wanted else GivesUp(config, c)
    case ConflictStatus => true
    case Nothing => GivesUp(config, c)
  }

  /**
  The create is taken for another's: it hears 412 with nothing unresolved, a probe is answered with other
  content or a conflict, or the last probe behind a 409 or 412 does not hear of any object.
  */
  function DeniedTo(config: Config, id: nat): Occurrence {
    (s: State, e: Event) =>
      && id in s.clients
      && match e
         case Send(sender, _, _, answer) =>
           && sender == id && s.clients[id].phase.Sending? && !s.clients[id].unresolved
           && s.stored.Some? && IsGenuine(answer)
         case Look(sender, heard) =>
           sender == id && s.clients[id].phase.Probing? && DeniedByProbe(config, s.stored, s.clients[id], heard)
         case _ => false
  }

  /** A probe of the proposer is answered while nothing is stored. */
  function FindsNothing(id: nat): Occurrence {
    (s: State, e: Event) =>
      id in s.clients && e == Look(id, Answered) && s.clients[id].phase.Probing? && s.stored.None?
  }

  lemma EverExtends(config: Config, s: State, init: seq<Event>, last: Event, p: Occurrence)
    ensures Ever(config, s, init + [last], p) <==> Ever(config, s, init, p) || p(Run(config, s, init), last)
  {
    hide Run;
    var n, schedule := |init|, init + [last];
    assert schedule[..n] == init && schedule[n] == last;
    assert forall i :: 0 <= i < n ==> schedule[..i] == init[..i] && schedule[i] == init[i];
    if Ever(config, s, init, p) {
      var i :| 0 <= i < n && p(Run(config, s, init[..i]), init[i]);
      assert p(Run(config, s, schedule[..i]), schedule[i]);
    }
    if p(Run(config, s, init), last) {
      assert p(Run(config, s, schedule[..n]), schedule[n]);
    }
    if Ever(config, s, schedule, p) {
      var i :| 0 <= i <= n && p(Run(config, s, schedule[..i]), schedule[i]);
      assert i < n ==> p(Run(config, s, init[..i]), init[i]);
    }
  }

  /** Where a proposer stands says what it has heard. */
  predicate Tells(s: State, id: nat, heard: bool, denied: bool) {
    if id !in s.clients then !heard && !denied else
    var c := s.clients[id];
    && (heard <==> c.phase == Done(Some(c.wanted), true))
    && (denied ==> c.phase.Confirming? || c.phase.Fetching? || (c.phase.Done? && !c.phase.created))
    && (c.phase.Confirming? || c.phase.Fetching? ==> denied)
    && (c.phase.Done? && c.phase.result.Some? && !c.phase.created ==> denied)
    && (c.phase.Done? && c.phase.created ==> c.phase.result == Some(c.wanted))
  }

  lemma StepTells(config: Config, s: State, id: nat, e: Event, heard: bool, denied: bool)
    requires Tells(s, id, heard, denied)
    ensures Tells(Step(config, s, e), id, heard || HeardBy(id)(s, e), denied || DeniedTo(config, id)(s, e))
  {
    hide LastAttempt, IsFingerprint, RetryableStatus;
    match e
    case Send(_, _, _, _) => SendTells(config, s, id, e, heard, denied);
    case Look(_, _) => LookTells(config, s, id, e, heard, denied);
    case Propose(_, _) =>
    case Land(_) =>
    case Cancel(_) =>
  }

  lemma SendTells(config: Config, s: State, id: nat, e: Event, heard: bool, denied: bool)
    requires Tells(s, id, heard, denied) && e.Send?
    ensures Tells(Step(config, s, e), id, heard || HeardBy(id)(s, e), denied || DeniedTo(config, id)(s, e))
  {
    hide LastAttempt;
  }

  lemma LookTells(config: Config, s: State, id: nat, e: Event, heard: bool, denied: bool)
    requires Tells(s, id, heard, denied) && e.Look?
    ensures Tells(Step(config, s, e), id, heard || HeardBy(id)(s, e), denied || DeniedTo(config, id)(s, e))
  {
    hide LastAttempt, RetryableStatus, IsFingerprint;
  }

  lemma {:induction false} RunTells(config: Config, s: State, schedule: seq<Event>, id: nat)
    requires Initial(s)
    ensures Tells(Run(config, s, schedule), id,
                  Ever(config, s, schedule, HeardBy(id)), Ever(config, s, schedule, DeniedTo(config, id)))
  {
    hide Step, HeardBy, DeniedTo, Ever;
    if schedule == [] {
      NothingYet(config, s, HeardBy(id));
      NothingYet(config, s, DeniedTo(config, id));
    } else {
      var n := |schedule| - 1;
      var init, last := schedule[..n], schedule[n];
      RunTells(config, s, init, id);
      EverExtends(config, s, init, last, HeardBy(id));
      EverExtends(config, s, init, last, DeniedTo(config, id));
      assert init + [last] == schedule;
      hide Tells;
      StepTells(config, Run(config, s, init), id, last,
                Ever(config, s, init, HeardBy(id)), Ever(config, s, init, DeniedTo(config, id)));
    }
  }

  lemma NothingYet(config: Config, s: State, p: Occurrence)
    ensures !Ever(config, s, [], p)
  {
  }

  /**
  Among any number of proposers, one that gets a result is told that it created it exactly when it heard
  the reply to its create as it landed or a probe was answered with what it wants; and that it did not
  exactly when its create was taken for another's.
  */
  lemma CreatedIsReportedExactly(config: Config, s: State, schedule: seq<Event>, id: nat)
    requires Initial(s)
    ensures var now := Run(config, s, schedule);
      id in now.clients && now.clients[id].phase.Done? && now.clients[id].phase.result.Some? ==>
        && now.stored == now.clients[id].phase.result
        && (now.clients[id].phase.created ==> now.stored == Some(now.clients[id].wanted))
        && (now.clients[id].phase.created <==> Ever(config, s, schedule, HeardBy(id)))
        && (!now.clients[id].phase.created <==> Ever(config, s, schedule, DeniedTo(config, id)))
  {
    hide Run, Step, HeardBy, DeniedTo, Ever;
    RunTells(config, s, schedule, id);
    RunAgrees(config, s, schedule);
  }

  // ---------------------------------------------------------------- a proposer that is alone

  const NOTHING := State(None, [], map[])

  /** Nobody but proposer 0 proposes. */
  predicate Lone(schedule: seq<Event>) {
    forall i :: 0 <= i < |schedule| && schedule[i].Propose? ==> schedule[i].id == 0
  }

  /** The store and the messages under way hold nothing but what proposer 0 wants. */
  predicate OwnOnly(s: State, foundNothing: bool) {
    && (forall id :: id in s.clients ==> id == 0)
    && (s.clients == map[] ==> s.stored.None? && s.flight == [])
    && (0 in s.clients ==>
          var c := s.clients[0];
          && (s.stored.Some? ==> s.stored.value == c.wanted)
          && (forall i :: 0 <= i < |s.flight| ==> s.flight[i] == c.wanted)
          && (c.phase.Probing? ==> c.unresolved)
          && (c.phase.Sending? && !c.unresolved ==>
                foundNothing || (s.stored.None? && s.flight == [] && c.attempt == 0)))
  }

  lemma StepOwnsOnly(config: Config, s: State, e: Event, foundNothing: bool)
    requires OwnOnly(s, foundNothing) && (e.Propose? ==> e.id == 0)
    ensures OwnOnly(Step(config, s, e), foundNothing || FindsNothing(0)(s, e))
  {
    hide IsFingerprint, RetryableStatus, LastAttempt, StatusError;
  }

  lemma {:induction false} RunOwnsOnly(config: Config, schedule: seq<Event>)
    requires Lone(schedule)
    ensures OwnOnly(Run(config, NOTHING, schedule), Ever(config, NOTHING, schedule, FindsNothing(0)))
  {
    hide Step, OwnOnly, Ever, FindsNothing;
    if schedule == [] {
      NothingYet(config, NOTHING, FindsNothing(0));
      assert OwnOnly(NOTHING, false) by { NothingIsOwn(); }
    } else {
      var n := |schedule| - 1;
      var init, last := schedule[..n], schedule[n];
      RunOwnsOnly(config, init);
      EverExtends(config, NOTHING, init, last, FindsNothing(0));
      assert init + [last] == schedule;
      StepOwnsOnly(config, Run(config, NOTHING, init), last, Ever(config, NOTHING, init, FindsNothing(0)));
    }
  }

  lemma NothingIsOwn()
    ensures OwnOnly(NOTHING, false)
  {
  }

  /** The only result of a lone proposer is its own reservation, however it is reported. */
  lemma AloneGetsItsOwn(config: Config, schedule: seq<Event>)
    requires Lone(schedule)
    ensures var now := Run(config, NOTHING, schedule);
      0 in now.clients && now.clients[0].phase.Done? && now.clients[0].phase.result.Some? ==>
        now.clients[0].phase.result == Some(now.clients[0].wanted)
  {
    hide Run, Step, Ever;
    RunOwnsOnly(config, schedule);
    RunAgrees(config, NOTHING, schedule);
  }

  /**
  A lone proposer that hears 412 with nothing unresolved has had a probe that found nothing: its create
  landed after that probe.
  */
  lemma DeniedReplayLandedLate(config: Config, schedule: seq<Event>, i: nat)
    requires Lone(schedule) && i < |schedule| && schedule[i].Send?
    requires DeniedTo(config, 0)(Run(config, NOTHING, schedule[..i]), schedule[i])
    ensures Ever(config, NOTHING, schedule[..i], FindsNothing(0)) && Run(config, NOTHING, schedule[..i]).stored.Some?
  {
    hide Run, Step, Ever;
    RunOwnsOnly(config, schedule[..i]);
  }

  /** A state with a single proposer. */
  function Solo(stored: Option<Reservation>, flight: seq<Reservation>, c: Proposer): State {
    State(stored, flight, map[0 := c])
  }

  /** Seven events in which the first create is delayed past the probe that looks for it. */
  function LateSchedule(generation: nat): seq<Event> {
    [ Propose(0, generation),
      Send(0, false, true, Transport(false)),  // lost, but still on its way
      Look(0, Answered),                       // confirmed absent: replay
      Land(0),                                 // the first create lands
      Send(0, true, false, Genuine),           // the replay hears 412
      Look(0, Answered),
      Look(0, Answered) ]
  }

  lemma LateStart(config: Config, wanted: Reservation)
    requires IsFingerprint(config.fingerprint) && config.attempts > 1
    requires wanted.fingerprint == config.fingerprint && wanted.generation != 0
    ensures var first, second := Client(wanted, 0, false, Sending), Client(wanted, 1, false, Sending);
      && Step(config, State(None, [], map[]), Propose(0, wanted.generation)) == Solo(None, [], first)
      && Step(config, Solo(None, [], first), Send(0, false, true, Transport(false)))
           == Solo(None, [wanted], first.(unresolved := true, phase := Probing(None)))
      && Step(config, Solo(None, [wanted], first.(unresolved := true, phase := Probing(None))), Look(0, Answered))
           == Solo(None, [wanted], second)
      && Step(config, Solo(None, [wanted], second), Land(0)) == Solo(Some(wanted), [], second)
  {
    hide IsFingerprint;
  }

  lemma LateEnd(config: Config, wanted: Reservation)
    requires wanted.fingerprint == config.fingerprint && wanted.generation != 0
    ensures var c := Client(wanted, 1, false, Sending);
      && Step(config, Solo(Some(wanted), [], c), Send(0, true, false, Genuine))
           == Solo(Some(wanted), [], c.(phase := Confirming))
      && Step(config, Solo(Some(wanted), [], c.(phase := Confirming)), Look(0, Answered))
           == Solo(Some(wanted), [], c.(phase := Fetching))
      && Step(config, Solo(Some(wanted), [], c.(phase := Fetching)), Look(0, Answered))
           == Solo(Some(wanted), [], c.(phase := Done(Some(wanted), false)))
  {
  }

  /**
  Created is not promised to the proposer whose create was stored: one that lands after its probe
  found nothing ends with the proposal stored and the proposer told that it did not create it.
  */
  lemma LateCreateIsDenied(config: Config, generation: nat)
    requires IsFingerprint(config.fingerprint) && generation != 0 && config.attempts > 1
    ensures var wanted := Reservation(config.fingerprint, generation);
      Run(config, State(None, [], map[]), LateSchedule(generation))
        == Solo(Some(wanted), [], Client(wanted, 1, false, Done(Some(wanted), false)))
  {
    hide IsFingerprint, Step, Run;
    var wanted, schedule := Reservation(config.fingerprint, generation), LateSchedule(generation);
    var start := State(None, [], map[]);
    LateStart(config, wanted);
    LateEnd(config, wanted);
    RunPrefix(config, start, schedule, 0);
    RunPrefix(config, start, schedule, 1);
    RunPrefix(config, start, schedule, 2);
    RunPrefix(config, start, schedule, 3);
    RunPrefix(config, start, schedule, 4);
    RunPrefix(config, start, schedule, 5);
    RunPrefix(config, start, schedule, 6);
    assert schedule[..7] == schedule;
  }

  lemma RunPrefix(config: Config, s: State, schedule: seq<Event>, n: nat)
    requires n < |schedule|
    ensures Run(config, s, schedule[..n + 1]) == Step(config, Run(config, s, schedule[..n]), schedule[n])
    ensures Run(config, s, schedule[..0]) == s
  {
    assert schedule[..n + 1][..n] == schedule[..n];
  }

  /** The same without any delay: the reply, the first probe and the probe behind the replay's 412 are lost. */
  function UnansweredSchedule(generation: nat): seq<Event> {
    [ Propose(0, generation),
      Send(0, true, false, Transport(false)),  // applied, its reply lost
      Look(0, Nothing),                        // not answered: replay
      Send(0, true, false, Genuine),           // the replay hears 412
      Look(0, Nothing),                        // not answered: a failed precondition
      Look(0, Answered),
      Look(0, Answered) ]
  }

  lemma UnansweredCreateIsDenied(config: Config, generation: nat)
    requires IsFingerprint(config.fingerprint) && generation != 0 && config.attempts > 1
    ensures var wanted := Reservation(config.fingerprint, generation);
      Run(config, NOTHING, UnansweredSchedule(generation)).clients
        == map[0 := Client(wanted, 1, true, Done(Some(wanted), false))]
  {
    hide IsFingerprint, Step, Run;
    var wanted, schedule := Reservation(config.fingerprint, generation), UnansweredSchedule(generation);
    FirstSend(config, wanted);
    AppliedCreateIsReplayed(config, wanted);
    UnansweredEnd(config, wanted);
    RunPrefix(config, NOTHING, schedule, 0);
    RunPrefix(config, NOTHING, schedule, 1);
    RunPrefix(config, NOTHING, schedule, 2);
    RunPrefix(config, NOTHING, schedule, 3);
    RunPrefix(config, NOTHING, schedule, 4);
    RunPrefix(config, NOTHING, schedule, 5);
    RunPrefix(config, NOTHING, schedule, 6);
    assert schedule[..7] == schedule;
  }

  lemma FirstSend(config: Config, wanted: Reservation)
    requires IsFingerprint(config.fingerprint) && wanted.fingerprint == config.fingerprint && wanted.generation != 0
    ensures Step(config, NOTHING, Propose(0, wanted.generation)) == Solo(None, [], Client(wanted, 0, false, Sending))
  {
    hide IsFingerprint;
  }

  lemma UnansweredEnd(config: Config, wanted: Reservation)
    requires wanted.fingerprint == config.fingerprint && wanted.generation != 0
    ensures var c := Client(wanted, 1, true, Sending);
      && Step(config, Solo(Some(wanted), [], c), Send(0, true, false, Genuine))
           == Solo(Some(wanted), [], c.(phase := Probing(Some(412))))
      && Step(config, Solo(Some(wanted), [], c.(phase := Probing(Some(412)))), Look(0, Nothing))
           == Solo(Some(wanted), [], c.(phase := Confirming))
      && Step(config, Solo(Some(wanted), [], c.(phase := Confirming)), Look(0, Answered))
           == Solo(Some(wanted), [], c.(phase := Fetching))
      && Step(config, Solo(Some(wanted), [], c.(phase := Fetching)), Look(0, Answered))
           == Solo(Some(wanted), [], c.(phase := Done(Some(wanted), false)))
  {
  }

  // ---------------------------------------------------------------- what is reserved, and what one event does

  /** Whatever a proposer is given is a generation of the fingerprint, and never zero. */
  lemma ReservedIsUsable(config: Config, s: State, schedule: seq<Event>, id: nat)
    requires Initial(s)
    ensures var now := Run(config, s, schedule);
      id in now.clients && now.clients[id].phase.Done? && now.clients[id].phase.result.Some? ==>
        && now.clients[id].phase.result.value.fingerprint == config.fingerprint
        && now.clients[id].phase.result.value.generation > 0
  {
    hide Run;
    RunAgrees(config, s, schedule);
  }

  /** Only a proposer that is not there yet, for a fingerprint and a generation, starts; it starts with a create. */
  lemma ProposeExactly(config: Config, s: State, id: nat, generation: nat)
    ensures var next := Step(config, s, Propose(id, generation));
      if id !in s.clients && generation > 0 && IsFingerprint(config.fingerprint) then
        next == s.(clients := s.clients[id := Client(Reservation(config.fingerprint, generation), 0, false, Sending)])
      else next == s
  {
    hide IsFingerprint;
  }

  /** A create lands where nothing is stored, if it is processed; if it is delayed it may still land later. */
  lemma SendExactly(config: Config, s: State, id: nat, processed: bool, delayed: bool, answer: Answer)
    requires id in s.clients && s.clients[id].phase == Sending
    ensures var next, wanted := Step(config, s, Send(id, processed, delayed, answer)), s.clients[id].wanted;
      var heard := answer == Genuine || (answer.Status? && (answer.code == 412 || 200 <= answer.code <= 299));
      && next.stored == (if s.stored == None && (processed || heard) then Some(wanted) else s.stored)
      && next.flight == (if delayed && !processed && !heard then s.flight + [wanted] else s.flight)
      && next.clients == s.clients[id := AfterSend(s.clients[id], s.stored == None, answer)]
  {
    hide AfterSend;
  }

  /** A delayed create lands only where nothing is stored by then. */
  lemma LandExactly(config: Config, s: State, i: nat)
    requires i < |s.flight|
    ensures Step(config, s, Land(i)) ==
      State(if s.stored == None then Some(s.flight[i]) else s.stored, s.flight[..i] + s.flight[i + 1..], s.clients)
  {
  }

  /** What a proposer that looks hears, and where it goes; a look changes nothing else. */
  lemma LookExactly(config: Config, s: State, id: nat, heard: Heard)
    requires id in s.clients
    ensures var c, next := s.clients[id], Step(config, s, Look(id, heard));
      var found := heard == Answered && s.stored.Some?;
      && next.stored == s.stored && next.flight == s.flight && id in next.clients
      && next.clients == s.clients[id := next.clients[id]]
      && (c.phase == Confirming ==> next.clients[id] == c.(phase := if found then Fetching else FAILED))
      && (c.phase == Fetching ==>
            var usable := found && s.stored.value.fingerprint == config.fingerprint && s.stored.value.generation > 0;
            next.clients[id] == c.(phase := if usable then Done(s.stored, false) else FAILED))
      && (c.phase == Sending || c.phase.Done? ==> next.clients[id] == c)
      && (c.phase.Probing? && found ==>
            next.clients[id] == c.(phase := if s.stored.value == c.wanted then Done(s.stored, true) else Confirming))
      && (c.phase.Probing? && heard == ConflictStatus ==> next.clients[id] == c.(phase := Confirming))
  {
    hide RetryOr, RetryableStatus;
  }

  /** A proposer that has not finished may give up at any time. */
  lemma CancelExactly(config: Config, s: State, id: nat)
    ensures Step(config, s, Cancel(id)) ==
      if id in s.clients && !s.clients[id].phase.Done?
      then s.(clients := s.clients[id := s.clients[id].(phase := Done(None, false))]) else s
  {
  }
}
