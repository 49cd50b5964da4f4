/**
One caller of the conditional create: where it stands between the PUT and the HEAD that settles an
ambiguous one, and how it moves on with what it hears. The object may be of any kind.
*/
module CreateClient {
  import opened Wrappers
  import opened ConditionalCreate

  /** Where a caller stands; a probe remembers the status that made it necessary, if there was one. */
  datatype Phase<C> =
    | Sending
    | Probing(status: Option<nat>)
    | Confirming
    | Fetching
    | Done(result: Option<C>, created: bool)

  datatype Client<C> = Client(wanted: C, attempt: nat, unresolved: bool, phase: Phase<C>)

  /** Whether a HEAD or GET is answered with the object's state, a conflict status, or not at all. */
  datatype Heard = Answered | ConflictStatus | Nothing

  predicate IsGenuine(answer: Answer) {
    answer.Genuine? || (answer.Status? && (answer.code == 412 || 200 <= answer.code < 300))
  }

  function Observe<C>(stored: Option<C>, heard: Heard): Probe<C> {
    match heard
    case Answered => if stored.Some? then Found(stored.value) else NotFound
    case ConflictStatus => Conflict
    case Nothing => Failed
  }

  function AfterError<C>(error: QueryResult): Phase<C> {
    if error.Precondition? then Confirming else Done(None, false)
  }

  predicate LastAttempt<C>(attempts: nat, c: Client<C>) {
    c.attempt + 1 >= (if ReplaySafe(PUT, "*") && attempts > 1 then attempts else 1)
  }

  /** The next try, or the error once the attempts are used up. */
  function RetryOr<C>(attempts: nat, c: Client<C>, unresolved: bool, error: QueryResult): Client<C> {
    if LastAttempt(attempts, c) then c.(unresolved := unresolved, phase := AfterError(error))
    else c.(attempt := c.attempt + 1, unresolved := unresolved, phase := Sending)
  }

  /** The client after one PUT whose genuine answer, if heard, is "created" or 412. */
  function AfterSend<C>(c: Client<C>, created: bool, answer: Answer): Client<C> {
    if IsGenuine(answer) && created then c.(phase := Done(Some(c.wanted), true))
    else if answer.Transport? then
      if answer.cancelled then c.(phase := Done(None, false))
      else c.(unresolved := true, phase := Probing(None))
    else
      var code := if IsGenuine(answer) then 412 else answer.code;
      var retryable := RetryableStatus(PUT, "*", code);
      if retryable || c.unresolved then c.(unresolved := c.unresolved || retryable, phase := Probing(Some(code)))
      else c.(phase := AfterError(StatusError(code)))
  }

  /** The client after the HEAD that reconciles an ambiguous create. */
  function AfterProbe<C(==)>(attempts: nat, c: Client<C>, probe: Probe<C>): Client<C>
    requires c.phase.Probing?
  {
    var error := if c.phase.status.Some? then StatusError(c.phase.status.value) else QueryError;
    var mayRetry := c.phase.status.Some? ==> RetryableStatus(PUT, "*", c.phase.status.value);
    match probe
    case Found(content) =>
      if content == c.wanted then c.(phase := Done(Some(c.wanted), true)) else c.(phase := Confirming)
    case Conflict => c.(phase := Confirming)
    case NotFound =>
      if mayRetry then RetryOr(attempts, c, false, error) else c.(unresolved := false, phase := AfterError(error))
    case Failed =>
      if mayRetry then RetryOr(attempts, c, c.unresolved, error) else c.(phase := AfterError(error))
  }

  /** The client after the HEAD behind a failed precondition. */
  function AfterConfirm<C>(c: Client<C>, probe: Probe<C>): Client<C> {
    c.(phase := if probe.Found? then Fetching else Done(None, false))
  }

  // ---------------------------------------------------------------- replays

  /** Another try is allowed: the status that led to the probe, if any, asks for one, and attempts are left. */
  predicate MayRetry<C>(attempts: nat, c: Client<C>)
    requires c.phase.Probing?
  {
    (c.phase.status.Some? ==> RetryableStatus(PUT, "*", c.phase.status.value)) && !LastAttempt(attempts, c)
  }

  /**
  After a probe the create is replayed exactly when another try is allowed and the probe either
  found nothing or failed: confirmed absence is not needed.
  */
  lemma ReplaysExactly<C>(attempts: nat, c: Client<C>, probe: Probe<C>)
    requires c.phase.Probing?
    ensures AfterProbe(attempts, c, probe).phase.Sending?
       <==> (probe.NotFound? || probe.Failed?) && MayRetry(attempts, c)
  {
  }

  lemma SendKeepsWanted<C>(c: Client<C>, created: bool, answer: Answer)
    ensures AfterSend(c, created, answer).wanted == c.wanted
  {
    hide RetryableStatus;
  }

  lemma ProbeKeepsWanted<C>(attempts: nat, c: Client<C>, probe: Probe<C>)
    requires c.phase.Probing?
    ensures AfterProbe(attempts, c, probe).wanted == c.wanted
  {
    hide RetryableStatus;
  }

  /** Another try is allowed exactly for no status or a retryable one, below the limit on attempts. */
  lemma MayRetryExactly<C>(attempts: nat, c: Client<C>)
    requires c.phase.Probing?
    ensures MayRetry(attempts, c) <==>
      && c.attempt + 1 < attempts
      && (c.phase.status == None
          || c.phase.status.value in {408, 409, 425, 429, 500, 502, 503, 504, 520, 521, 522, 523, 524})
  {
    if c.phase.status.Some? {
      RetryableExactly(PUT, "*", c.phase.status.value);
    }
    SwapsAreSentOnce(PUT, "*");
  }

  /** A create that is answered outright is settled; one that is not, or that must be asked about, is probed. */
  lemma AnswersExactly<C>(c: Client<C>, created: bool, answer: Answer)
    ensures var next := AfterSend(c, created, answer);
      var heard := answer == Genuine || (answer.Status? && (answer.code == 412 || 200 <= answer.code <= 299));
      && next.wanted == c.wanted && next.attempt == c.attempt
      && (next.phase == Done(Some(c.wanted), true) <==> heard && created)
      && (next.phase == Confirming <==> heard && !created && !c.unresolved)
      && (next.phase == Probing(None) <==> answer == Transport(false))
      && (next.phase == Done(None, false) <==>
            answer == Transport(true) || (answer.Status? && !heard && !c.unresolved
                                          && !RetryableStatus(PUT, "*", answer.code)))
  {
    if answer.Status? {
      RetryableExactly(PUT, "*", answer.code);
    }
    hide RetryableStatus;
  }
}
