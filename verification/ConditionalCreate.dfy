/**
A conditional create over an unreliable network: PUT with If-None-Match (RFC 9110, section 13.1.2),
replayed after a HEAD probe, and the write-once reservations built on it.
*/
module ConditionalCreate {
  import opened Wrappers
  import opened Manifest

  // ---------------------------------------------------------------- policy

  datatype Verb = GET | HEAD | PUT | OTHER

  /** condition "*" asks for creation; anything else is an If-Match or no condition at all. */
  predicate ReplaySafe(verb: Verb, condition: string) {
    verb.GET? || verb.HEAD? || (verb.PUT? && condition == "*")
  }

  predicate RetryableStatus(verb: Verb, condition: string, status: nat) {
    if status == 409 then verb.PUT? && condition == "*"
    else status in {408, 425, 429, 500, 502, 503, 504} || 520 <= status <= 524
  }

  // ---------------------------------------------------------------- one object on the server

  /** The client's view of one PUT; Genuine means the server processed it and its answer arrived. */
  datatype Answer = Genuine | Transport(cancelled: bool) | Status(code: nat)

  /** One exchange: creates that land first, whether ours is processed, and what we hear. */
  datatype Exchange<C> = Exchange(landing: seq<C>, processed: bool, answer: Answer)

  /** What a HEAD or a GET tells: the object, its absence, a conflict status, or nothing. */
  datatype Probe<C> = Found(content: C) | NotFound | Conflict | Failed

  datatype PutReply = Accepted | Refused | Broken(cancelled: bool) | Rejected(code: nat)

  /** The server's rule: a create lands only while nothing is stored. */
  function Landed<C>(stored: Option<C>, content: C): Option<C> {
    if stored.None? then Some(content) else stored
  }

  ghost predicate WriteOnce<C>(before: Option<C>, after: Option<C>) {
    before.Some? ==> after == before
  }

  /** The exchange that comes next; past the end of the script the network is calm. */
  function Head<C>(script: seq<Exchange<C>>): Exchange<C> {
    if script == [] then Exchange([], true, Genuine) else script[0]
  }

  function Tail<C>(script: seq<Exchange<C>>): seq<Exchange<C>> {
    if script == [] then [] else script[1..]
  }

  predicate Calm<C>(script: seq<Exchange<C>>) {
    forall i :: 0 <= i < |script| ==> script[i].answer.Genuine?
  }

  /** A create whose reply is lost or is a status that asks for another try. */
  predicate Noise(answer: Answer) {
    match answer
    case Genuine => false
    case Transport(cancelled) => !cancelled
    case Status(code) => code != 412 && !(200 <= code < 300) && RetryableStatus(PUT, "*", code)
  }

  /** The network is calm after fewer noisy tries than there are attempts; the probes between them may fail. */
  predicate RidesOut<C>(script: seq<Exchange<C>>, attempts: nat) {
    attempts > 0 &&
    (Calm(script) || (|script| >= 2 && Noise(script[0].answer) && RidesOut(script[2..], attempts - 1)))
  }

  class Remote<C(==)> {
    var stored: Option<C>
    var script: seq<Exchange<C>>

    constructor (stored: Option<C>, script: seq<Exchange<C>>)
      ensures this.stored == stored && this.script == script
    {
      this.stored, this.script := stored, script;
    }

    method Next() returns (exchange: Exchange<C>)
      modifies this
      ensures WriteOnce(old(stored), stored)
      ensures exchange == Head(old(script)) && script == Tail(old(script))
    {
      if script == [] {
        return Exchange([], true, Genuine);
      }
      exchange, script := script[0], script[1..];
      for i := 0 to |exchange.landing|
        invariant WriteOnce(old(stored), stored) && script == old(script)[1..]
      {
        stored := Landed(stored, exchange.landing[i]);
      }
    }

    /** Success and 412 are only ever heard from the server itself. */
    method Put(content: C) returns (reply: PutReply)
      modifies this
      ensures WriteOnce(old(stored), stored)
      ensures reply.Accepted? ==> stored == Some(content)
      ensures reply.Refused? ==> stored.Some?
      ensures reply.Rejected? ==> reply.code != 412 && !(200 <= reply.code < 300)
      ensures script == Tail(old(script))
      ensures match Head(old(script)).answer
              case Genuine => reply.Accepted? || reply.Refused?
              case Transport(cancelled) => reply == Broken(cancelled)
              case Status(code) =>
                reply == Rejected(code) || ((code == 412 || 200 <= code < 300) && !reply.Broken? && !reply.Rejected?)
    {
      var exchange := Next();
      var genuine := exchange.answer.Genuine?
        || (exchange.answer.Status? && (exchange.answer.code == 412 || 200 <= exchange.answer.code < 300));
      var absent := stored.None?;
      if exchange.processed || genuine {
        stored := Landed(stored, content);
      }
      if genuine {
        return if absent then Accepted else Refused;
      }
      reply := if exchange.answer.Transport? then Broken(exchange.answer.cancelled) else Rejected(exchange.answer.code);
    }

    /** HEAD and GET, with their own retries behind them. */
    method Look() returns (probe: Probe<C>)
      modifies this
      ensures WriteOnce(old(stored), stored)
      ensures probe.Found? ==> stored == Some(probe.content)
      ensures probe.NotFound? ==> stored == None
      ensures script == Tail(old(script))
      ensures Head(old(script)).answer.Genuine? ==> probe.Found? || probe.NotFound?
    {
      var exchange := Next();
      match exchange.answer {
        case Genuine => probe := if stored.Some? then Found(stored.value) else NotFound;
        case Status(code) => probe := if code == 409 || code == 412 then Conflict else Failed;
        case Transport(_) => probe := Failed;
      }
    }
  }

  // ---------------------------------------------------------------- doQuery, PutIfAbsent

  datatype QueryResult = Success | Precondition | QueryError

  /** The error a status stands for; 409 counts as a failed precondition even when it was retried. */
  function StatusError(code: nat): QueryResult {
    if code == 409 || code == 412 then Precondition else QueryError
  }

  datatype Reconciled = Ours | Different | Absent | Unanswered

  /** The probe after an ambiguous create: the exact content is a logical success. */
  method Reconcile<C(==)>(remote: Remote<C>, content: C) returns (r: Reconciled)
    modifies remote
    ensures WriteOnce(old(remote.stored), remote.stored)
    ensures r.Ours? ==> remote.stored == Some(content)
    ensures r.Absent? ==> remote.stored == None
    ensures remote.script == Tail(old(remote.script))
    ensures Head(old(remote.script)).answer.Genuine? ==> !r.Unanswered? && (r.Absent? <==> remote.stored == None)
  {
    var probe := remote.Look();
    match probe {
      case Found(c) => r := if c == content then Ours else Different;
      case NotFound => r := Absent;
      case Conflict => r := Different;
      case Failed => r := Unanswered;
    }
  }

  /** At least one attempt is made. */
  function Attempts(retryAttempts: nat): nat {
    if retryAttempts > 1 then retryAttempts else 1
  }

  lemma ScriptAdvances<C>(script: seq<Exchange<C>>, attempts: nat)
    ensures Calm(script) ==> Head(script).answer.Genuine? && Calm(Tail(script)) && Calm(Tail(Tail(script)))
    ensures RidesOut(script, attempts) ==> attempts > 0
    ensures RidesOut(script, attempts) && !Calm(script) ==>
      Noise(Head(script).answer) && RidesOut(Tail(Tail(script)), attempts - 1)
    ensures RidesOut(script, attempts) && attempts == 1 ==> Calm(script)
  {
    if |script| >= 2 {
      assert script[1..][1..] == script[2..];
    }
  }

  /** The PUT of a conditional create, replayed until its outcome is known or attempts run out. */
  method DoConditionalCreate<C(==)>(remote: Remote<C>, content: C, retryAttempts: nat) returns (r: QueryResult)
    modifies remote
    ensures WriteOnce(old(remote.stored), remote.stored)
    ensures r.Success? ==> remote.stored == Some(content)
    ensures RidesOut(old(remote.script), Attempts(retryAttempts)) ==> !r.QueryError?
    ensures Calm(old(remote.script)) ==> Calm(remote.script) && (r.Precondition? ==> remote.stored.Some?)
  {
    hide RidesOut, Calm;
    var attempts := 1;
    if ReplaySafe(PUT, "*") && retryAttempts > attempts {
      attempts := retryAttempts;
    }
    var unresolved := false;
    for attempt := 0 to attempts
      invariant WriteOnce(old(remote.stored), remote.stored)
      invariant RidesOut(old(remote.script), attempts) ==> RidesOut(remote.script, attempts - attempt)
      invariant Calm(old(remote.script)) ==> Calm(remote.script) && !unresolved
    {
      ScriptAdvances(remote.script, attempts - attempt);
      var reply := remote.Put(content);
      if reply.Broken? {
        if reply.cancelled {
          return QueryError;
        }
        unresolved := true;
        var reconciled := Reconcile(remote, content);
        if reconciled.Ours? {
          return Success;
        }
        if reconciled.Different? {
          return Precondition;
        }
        if reconciled.Absent? {
          unresolved := false;
        }
        if attempt + 1 >= attempts {
          return QueryError;
        }
        continue;
      }
      if reply.Accepted? {
        return Success;
      }
      var code := if reply.Refused? then 412 else reply.code;
      var retryable := RetryableStatus(PUT, "*", code);
      var failure := StatusError(code);
      if retryable || unresolved {
        unresolved := unresolved || retryable;
        var reconciled := Reconcile(remote, content);
        if reconciled.Ours? {
          return Success;
        }
        if reconciled.Different? {
          return Precondition;
        }
        if reconciled.Absent? {
          unresolved := false;
        } else if !retryable || attempt + 1 >= attempts {
          return failure;
        }
      }
      if !retryable || attempt + 1 >= attempts {
        return failure;
      }
    }
    ScriptAdvances(remote.script, 0);
    r := QueryError;
  }

  datatype PutOutcome<C> = Created | Exists(content: C) | PutError

  /** Created is reported only for the requested content; Exists only for what is stored. */
  method PutIfAbsent<C(==)>(remote: Remote<C>, content: C, retryAttempts: nat) returns (r: PutOutcome<C>)
    modifies remote
    ensures WriteOnce(old(remote.stored), remote.stored)
    ensures r.Created? ==> remote.stored == Some(content)
    ensures r.Exists? ==> remote.stored == Some(r.content)
    ensures Calm(old(remote.script)) ==> !r.PutError? && Calm(remote.script)
  {
    var query := DoConditionalCreate(remote, content, retryAttempts);
    match query {
      case Success => r := Created;
      case QueryError => r := PutError;
      case Precondition =>
        var probe := remote.Look();
        r := if probe.Found? then Exists(probe.content) else PutError;
    }
  }

  // ---------------------------------------------------------------- ReserveGeneration

  datatype Reservation = Reservation(fingerprint: string, generation: nat)

  predicate ValidReservation(r: Reservation, fingerprint: string) {
    r.fingerprint == fingerprint && r.generation != 0
  }

  /** A reservation is returned only if it is the one stored for the fingerprint. */
  method ReserveGeneration(remote: Remote<Reservation>, fingerprint: string, proposed: nat, retryAttempts: nat)
    returns (r: Option<Reservation>, created: bool)
    modifies remote
    ensures WriteOnce(old(remote.stored), remote.stored)
    ensures r.Some? ==> remote.stored == r && ValidReservation(r.value, fingerprint)
    ensures created ==> r == Some(Reservation(fingerprint, proposed))
    ensures !IsFingerprint(fingerprint) || proposed == 0 ==> r == None
    ensures Calm(old(remote.script)) && IsFingerprint(fingerprint) && proposed != 0 ==>
      remote.stored.Some? && (ValidReservation(remote.stored.value, fingerprint) ==> r.Some?)
  {
    created := false;
    if !IsFingerprint(fingerprint) || proposed == 0 {
      return None, false;
    }
    var wanted := Reservation(fingerprint, proposed);
    var put := PutIfAbsent(remote, wanted, retryAttempts);
    if put.PutError? {
      return None, false;
    }
    if put.Created? {
      return Some(wanted), true;
    }
    var existing := remote.Look();
    if !existing.Found? || !ValidReservation(existing.content, fingerprint) {
      return None, false;
    }
    r := Some(existing.content);
  }

  // ---------------------------------------------------------------- retry delay

  function Power2(n: nat): (p: nat)
    ensures p >= 1
  {
    if n == 0 then 1 else 2 * Power2(n - 1)
  }

  lemma {:induction false} Power2Monotone(m: nat, n: nat)
    requires m <= n
    ensures Power2(m) <= Power2(n)
    decreases n
  {
    if m < n {
      Power2Monotone(m, n - 1);
    }
  }

  function Min(a: int, b: int): int {
    if a < b then a else b
  }

  const MAX_DURATION: int := 0x7FFF_FFFF_FFFF_FFFF

  /** Doubling delay, capped; the guard against doubling past the cap also keeps it in 64 bits. */
  method ExponentialRetryDelay(initial: int, maximum: int, attempt: nat) returns (delay: int)
    requires initial <= MAX_DURATION && maximum <= MAX_DURATION
    ensures initial <= 0 || maximum <= 0 ==> delay == 0
    ensures initial > 0 && maximum > 0 ==> delay == Min(initial * Power2(attempt), maximum)
  {
    if initial <= 0 || maximum <= 0 {
      return 0;
    }
    delay := initial;
    var retry := 0;
    while retry < attempt && delay < maximum
      invariant 0 <= retry <= attempt
      invariant delay == initial * Power2(retry) && 0 < delay <= MAX_DURATION
    {
      if delay > maximum / 2 {
        DelayExceeds(initial, retry + 1, attempt);
        return maximum;
      }
      delay := delay * 2;
      retry := retry + 1;
    }
    DelayExceeds(initial, retry, attempt);
    if delay > maximum {
      return maximum;
    }
  }

  lemma DelayExceeds(initial: int, m: nat, n: nat)
    requires initial > 0 && m <= n
    ensures initial * Power2(m) <= initial * Power2(n)
  {
    Power2Monotone(m, n);
    assert initial * (Power2(n) - Power2(m)) >= 0;
  }

  // ---------------------------------------------------------------- policy, outright

  /** The statuses after which a request may be sent again; a conflict only for a create. */
  lemma RetryableExactly(verb: Verb, condition: string, status: nat)
    ensures RetryableStatus(verb, condition, status) <==>
      || (status == 409 && verb == PUT && condition == "*")
      || status in {408, 425, 429, 500, 502, 503, 504, 520, 521, 522, 523, 524}
  {
  }

  /** Reads and creates are replayed; a swap, or any other write, goes out once. */
  lemma SwapsAreSentOnce(verb: Verb, condition: string)
    ensures !ReplaySafe(verb, condition) <==> verb == OTHER || (verb == PUT && condition != "*")
  {
  }

  /** Only a conflict or a failed precondition means that the object exists; and a request is sent at least once. */
  lemma ErrorsAndAttemptsExactly(code: nat, retryAttempts: nat)
    ensures StatusError(code) == Precondition <==> code in {409, 412}
    ensures StatusError(code) == QueryError <==> code !in {409, 412}
    ensures Attempts(retryAttempts) >= 1 && (retryAttempts >= 1 ==> Attempts(retryAttempts) == retryAttempts)
  {
  }
}
