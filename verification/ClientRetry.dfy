/** The retry loop of the client (`packages/client/src/client.ts`) against the pipeline of the server: when repeating a
    call cannot repeat a change. */
module ClientRetry {
  import opened Arithmetic
  import opened Wrappers
  import opened Pipeline

  const MAX_RETRY_AFTER_MS: int := 30000
  const MAX_BACKOFF_MS: int := 5000

  datatype Operation = Operation(safe: bool, idempotent: bool)

  /** What becomes of one request on its way. */
  datatype Fate =
    | NeverArrives                   // refused connection, or a timeout before the server
    | ReplyLost                      // the server did its part, the client sees an error
    | Delivered(parses: bool)        // the client sees the answer, as JSON or not
    | ProxyAnswers(forwarded: bool, status: int, code: Code, retryAfter: Option<int>)

  /** One turn of the loop as the world plays it: `served` is what the server does if the request reaches it, `jitter`
      the drawn fraction of the back-off, in [0, 1). */
  datatype Exchange = Exchange(credential: bool, abortedBefore: bool, abortedDuring: bool, abortedInWait: bool,
                               fate: Fate, served: Served, jitter: real)

  datatype Outcome =
    | Result(status: int)
    | InvalidResponse
    | ApiError(status: int, code: Code)
    | ConnectionError
    | Aborted
    | CredentialError

  datatype Verdict = Stop(outcome: Outcome) | Again(wait: Option<int>)

  /** `retryable` of a problem: read-only mode never ends by asking again. */
  predicate Retryable(repeatable: bool, status: int, code: Code) {
    !code.ReadOnly? &&
      (UpFront(code) || (repeatable && (status == 502 || status == 503 || status == 504)))
  }

  /** `Retry-After` in milliseconds, capped; anything but a positive number is no answer. */
  function Asked(retryAfter: Option<int>): Option<int> {
    match retryAfter
    case Some(seconds) => if seconds > 0 then Some(MinInt(seconds * 1000, MAX_RETRY_AFTER_MS)) else None
    case None => None
  }

  /** What the client reads: the server's answer, a proxy's, or an error of the connection. */
  function Seen(x: Exchange): Option<Answer> {
    match x.fate
    case NeverArrives => None
    case ReplyLost => None
    case Delivered(parses) =>
      var answer := x.served.answer;
      if answer.Problem? && !parses then Some(Problem(answer.status, UnexpectedResponse, answer.retryAfter))
      else Some(answer)
    case ProxyAnswers(_, status, code, retryAfter) => Some(Problem(status, code, retryAfter))
  }

  function OnProblem(repeatable: bool, attempt: nat, retries: nat, timeoutMs: int, p: Answer): Verdict
    requires p.Problem?
  {
    var asked := Asked(p.retryAfter);
    if !Retryable(repeatable, p.status, p.code) || attempt >= retries || (asked.Some? && asked.value > timeoutMs)
    then Stop(ApiError(p.status, p.code)) else Again(asked)
  }

  /** One turn of the loop. */
  function Turn(repeatable: bool, attempt: nat, retries: nat, timeoutMs: int, x: Exchange): Verdict {
    if !x.credential then Stop(CredentialError)
    else if x.abortedBefore then Stop(Aborted)
    else match Seen(x)
      case Some(Success(status)) =>
        if x.fate == Delivered(false) && status != 204 then Stop(InvalidResponse) else Stop(Result(status))
      case Some(Problem(status, code, retryAfter)) =>
        OnProblem(repeatable, attempt, retries, timeoutMs, Problem(status, code, retryAfter))
      case None =>
        if x.abortedDuring then Stop(Aborted)
        else if !repeatable || attempt >= retries then Stop(ConnectionError) else Again(None)
  }

  /** Handlers the server starts for one turn. */
  function HandlerRuns(x: Exchange): nat {
    if !x.credential || x.abortedBefore || x.fate.NeverArrives? || (x.fate.ProxyAnswers? && !x.fate.forwarded) then 0
    else if x.served.handlerRan then 1 else 0
  }

  function Power2(n: nat): int { if n == 0 then 1 else 2 * Power2(n - 1) }

  /** How long the loop sleeps before the next turn. */
  function Pause(attempt: nat, wait: Option<int>, jitter: real): int {
    match wait
    case Some(ms) => ms
    case None => (jitter * MinInt(MAX_BACKOFF_MS, 200 * Power2(attempt)) as real).Floor
  }

  /** The pause between this turn and the next. */
  ghost predicate PauseAfter(repeatable: bool, retries: nat, timeoutMs: int, attempt: nat, x: Exchange, ms: int) {
    exists wait ::
      Turn(repeatable, attempt, retries, timeoutMs, x) == Again(wait) && ms == Pause(attempt, wait, x.jitter)
  }

  /** These are the pauses after the first turns. */
  ghost predicate Slept(repeatable: bool, retries: nat, timeoutMs: int, world: nat -> Exchange, pauses: seq<int>)
    decreases |pauses|
  {
    pauses == [] ||
    var n := |pauses| - 1;
    && PauseOk(pauses[n], timeoutMs) && PauseAfter(repeatable, retries, timeoutMs, n, world(n), pauses[n])
    && Slept(repeatable, retries, timeoutMs, world, pauses[..n])
  }

  lemma SleptOnce(repeatable: bool, retries: nat, timeoutMs: int, world: nat -> Exchange, pauses: seq<int>, ms: int)
    requires Slept(repeatable, retries, timeoutMs, world, pauses)
    requires PauseOk(ms, timeoutMs) && PauseAfter(repeatable, retries, timeoutMs, |pauses|, world(|pauses|), ms)
    ensures Slept(repeatable, retries, timeoutMs, world, pauses + [ms])
  {
    assert (pauses + [ms])[..|pauses|] == pauses;
  }

  /** Each of them keeps the limits and is the one that its turn asks for. */
  lemma {:induction false} EveryPause(repeatable: bool, retries: nat, timeoutMs: int, world: nat -> Exchange,
                                      pauses: seq<int>, i: nat)
    requires Slept(repeatable, retries, timeoutMs, world, pauses) && i < |pauses|
    ensures PauseOk(pauses[i], timeoutMs) && PauseAfter(repeatable, retries, timeoutMs, i, world(i), pauses[i])
    decreases |pauses|
  {
    if i < |pauses| - 1 { EveryPause(repeatable, retries, timeoutMs, world, pauses[..|pauses| - 1], i); }
  }

  datatype Conversation = Conversation(outcome: Outcome, attempts: nat, runs: nat)

  /** The loop from turn `attempt` on. */
  function Talk(repeatable: bool, attempt: nat, retries: nat, timeoutMs: int, world: nat -> Exchange): Conversation
    decreases if attempt <= retries then retries - attempt else 0
  {
    var x := world(attempt);
    match Turn(repeatable, attempt, retries, timeoutMs, x)
    case Stop(outcome) => Conversation(outcome, 1, HandlerRuns(x))
    case Again(_) =>
      if x.abortedInWait then Conversation(Aborted, 1, HandlerRuns(x))
      else
        var rest := Talk(repeatable, attempt + 1, retries, timeoutMs, world);
        Conversation(rest.outcome, rest.attempts + 1, HandlerRuns(x) + rest.runs)
  }

  /** A key is added for an operation that takes one, unless nothing will be repeated. `None` is the caller's
      mistake. */
  function Repeatable(op: Operation, keyGiven: bool, retries: nat): Option<bool> {
    if keyGiven && !op.idempotent then None
    else Some(op.safe || keyGiven || (op.idempotent && retries > 0))
  }

  /** The body of the loop, up to the sleep: throw or return, or go round again. */
  method OneTurn(repeatable: bool, attempt: nat, retries: nat, timeoutMs: nat, x: Exchange) returns (verdict: Verdict)
    ensures verdict == Turn(repeatable, attempt, retries, timeoutMs, x)
    ensures verdict.Again? ==> attempt < retries
    ensures verdict.Again? && verdict.wait.Some? ==> 0 <= verdict.wait.value <= MinInt(MAX_RETRY_AFTER_MS, timeoutMs)
  {
    if !x.credential {
      return Stop(CredentialError);
    }
    if x.abortedBefore {
      return Stop(Aborted);
    }
    var seen := Seen(x);
    if seen.Some? {
      if seen.value.Success? {
        var unread := x.fate == Delivered(false) && seen.value.status != 204;
        return Stop(if unread then InvalidResponse else Result(seen.value.status));
      }
      var problem := seen.value;
      var asked := Asked(problem.retryAfter);
      var tooLong := asked.Some? && asked.value > timeoutMs;
      if !Retryable(repeatable, problem.status, problem.code) || attempt >= retries || tooLong {
        return Stop(ApiError(problem.status, problem.code));
      }
      return Again(asked);
    }
    if x.abortedDuring {
      return Stop(Aborted);
    }
    if !repeatable || attempt >= retries {
      return Stop(ConnectionError);
    }
    return Again(None);
  }

  /** `call`, from the point where the request is built. The pauses it makes are recorded. */
  method Call(repeatable: bool, retries: nat, timeoutMs: nat, world: nat -> Exchange)
    returns (outcome: Outcome, attempts: nat, ghost runs: nat, pauses: seq<int>)
    requires forall i: nat :: 0.0 <= world(i).jitter < 1.0
    ensures Conversation(outcome, attempts, runs) == Talk(repeatable, 0, retries, timeoutMs, world)
    ensures 1 <= attempts <= retries + 1
    ensures attempts - 1 <= |pauses| <= attempts
    ensures Slept(repeatable, retries, timeoutMs, world, pauses)
  {
    attempts, runs, pauses := 0, 0, [];
    while true
      invariant attempts <= retries
      invariant Talk(repeatable, 0, retries, timeoutMs, world) ==
        var rest := Talk(repeatable, attempts, retries, timeoutMs, world);
        Conversation(rest.outcome, attempts + rest.attempts, runs + rest.runs)
      invariant |pauses| == attempts && Slept(repeatable, retries, timeoutMs, world, pauses)
      decreases retries - attempts
    {
      var x := world(attempts);
      var verdict := OneTurn(repeatable, attempts, retries, timeoutMs, x);
      ghost var own := HandlerRuns(x);
      if verdict.Stop? {
        return verdict.outcome, attempts + 1, runs + own, pauses;
      }
      var ms := SleepFor(attempts, verdict.wait, x.jitter, timeoutMs);
      SleptOnce(repeatable, retries, timeoutMs, world, pauses, ms);
      pauses := pauses + [ms];
      if x.abortedInWait {
        return Aborted, attempts + 1, runs + own, pauses;
      }
      attempts, runs := attempts + 1, runs + own;
    }
  }

  lemma {:induction false} PowerPositive(n: nat)
    ensures Power2(n) >= 1
  {
    if n > 0 { PowerPositive(n - 1); }
  }

  /** No pause is longer than 30 seconds, and a pause the server asked for is no longer than the call's own time
      limit. */
  predicate PauseOk(ms: int, timeoutMs: int) {
    0 <= ms <= MAX_RETRY_AFTER_MS && (ms <= MAX_BACKOFF_MS || ms <= timeoutMs)
  }

  lemma FractionBelow(jitter: real, cap: int)
    requires 0.0 <= jitter < 1.0 && cap > 0
    ensures 0 <= (jitter * cap as real).Floor < cap
  {
    assert 0.0 <= jitter * cap as real < 1.0 * cap as real;
  }

  method SleepFor(attempt: nat, wait: Option<int>, jitter: real, timeoutMs: int) returns (ms: int)
    requires 0.0 <= jitter < 1.0
    requires wait.Some? ==> 0 <= wait.value <= MAX_RETRY_AFTER_MS && wait.value <= timeoutMs
    ensures ms == Pause(attempt, wait, jitter)
    ensures PauseOk(ms, timeoutMs)
    ensures wait.Some? ==> ms == wait.value
    ensures wait.None? ==>
      var most := MinInt(5000, 200 * Power2(attempt)) as real;
      ms as real <= jitter * most < ms as real + 1.0
  {
    PowerPositive(attempt);
    var cap := MinInt(MAX_BACKOFF_MS, 200 * Power2(attempt));
    FractionBelow(jitter, cap);
    ms := if wait.Some? then wait.value else (jitter * cap as real).Floor;
  }

  // ----- at most once

  /** What the server answers is true, and no proxy that forwarded the request answers with an up-front code itself. */
  predicate HonestExchange(x: Exchange) {
    && TellsTheTruth(x.served)
    && (x.fate.ProxyAnswers? && x.fate.forwarded ==> !UpFront(x.fate.code))
  }

  ghost predicate HonestWorld(world: nat -> Exchange) {
    forall i: nat :: HonestExchange(world(i))
  }

  /** A call that may not be repeated goes on only after a turn that cannot have run the handler. */
  lemma OnlyUpFrontRefusalsAreRepeated(attempt: nat, retries: nat, timeoutMs: int, x: Exchange)
    requires HonestExchange(x)
    requires Turn(false, attempt, retries, timeoutMs, x).Again?
    ensures HandlerRuns(x) == 0
  {
  }

  /** The handler ran at most once in this conversation from turn `attempt` on, and if it did, for the last request. */
  ghost predicate Once(t: Conversation, attempt: nat, world: nat -> Exchange) {
    t.attempts >= 1 && t.runs <= 1 && t.runs == HandlerRuns(world(attempt + t.attempts - 1))
  }

  lemma OnceMore(rest: Conversation, attempt: nat, world: nat -> Exchange)
    requires Once(rest, attempt + 1, world)
    ensures Once(Conversation(rest.outcome, rest.attempts + 1, rest.runs), attempt, world)
  {
    assert attempt + 1 + rest.attempts - 1 == attempt + (rest.attempts + 1) - 1;
  }

  /** Over the whole loop, whatever the network does, the handler runs at most once for a call that may not be repeated;
      and if it ran, it ran for the last request. */
  lemma {:induction false} AtMostOnce(attempt: nat, retries: nat, timeoutMs: int, world: nat -> Exchange)
    requires HonestWorld(world)
    ensures Once(Talk(false, attempt, retries, timeoutMs, world), attempt, world)
    decreases if attempt <= retries then retries - attempt else 0
  {
    var goesOn, t, rest := TalkUnrolls(false, attempt, retries, timeoutMs, world);
    if goesOn {
      OnlyUpFrontRefusalsAreRepeated(attempt, retries, timeoutMs, world(attempt));
      AtMostOnce(attempt + 1, retries, timeoutMs, world);
      OnceMore(rest, attempt, world);
    }
  }

  /** Which calls that is: of an operation that changes something, without an idempotency key, given or added by the
      client. */
  lemma ChangesHappenAtMostOnce(op: Operation, keyGiven: bool, retries: nat, timeoutMs: int, world: nat -> Exchange)
    requires HonestWorld(world) && Repeatable(op, keyGiven, retries).Some?
    ensures Repeatable(op, keyGiven, retries).value <==> op.safe || keyGiven || (op.idempotent && retries > 0)
    ensures !op.safe && (!op.idempotent || (!keyGiven && retries == 0)) ==>
      Talk(Repeatable(op, keyGiven, retries).value, 0, retries, timeoutMs, world).runs <= 1
  {
    if !Repeatable(op, keyGiven, retries).value { AtMostOnce(0, retries, timeoutMs, world); }
  }

  /** The loop ends with this turn, or it is this turn and the loop from the next one. */
  lemma TalkUnrolls(repeatable: bool, attempt: nat, retries: nat, timeoutMs: int, world: nat -> Exchange)
    returns (goesOn: bool, t: Conversation, rest: Conversation)
    ensures t == Talk(repeatable, attempt, retries, timeoutMs, world)
    ensures goesOn ==>
      && attempt < retries && Turn(repeatable, attempt, retries, timeoutMs, world(attempt)).Again?
      && rest == Talk(repeatable, attempt + 1, retries, timeoutMs, world)
      && t == Conversation(rest.outcome, rest.attempts + 1, HandlerRuns(world(attempt)) + rest.runs)
    ensures !goesOn ==> t.attempts == 1 && t.runs == HandlerRuns(world(attempt)) <= 1
  {
    t := Talk(repeatable, attempt, retries, timeoutMs, world);
    rest := Talk(repeatable, attempt + 1, retries, timeoutMs, world);
    goesOn := Turn(repeatable, attempt, retries, timeoutMs, world(attempt)).Again? && !world(attempt).abortedInWait;
  }

  /** The assumption is needed: a handler that answers with an up-front code is run again on every turn that is left. */
  lemma {:induction false} DishonestHandlerRunsAgain(attempt: nat, retries: nat, timeoutMs: int,
                                                     world: nat -> Exchange, x: Exchange)
    requires attempt <= retries && forall i: nat :: world(i) == x
    requires x.credential && !x.abortedBefore && !x.abortedInWait && x.fate == Delivered(true)
    requires x.served.handlerRan && x.served.answer.Problem?
    requires UpFront(x.served.answer.code) && x.served.answer.retryAfter == None
    ensures Talk(false, attempt, retries, timeoutMs, world).runs == retries - attempt + 1
    decreases retries - attempt
  {
    if attempt < retries {
      DishonestHandlerRunsAgain(attempt + 1, retries, timeoutMs, world, x);
    }
  }

  /** Nor may a proxy: one that forwards the request and answers with an up-front code itself makes the handler run on
      every turn that is left, however honest the server is. */
  lemma {:induction false} ForwardingProxyRunsAgain(attempt: nat, retries: nat, timeoutMs: int,
                                                    world: nat -> Exchange, x: Exchange)
    requires attempt <= retries && forall i: nat :: world(i) == x
    requires x.credential && !x.abortedBefore && !x.abortedInWait && x.served.handlerRan
    requires x.fate == ProxyAnswers(true, 503, Unavailable, None)
    ensures Talk(false, attempt, retries, timeoutMs, world).runs == retries - attempt + 1
    decreases retries - attempt
  {
    if attempt < retries {
      ForwardingProxyRunsAgain(attempt + 1, retries, timeoutMs, world, x);
    }
  }

  /** No proxy answers, and the server makes this of every request that reaches it. */
  ghost predicate Serves(world: nat -> Exchange, s: Served) {
    forall i: nat :: world(i).served == s && !world(i).fate.ProxyAnswers?
  }

  /** The honest handlers are exactly the ones for which at-most-once can be relied on: with a retry allowed and a
      request that gets to the handler, it runs at most once in every world if and only if it keeps off the up-front
      codes. */
  lemma AtMostOnceIffHonest(f: Facts, retries: nat, timeoutMs: int)
    requires retries >= 1 && Serve(f).handlerRan
    ensures (forall world: nat -> Exchange :: Serves(world, Serve(f)) ==> RunsOnce(retries, timeoutMs, world))
      <==> Honest(f)
  {
    HonestyIsExact(f);
    if Honest(f) {
      forall world: nat -> Exchange | Serves(world, Serve(f)) ensures RunsOnce(retries, timeoutMs, world) {
        AtMostOnce(0, retries, timeoutMs, world);
      }
    } else {
      HandlerRunsOnlyAfterEveryCheck(f);
      var x := Exchange(true, false, false, false, Delivered(true), Serve(f), 0.0);
      var world: nat -> Exchange := _ => x;
      DishonestHandlerRunsAgain(0, retries, timeoutMs, world, x);
      assert Serves(world, Serve(f)) && !RunsOnce(retries, timeoutMs, world);
    }
  }

  ghost predicate RunsOnce(retries: nat, timeoutMs: int, world: nat -> Exchange) {
    Talk(false, 0, retries, timeoutMs, world).runs <= 1
  }
}
