/** How a call of the client ends (`packages/client/src/client.ts`): which exchanges make it ask again, told by what was
    answered, and that the first other one decides. */
module ClientRetryEnds {
  import opened Arithmetic
  import opened Wrappers
  import opened Pipeline
  import opened ClientRetry

  /** No answer reached the client. */
  predicate NoAnswer(x: Exchange) { x.fate.NeverArrives? || x.fate.ReplyLost? }

  /** The status and the code a problem is read with: an answer that is no JSON has no code of its own. */
  predicate ReadAs(x: Exchange, status: int, code: Code, retryAfter: Option<int>) {
    match x.fate
    case Delivered(parses) =>
      x.served.answer.Problem? && status == x.served.answer.status && retryAfter == x.served.answer.retryAfter
      && code == if parses then x.served.answer.code else UnexpectedResponse
    case ProxyAnswers(_, s, c, r) => s == status && c == code && r == retryAfter
    case _ => false
  }

  /** The seconds a problem asks to wait, in milliseconds and at most thirty seconds. */
  function AskedMs(retryAfter: Option<int>): Option<int> {
    if retryAfter.Some? && retryAfter.value > 0 then Some(MinInt(retryAfter.value * 1000, 30000)) else None
  }

  /** A problem that may pass: refused before the handler, or, for a call that may be repeated, a gateway or a server
      that is not there. Read-only mode does not pass, and no call waits longer than its own time limit. */
  predicate Transient(repeatable: bool, timeoutMs: int, status: int, code: Code, retryAfter: Option<int>) {
    && code != ReadOnly
    && (code in {RateLimited, Overloaded, Unavailable} || (repeatable && status in {502, 503, 504}))
    && (AskedMs(retryAfter).Some? ==> AskedMs(retryAfter).value <= timeoutMs)
  }

  /** The call asks again after this exchange, if nobody aborts it meanwhile. */
  ghost predicate AsksAgain(repeatable: bool, retries: nat, timeoutMs: int, attempt: nat, x: Exchange) {
    && attempt < retries && x.credential && !x.abortedBefore
    && ((NoAnswer(x) && repeatable && !x.abortedDuring)
        || exists status, code, retryAfter ::
          ReadAs(x, status, code, retryAfter) && Transient(repeatable, timeoutMs, status, code, retryAfter))
  }

  lemma Reading(x: Exchange) returns (status: int, code: Code, retryAfter: Option<int>)
    requires !NoAnswer(x) && !(x.fate.Delivered? && x.served.answer.Success?)
    ensures ReadAs(x, status, code, retryAfter) && Seen(x) == Some(Problem(status, code, retryAfter))
    ensures forall s, c, r :: ReadAs(x, s, c, r) ==> s == status && c == code && r == retryAfter
  {
    var p := Seen(x).value;
    status, code, retryAfter := p.status, p.code, p.retryAfter;
  }

  /** One turn goes on exactly then, and with the pause the answer asks for. */
  lemma TurnExact(repeatable: bool, retries: nat, timeoutMs: int, attempt: nat, x: Exchange)
    ensures Turn(repeatable, attempt, retries, timeoutMs, x).Again?
      <==> AsksAgain(repeatable, retries, timeoutMs, attempt, x)
    ensures forall status, code, retryAfter ::
      ReadAs(x, status, code, retryAfter) && AsksAgain(repeatable, retries, timeoutMs, attempt, x) ==>
        Turn(repeatable, attempt, retries, timeoutMs, x) == Again(AskedMs(retryAfter))
  {
    if !NoAnswer(x) && !(x.fate.Delivered? && x.served.answer.Success?) {
      var status, code, retryAfter := Reading(x);
    }
  }

  /** What the call comes to when it does not ask again. */
  ghost predicate EndsAs(repeatable: bool, retries: nat, timeoutMs: int, attempt: nat, x: Exchange, outcome: Outcome) {
    if !x.credential then outcome == CredentialError
    else if x.abortedBefore then outcome == Aborted
    else if AsksAgain(repeatable, retries, timeoutMs, attempt, x) then outcome == Aborted
    else if NoAnswer(x) then outcome == if x.abortedDuring then Aborted else ConnectionError
    else if x.fate.Delivered? && x.served.answer.Success? then
      var status := x.served.answer.status;
      outcome == if x.fate.parses || status == 204 then Result(status) else InvalidResponse
    else exists status, code, retryAfter :: ReadAs(x, status, code, retryAfter) && outcome == ApiError(status, code)
  }

  ghost predicate GoesOn(repeatable: bool, retries: nat, timeoutMs: int, attempt: nat, x: Exchange) {
    AsksAgain(repeatable, retries, timeoutMs, attempt, x) && !x.abortedInWait
  }

  lemma TurnEnds(repeatable: bool, retries: nat, timeoutMs: int, attempt: nat, world: nat -> Exchange)
    requires !GoesOn(repeatable, retries, timeoutMs, attempt, world(attempt))
    ensures var t := Talk(repeatable, attempt, retries, timeoutMs, world);
      t.attempts == 1 && EndsAs(repeatable, retries, timeoutMs, attempt, world(attempt), t.outcome)
  {
    var x := world(attempt);
    TurnExact(repeatable, retries, timeoutMs, attempt, x);
    if !NoAnswer(x) && !(x.fate.Delivered? && x.served.answer.Success?) {
      var status, code, retryAfter := Reading(x);
    }
  }

  /** The whole loop: it ends with the first exchange that does not go on, and as that one says. */
  lemma {:induction false} FirstOtherDecides(repeatable: bool, retries: nat, timeoutMs: int, attempt: nat, n: nat,
                                             world: nat -> Exchange)
    requires attempt <= n && !GoesOn(repeatable, retries, timeoutMs, n, world(n))
    requires forall i: nat :: attempt <= i < n ==> GoesOn(repeatable, retries, timeoutMs, i, world(i))
    ensures var t := Talk(repeatable, attempt, retries, timeoutMs, world);
      t.attempts == n - attempt + 1 && EndsAs(repeatable, retries, timeoutMs, n, world(n), t.outcome)
    decreases n - attempt
  {
    if attempt == n {
      TurnEnds(repeatable, retries, timeoutMs, n, world);
    } else {
      TurnExact(repeatable, retries, timeoutMs, attempt, world(attempt));
      FirstOtherDecides(repeatable, retries, timeoutMs, attempt + 1, n, world);
    }
  }

  /** So a call that may be repeated gets over any failures that pass, as long as fewer than its retries are used up: it
      returns what the first success says. */
  lemma OutlivesFailures(retries: nat, timeoutMs: int, n: nat, world: nat -> Exchange, status: int)
    requires n <= retries && forall i: nat :: i < n ==> GoesOn(true, retries, timeoutMs, i, world(i))
    requires var x := world(n);
      x.credential && !x.abortedBefore && x.fate == Delivered(true) && x.served.answer == Success(status)
    ensures var t := Talk(true, 0, retries, timeoutMs, world);
      t.outcome == Result(status) && t.attempts == n + 1
  {
    FirstOtherDecides(true, retries, timeoutMs, 0, n, world);
  }
}
