/** The checks a request passes before its handler runs, in the order of `handle` (`packages/server/src/server.ts`),
    and what is answered (`packages/server/src/errors.ts`). What each check finds is a fact about the request. */
module Pipeline {
  import opened Wrappers

  /** Any other code of an error; the ones that matter to the client have constructors of their own. */
  type DomainCode = text: string | text !in {"rate_limited", "overloaded", "unavailable", "read_only"} witness ""

  datatype Code =
    | RateLimited | Overloaded | Unavailable | ReadOnly | Timeout
    | NotFound | MethodNotAllowed | TlsRequired | Unauthenticated | Forbidden | InvalidRequest | UnexpectedBody
    | ActorTokenInvalid | ActorTokenUnavailable | ActorTokenRequired | InternalError
    | UnexpectedResponse
    | Domain(text: DomainCode)

  datatype Answer =
    | Success(status: int)
    | Problem(status: int, code: Code, retryAfter: Option<int>)

  datatype Identification = Client | NoClient | StorageFailed

  datatype Matching = NoRoute | OtherMethods | Matched

  datatype Route = Route(scopeGranted: bool, write: bool, everyOrganization: bool, delegated: bool, actorToken: bool,
                         platform: bool, takesIdempotencyKey: bool, takesIfMatch: bool, takesBody: bool)

  datatype Verification = Proven | Refuted | NotCheckable

  /** What the request says about the end user, and what the server makes of it. */
  datatype ActorFacts = ActorFacts(
    platformConfigured: bool, subjects: nat, providers: nat, tokens: nat, verifierConfigured: bool,
    scopeVerified: bool, scopeAssert: bool, verification: Verification, platformProvider: bool,
    requireVerified: bool, headersNameSomeone: bool)

  datatype InputFacts = InputFacts(
    idempotencyKey: Option<bool>, ifMatch: Option<bool>,  // present, and well-formed
    paramsDecode: bool, bodyRefusal: Option<Answer>, sentBody: bool, issues: bool, refined: bool,
    organizationAllowed: bool)

  datatype HandlerResult =
    | Returned(status: int, fitsSchema: bool)
    | Threw(status: int, code: Code)
    | MissedDeadline

  datatype Facts = Facts(
    targetAccepted: bool, probe: Option<bool>, underV1: bool, tooManyInFlight: bool, plainHttpRefused: bool,
    blockedFor: int, who: Identification, rateRefusal: Option<int>, slotFree: bool, matching: Matching, route: Route,
    readOnly: bool, clientHasEveryOrganization: bool, actor: ActorFacts, input: InputFacts, handler: HandlerResult)

  /** The answer, and whether the handler was started on the way to it. */
  datatype Served = Served(answer: Answer, handlerRan: bool)

  function Refuse(status: int, code: Code): Served { Served(Problem(status, code, None), false) }

  function RefuseFor(status: int, code: Code, seconds: int): Served {
    Served(Problem(status, code, Some(seconds)), false)
  }

  /** `project` may find that the result does not fit the schema; a handler past its deadline goes on working. */
  function AfterHandler(h: HandlerResult): Answer {
    match h
    case Returned(status, fits) => if fits then Success(status) else Problem(500, InternalError, None)
    case Threw(status, code) => Problem(status, code, None)
    case MissedDeadline => Problem(503, Timeout, None)
  }

  /** Who the call speaks for: a refusal, or nothing to object to. */
  function ActorRefusal(r: Route, a: ActorFacts): Option<Served> {
    if r.platform && !a.platformConfigured then Some(Refuse(501, Domain("platform_not_configured")))
    else if !r.delegated && (a.subjects > 0 || a.providers > 0) then Some(Refuse(400, InvalidRequest))
    else if a.tokens > 0 then
      if !(r.delegated || r.actorToken || r.platform) then Some(Refuse(400, InvalidRequest))
      else if a.tokens > 1 || a.subjects > 0 || a.providers > 0 then Some(Refuse(400, InvalidRequest))
      else if !a.verifierConfigured then Some(Refuse(501, Domain("actor_token_unsupported")))
      else if r.delegated && !a.scopeVerified && !a.scopeAssert then Some(Refuse(403, Forbidden))
      else if a.verification.NotCheckable? then Some(RefuseFor(503, ActorTokenUnavailable, 5))
      else if a.verification.Refuted? then Some(Refuse(401, ActorTokenInvalid))
      else if r.platform && !a.platformProvider then Some(Refuse(403, Forbidden))
      else None
    else if r.platform then Some(Refuse(403, ActorTokenRequired))
    else if r.delegated then
      if a.requireVerified then Some(Refuse(403, ActorTokenRequired))
      else if !a.scopeAssert then Some(Refuse(403, Forbidden))
      else if !a.headersNameSomeone then Some(Refuse(400, InvalidRequest))
      else None
    else None
  }

  /** Whether what the request sent is acceptable. */
  function InputRefusal(r: Route, i: InputFacts): Option<Served> {
    if i.idempotencyKey.Some? && !r.takesIdempotencyKey then Some(Refuse(400, InvalidRequest))
    else if i.ifMatch.Some? && !r.takesIfMatch then Some(Refuse(400, InvalidRequest))
    else if i.idempotencyKey == Some(false) || i.ifMatch == Some(false) then Some(Refuse(400, InvalidRequest))
    else if !i.paramsDecode then Some(Refuse(400, InvalidRequest))
    else if r.takesBody && i.bodyRefusal.Some? then Some(Served(i.bodyRefusal.value, false))
    else if !r.takesBody && i.sentBody then Some(Refuse(400, UnexpectedBody))
    else if i.issues || !i.refined then Some(Refuse(400, InvalidRequest))
    else if !i.organizationAllowed then Some(Refuse(404, Domain("organization_not_found")))
    else None
  }

  function ServeRoute(f: Facts): Served {
    if !f.route.scopeGranted then Refuse(403, Forbidden)
    else if f.route.write && f.readOnly then RefuseFor(503, ReadOnly, 30)
    else if f.route.everyOrganization && !f.clientHasEveryOrganization then Refuse(403, Forbidden)
    else match ActorRefusal(f.route, f.actor)
      case Some(s) => s
      case None =>
        match InputRefusal(f.route, f.input)
        case Some(s) => s
        case None => Served(AfterHandler(f.handler), true)
  }

  function Serve(f: Facts): Served {
    if !f.targetAccepted then Refuse(404, NotFound)
    else if f.probe.Some? then
      if f.probe.value then Served(Success(200), false) else Served(Problem(503, UnexpectedResponse, None), false)
    else if !f.underV1 then Refuse(404, NotFound)
    else if f.tooManyInFlight then RefuseFor(503, Overloaded, 1)
    else if f.plainHttpRefused then Refuse(403, TlsRequired)
    else if f.blockedFor > 0 then RefuseFor(429, RateLimited, f.blockedFor)
    else if f.who.StorageFailed? then RefuseFor(503, Unavailable, 5)
    else if f.who.NoClient? then Refuse(401, Unauthenticated)
    else if f.rateRefusal.Some? then RefuseFor(429, RateLimited, f.rateRefusal.value)
    else if !f.slotFree then RefuseFor(429, RateLimited, 1)
    else match f.matching
      case NoRoute => Refuse(404, NotFound)
      case OtherMethods => Refuse(405, MethodNotAllowed)
      case Matched => ServeRoute(f)
  }

  /** The codes a client takes for a refusal before the handler. */
  predicate UpFront(code: Code) { code.RateLimited? || code.Overloaded? || code.Unavailable? }

  /** The handler does not answer with one of the three codes the pipeline keeps for itself. */
  predicate Honest(f: Facts) { f.handler.Threw? ==> !UpFront(f.handler.code) }

  /** An answer with an up-front code comes from a server that did not start the handler. */
  predicate TellsTheTruth(s: Served) {
    s.answer.Problem? && UpFront(s.answer.code) ==> !s.handlerRan
  }

  /** An up-front code means the handler never started. */
  lemma UpFrontMeansNotRun(f: Facts)
    requires Honest(f)
    requires Serve(f).answer.Problem? && UpFront(Serve(f).answer.code)
    ensures !Serve(f).handlerRan
  {
  }

  /** A handler runs only for a known client, within its limits, on a route it may use, for an end user it may speak for
      and with input that is acceptable. */
  lemma HandlerRunsOnlyAfterEveryCheck(f: Facts)
    requires Serve(f).handlerRan
    ensures f.targetAccepted && f.underV1 && !f.tooManyInFlight && !f.plainHttpRefused && f.blockedFor <= 0
    ensures f.who.Client? && f.rateRefusal.None? && f.slotFree && f.matching.Matched? && f.route.scopeGranted
    ensures !(f.route.write && f.readOnly)
    ensures f.route.everyOrganization ==> f.clientHasEveryOrganization
    ensures f.route.platform ==> f.actor.tokens == 1 && f.actor.verification.Proven? && f.actor.platformProvider
    ensures f.route.delegated ==>
      (f.actor.tokens == 1 && f.actor.verification.Proven?)
      || (f.actor.tokens == 0 && f.actor.scopeAssert && !f.actor.requireVerified && f.actor.headersNameSomeone)
    ensures f.route.delegated && f.actor.tokens > 0 ==> f.actor.scopeVerified || f.actor.scopeAssert
    ensures f.actor.tokens > 0 ==>
      (f.route.delegated || f.route.actorToken || f.route.platform)
      && f.actor.tokens == 1 && f.actor.verification.Proven?
    ensures !f.route.delegated ==> f.actor.subjects == 0 && f.actor.providers == 0
    ensures f.input.idempotencyKey != Some(false) && (f.input.idempotencyKey.Some? ==> f.route.takesIdempotencyKey)
    ensures f.input.ifMatch != Some(false) && (f.input.ifMatch.Some? ==> f.route.takesIfMatch)
    ensures f.input.paramsDecode && !f.input.issues && f.input.refined && f.input.organizationAllowed
    ensures if f.route.takesBody then f.input.bodyRefusal.None? else !f.input.sentBody
    ensures Serve(f).answer == AfterHandler(f.handler)
  {
  }

  /** Without a valid credential nothing about the routes, the input or the handler shows in the answer. */
  lemma StrangersLearnNothing(f: Facts, g: Facts)
    requires f.targetAccepted == g.targetAccepted && f.probe == g.probe && f.underV1 == g.underV1
    requires f.tooManyInFlight == g.tooManyInFlight && f.plainHttpRefused == g.plainHttpRefused
    requires f.blockedFor == g.blockedFor && f.who == g.who && !f.who.Client?
    ensures Serve(f) == Serve(g)
  {
  }

  /** A throttled source gets the same answer whatever credential it sends. */
  lemma ThrottledSourceLearnsNothing(f: Facts, g: Facts)
    requires f.targetAccepted == g.targetAccepted && f.probe == g.probe && f.underV1 == g.underV1
    requires f.tooManyInFlight == g.tooManyInFlight && f.plainHttpRefused == g.plainHttpRefused
    requires f.blockedFor == g.blockedFor && f.blockedFor > 0
    ensures Serve(f) == Serve(g)
  {
  }

  /** Exactly the handlers that keep off the three codes let a caller trust them: any other handler, once it runs, gives
      an answer that looks like a refusal from before it ran. */
  lemma HonestyIsExact(f: Facts)
    requires Serve(f).handlerRan
    ensures Honest(f) <==> !(Serve(f).answer.Problem? && UpFront(Serve(f).answer.code))
  {
    HandlerRunsOnlyAfterEveryCheck(f);
  }
}
