/** The pipeline of `packages/server/src/server.ts` told as a list: which requests get to a handler, and what each check
    answers when it is the first to fail. */
module PipelineChecks {
  import opened Wrappers
  import opened Pipeline

  /** Who the call speaks for is settled: nobody, somebody whose one token is proven, or, where asserting is allowed,
      somebody named in the headers. */
  predicate ActorSettled(r: Route, a: ActorFacts) {
    && (r.platform ==> a.platformConfigured && a.tokens == 1 && a.platformProvider)
    && (!r.delegated ==> a.subjects == 0 && a.providers == 0)
    && (a.tokens >= 1 ==>
          && a.tokens == 1 && a.subjects == 0 && a.providers == 0
          && (r.delegated || r.actorToken || r.platform)
          && a.verifierConfigured && a.verification.Proven?
          && (r.delegated ==> a.scopeVerified || a.scopeAssert))
    && (a.tokens == 0 && r.delegated ==> a.scopeAssert && !a.requireVerified && a.headersNameSomeone)
  }

  /** What the request sent is something the route takes, and acceptable. */
  predicate InputAcceptable(r: Route, i: InputFacts) {
    && (i.idempotencyKey.Some? ==> i.idempotencyKey.value && r.takesIdempotencyKey)
    && (i.ifMatch.Some? ==> i.ifMatch.value && r.takesIfMatch)
    && i.paramsDecode && (if r.takesBody then i.bodyRefusal == None else !i.sentBody)
    && !i.issues && i.refined && i.organizationAllowed
  }

  predicate Passes(f: Facts) {
    && f.targetAccepted && f.probe == None && f.underV1 && !f.tooManyInFlight && !f.plainHttpRefused
    && f.blockedFor <= 0 && f.who == Client && f.rateRefusal == None && f.slotFree && f.matching == Matched
    && f.route.scopeGranted
    && (f.route.write ==> !f.readOnly)
    && (f.route.everyOrganization ==> f.clientHasEveryOrganization)
    && ActorSettled(f.route, f.actor)
    && InputAcceptable(f.route, f.input)
  }

  /** A handler runs exactly for the requests that pass, and its result is what they are answered with. */
  lemma HandlerRunsIff(f: Facts)
    ensures Serve(f).handlerRan <==> Passes(f)
    ensures Passes(f) ==>
      match f.handler
      case Returned(status, fits) =>
        Serve(f).answer == if fits then Success(status) else Problem(500, InternalError, None)
      case Threw(status, code) => Serve(f).answer == Problem(status, code, None)
      case MissedDeadline => Serve(f).answer == Problem(503, Timeout, None)
  {
    ActorSettledIff(f.route, f.actor);
    InputAcceptableIff(f.route, f.input);
  }

  lemma ActorSettledIff(r: Route, a: ActorFacts)
    ensures ActorRefusal(r, a).None? <==> ActorSettled(r, a)
    ensures ActorRefusal(r, a).Some? ==> !ActorRefusal(r, a).value.handlerRan
  {
  }

  lemma InputAcceptableIff(r: Route, i: InputFacts)
    ensures InputRefusal(r, i).None? <==> InputAcceptable(r, i)
    ensures InputRefusal(r, i).Some? ==> !InputRefusal(r, i).value.handlerRan
  {
  }

  // ----- one check after another

  datatype Check = Check(passed: bool, answer: Answer)

  /** Before the route is known. */
  function EarlyChecks(f: Facts): seq<Check> {
    [ Check(f.targetAccepted, Problem(404, NotFound, None)),
      Check(f.probe != Some(true), Success(200)),
      Check(f.probe != Some(false), Problem(503, UnexpectedResponse, None)),
      Check(f.underV1, Problem(404, NotFound, None)),
      Check(!f.tooManyInFlight, Problem(503, Overloaded, Some(1))),
      Check(!f.plainHttpRefused, Problem(403, TlsRequired, None)),
      Check(f.blockedFor <= 0, Problem(429, RateLimited, Some(f.blockedFor))),
      Check(f.who != StorageFailed, Problem(503, Unavailable, Some(5))),
      Check(f.who != NoClient, Problem(401, Unauthenticated, None)),
      Check(f.rateRefusal == None, Problem(429, RateLimited, f.rateRefusal)),
      Check(f.slotFree, Problem(429, RateLimited, Some(1))),
      Check(f.matching != NoRoute, Problem(404, NotFound, None)),
      Check(f.matching != OtherMethods, Problem(405, MethodNotAllowed, None)),
      Check(f.route.scopeGranted, Problem(403, Forbidden, None)),
      Check(!(f.route.write && f.readOnly), Problem(503, ReadOnly, Some(30))),
      Check(f.route.everyOrganization ==> f.clientHasEveryOrganization, Problem(403, Forbidden, None)) ]
  }

  /** Of the end user: what the route and the headers say of each other. */
  function HeaderChecks(r: Route, a: ActorFacts): seq<Check> {
    [ Check(r.platform ==> a.platformConfigured, Problem(501, Domain("platform_not_configured"), None)),
      Check(!r.delegated ==> a.subjects == 0 && a.providers == 0, Problem(400, InvalidRequest, None)) ]
  }

  /** A token, when there is one. */
  function TokenChecks(r: Route, a: ActorFacts): seq<Check> {
    var token := a.tokens > 0;
    [ Check(token ==> r.delegated || r.actorToken || r.platform, Problem(400, InvalidRequest, None)),
      Check(token ==> a.tokens == 1 && a.subjects == 0 && a.providers == 0, Problem(400, InvalidRequest, None)),
      Check(token ==> a.verifierConfigured, Problem(501, Domain("actor_token_unsupported"), None)),
      Check(token && r.delegated ==> a.scopeVerified || a.scopeAssert, Problem(403, Forbidden, None)),
      Check(token ==> !a.verification.NotCheckable?, Problem(503, ActorTokenUnavailable, Some(5))),
      Check(token ==> !a.verification.Refuted?, Problem(401, ActorTokenInvalid, None)),
      Check(token && r.platform ==> a.platformProvider, Problem(403, Forbidden, None)) ]
  }

  /** Without a token, somebody named by the caller. */
  function AssertionChecks(r: Route, a: ActorFacts): seq<Check> {
    var token := a.tokens > 0;
    [ Check(r.platform ==> token, Problem(403, ActorTokenRequired, None)),
      Check(!token && r.delegated ==> !a.requireVerified, Problem(403, ActorTokenRequired, None)),
      Check(!token && r.delegated ==> a.scopeAssert, Problem(403, Forbidden, None)),
      Check(!token && r.delegated ==> a.headersNameSomeone, Problem(400, InvalidRequest, None)) ]
  }

  function InputChecks(r: Route, i: InputFacts): seq<Check> {
    [ Check(i.idempotencyKey != None ==> r.takesIdempotencyKey, Problem(400, InvalidRequest, None)),
      Check(i.ifMatch != None ==> r.takesIfMatch, Problem(400, InvalidRequest, None)),
      Check(i.idempotencyKey != Some(false) && i.ifMatch != Some(false), Problem(400, InvalidRequest, None)),
      Check(i.paramsDecode, Problem(400, InvalidRequest, None)),
      Check(r.takesBody ==> i.bodyRefusal == None, i.bodyRefusal.GetOr(Success(0))),
      Check(!r.takesBody ==> !i.sentBody, Problem(400, UnexpectedBody, None)),
      Check(!i.issues && i.refined, Problem(400, InvalidRequest, None)),
      Check(i.organizationAllowed, Problem(404, Domain("organization_not_found"), None)) ]
  }

  function Checks(f: Facts): seq<Check> {
    EarlyChecks(f)
    + HeaderChecks(f.route, f.actor) + TokenChecks(f.route, f.actor) + AssertionChecks(f.route, f.actor)
    + InputChecks(f.route, f.input)
  }

  ghost predicate PassedBelow(cs: seq<Check>, k: nat) {
    k <= |cs| && forall j :: 0 <= j < k ==> cs[j].passed
  }

  ghost predicate FirstFailure(cs: seq<Check>, k: nat) {
    k < |cs| && PassedBelow(cs, k) && !cs[k].passed
  }

  /** The checks before the `k`-th, written out. */
  lemma WrittenOut(cs: seq<Check>, k: nat)
    requires PassedBelow(cs, k) && |cs| <= 16
    ensures (k > 0 ==> cs[0].passed) && (k > 1 ==> cs[1].passed) && (k > 2 ==> cs[2].passed)
    ensures (k > 3 ==> cs[3].passed) && (k > 4 ==> cs[4].passed) && (k > 5 ==> cs[5].passed)
    ensures (k > 6 ==> cs[6].passed) && (k > 7 ==> cs[7].passed) && (k > 8 ==> cs[8].passed)
    ensures (k > 9 ==> cs[9].passed) && (k > 10 ==> cs[10].passed) && (k > 11 ==> cs[11].passed)
    ensures (k > 12 ==> cs[12].passed) && (k > 13 ==> cs[13].passed) && (k > 14 ==> cs[14].passed)
    ensures k > 15 ==> cs[15].passed
  {
  }

  lemma EarlyFailure(f: Facts, k: nat)
    requires FirstFailure(EarlyChecks(f), k)
    ensures Serve(f) == Served(EarlyChecks(f)[k].answer, false)
  {
    WrittenOut(EarlyChecks(f), k);
  }

  lemma EarlyPassed(f: Facts)
    requires PassedBelow(EarlyChecks(f), 16)
    ensures ActorRefusal(f.route, f.actor).Some? ==> Serve(f) == ActorRefusal(f.route, f.actor).value
    ensures ActorRefusal(f.route, f.actor).None? && InputRefusal(f.route, f.input).Some? ==>
      Serve(f) == InputRefusal(f.route, f.input).value
  {
    WrittenOut(EarlyChecks(f), 16);
  }

  lemma HeaderFailure(r: Route, a: ActorFacts, k: nat)
    requires FirstFailure(HeaderChecks(r, a), k)
    ensures ActorRefusal(r, a) == Some(Served(HeaderChecks(r, a)[k].answer, false))
  {
    WrittenOut(HeaderChecks(r, a), k);
  }

  lemma TokenFailure(r: Route, a: ActorFacts, k: nat)
    requires PassedBelow(HeaderChecks(r, a), 2) && FirstFailure(TokenChecks(r, a), k)
    ensures ActorRefusal(r, a) == Some(Served(TokenChecks(r, a)[k].answer, false))
  {
    WrittenOut(HeaderChecks(r, a), 2);
    WrittenOut(TokenChecks(r, a), k);
  }

  lemma AssertionFailure(r: Route, a: ActorFacts, k: nat)
    requires PassedBelow(HeaderChecks(r, a), 2) && PassedBelow(TokenChecks(r, a), 7)
    requires FirstFailure(AssertionChecks(r, a), k)
    ensures ActorRefusal(r, a) == Some(Served(AssertionChecks(r, a)[k].answer, false))
  {
    WrittenOut(HeaderChecks(r, a), 2);
    WrittenOut(TokenChecks(r, a), 7);
    WrittenOut(AssertionChecks(r, a), k);
  }

  lemma ActorPassed(r: Route, a: ActorFacts)
    requires PassedBelow(HeaderChecks(r, a), 2) && PassedBelow(TokenChecks(r, a), 7)
    requires PassedBelow(AssertionChecks(r, a), 4)
    ensures ActorRefusal(r, a).None?
  {
    WrittenOut(HeaderChecks(r, a), 2);
    WrittenOut(TokenChecks(r, a), 7);
    WrittenOut(AssertionChecks(r, a), 4);
  }

  lemma InputFailure(r: Route, i: InputFacts, k: nat)
    requires FirstFailure(InputChecks(r, i), k)
    ensures InputRefusal(r, i) == Some(Served(InputChecks(r, i)[k].answer, false))
  {
    WrittenOut(InputChecks(r, i), k);
  }

  /** The first check that fails decides the answer, and no handler runs. */
  lemma FirstFailureAnswers(f: Facts, k: nat)
    requires FirstFailure(Checks(f), k)
    ensures Serve(f) == Served(Checks(f)[k].answer, false)
  {
    BlocksPassed(f, k);
    BlockFails(f, k);
    if k < 16 {
      EarlyFailure(f, k);
    } else {
      EarlyPassed(f);
      ActorOrInputFailure(f, k);
    }
  }

  lemma ActorOrInputFailure(f: Facts, k: nat)
    requires 16 <= k < 37 && Located(f, k) && EarlierPassed(f, k)
    ensures k < 29 ==> ActorRefusal(f.route, f.actor) == Some(Served(Checks(f)[k].answer, false))
    ensures k >= 29 ==> ActorRefusal(f.route, f.actor).None?
    ensures k >= 29 ==> InputRefusal(f.route, f.input) == Some(Served(Checks(f)[k].answer, false))
  {
    if k < 18 {
      HeaderFailure(f.route, f.actor, k - 16);
    } else if k < 25 {
      TokenFailure(f.route, f.actor, k - 18);
    } else if k < 29 {
      AssertionFailure(f.route, f.actor, k - 25);
    } else {
      ActorPassed(f.route, f.actor);
      InputFailure(f.route, f.input, k - 29);
    }
  }

  /** The check is the first to fail of its own block, with the same answer. */
  ghost predicate Located(f: Facts, k: nat)
    requires k < 37
  {
    var (block, j) :=
      if k < 16 then (EarlyChecks(f), k)
      else if k < 18 then (HeaderChecks(f.route, f.actor), k - 16)
      else if k < 25 then (TokenChecks(f.route, f.actor), k - 18)
      else if k < 29 then (AssertionChecks(f.route, f.actor), k - 25)
      else (InputChecks(f.route, f.input), k - 29);
    FirstFailure(block, j) && Checks(f)[k] == block[j]
  }

  ghost predicate EarlierPassed(f: Facts, k: nat) {
    && (k >= 16 ==> PassedBelow(EarlyChecks(f), 16))
    && (k >= 18 ==> PassedBelow(HeaderChecks(f.route, f.actor), 2))
    && (k >= 25 ==> PassedBelow(TokenChecks(f.route, f.actor), 7))
    && (k >= 29 ==> PassedBelow(AssertionChecks(f.route, f.actor), 4))
  }

  lemma BlocksPassed(f: Facts, k: nat)
    requires PassedBelow(Checks(f), k)
    ensures EarlierPassed(f, k)
  {
    EarlyBlock(f, k);
    HeaderBlock(f, k);
    TokenBlock(f, k);
    AssertionBlock(f, k);
  }

  lemma BlockFails(f: Facts, k: nat)
    requires FirstFailure(Checks(f), k)
    ensures k < 37 && Located(f, k)
  {
    if k < 16 { EarlyBlock(f, k); }
    else if k < 18 { HeaderBlock(f, k); }
    else if k < 25 { TokenBlock(f, k); }
    else if k < 29 { AssertionBlock(f, k); }
    else { InputBlock(f, k); }
  }

  /** A block of the list, `at` checks from its start. */
  ghost predicate Block(all: seq<Check>, block: seq<Check>, at: nat, k: nat) {
    && (k >= at + |block| ==> PassedBelow(block, |block|))
    && (at <= k < at + |block| && k < |all| ==> PassedBelow(block, k - at) && all[k] == block[k - at])
  }

  lemma EarlyBlock(f: Facts, k: nat)
    requires PassedBelow(Checks(f), k)
    ensures Block(Checks(f), EarlyChecks(f), 0, k)
  {
    var rest := HeaderChecks(f.route, f.actor) + TokenChecks(f.route, f.actor) + AssertionChecks(f.route, f.actor)
      + InputChecks(f.route, f.input);
    Within(Checks(f), [], EarlyChecks(f), rest, k);
  }

  lemma HeaderBlock(f: Facts, k: nat)
    requires PassedBelow(Checks(f), k)
    ensures Block(Checks(f), HeaderChecks(f.route, f.actor), 16, k)
  {
    var rest := TokenChecks(f.route, f.actor) + AssertionChecks(f.route, f.actor) + InputChecks(f.route, f.input);
    Within(Checks(f), EarlyChecks(f), HeaderChecks(f.route, f.actor), rest, k);
  }

  lemma TokenBlock(f: Facts, k: nat)
    requires PassedBelow(Checks(f), k)
    ensures Block(Checks(f), TokenChecks(f.route, f.actor), 18, k)
  {
    var before := EarlyChecks(f) + HeaderChecks(f.route, f.actor);
    var rest := AssertionChecks(f.route, f.actor) + InputChecks(f.route, f.input);
    Within(Checks(f), before, TokenChecks(f.route, f.actor), rest, k);
  }

  lemma AssertionBlock(f: Facts, k: nat)
    requires PassedBelow(Checks(f), k)
    ensures Block(Checks(f), AssertionChecks(f.route, f.actor), 25, k)
  {
    var before := EarlyChecks(f) + HeaderChecks(f.route, f.actor) + TokenChecks(f.route, f.actor);
    Within(Checks(f), before, AssertionChecks(f.route, f.actor), InputChecks(f.route, f.input), k);
  }

  lemma InputBlock(f: Facts, k: nat)
    requires PassedBelow(Checks(f), k)
    ensures Block(Checks(f), InputChecks(f.route, f.input), 29, k) && |Checks(f)| == 37
  {
    var before := EarlyChecks(f) + HeaderChecks(f.route, f.actor) + TokenChecks(f.route, f.actor)
      + AssertionChecks(f.route, f.actor);
    Within(Checks(f), before, InputChecks(f.route, f.input), [], k);
  }

  /** One list out of three that follow each other. */
  lemma Within(all: seq<Check>, a: seq<Check>, b: seq<Check>, c: seq<Check>, k: nat)
    requires all == a + b + c && PassedBelow(all, k)
    ensures Block(all, b, |a|, k)
  {
    forall j | 0 <= j < |b| && |a| + j < k ensures b[j].passed { assert all[|a| + j] == b[j]; }
  }
}
