/** The pipeline of `packages/server/src/server.ts` with the parts it calls put in place of its facts: the rate limiter
    over a run of requests, and the target check and the routes for a request the client printed. */
module ServerRuns {
  import opened JsMaps
  import opened Wrappers
  import opened RateLimiting
  import opened RateLimitingRuns
  import opened PercentEncoding
  import opened Routing
  import opened OperationTable
  import opened RoutingRoundTrip
  import opened Strings
  import P = Pipeline

  // ----- the limiter

  /** A request of an API key, dated by its take; the limiter's verdict among its facts is not used. */
  datatype Arrival = Arrival(key: Key, at: real, facts: P.Facts)

  /** The request gets as far as the limiter. */
  predicate AsksLimiter(f: P.Facts) {
    && f.targetAccepted && f.probe.None? && f.underV1 && !f.tooManyInFlight && !f.plainHttpRefused
    && f.blockedFor <= 0 && f.who.Client?
  }

  function AfterArrival(c: Config, m: JsMap<Bucket>, a: Arrival): JsMap<Bucket> {
    if AsksLimiter(a.facts) then TakeStep(c, m, a.key, a.at).0 else m
  }

  function Answered(c: Config, m: JsMap<Bucket>, a: Arrival): P.Served {
    var d := TakeStep(c, m, a.key, a.at).1;
    P.Serve(a.facts.(rateRefusal := if d.allowed then None else Some(d.retryAfterSeconds)))
  }

  /** Handlers the server starts for `key` over the arrivals. */
  function HandlersStarted(c: Config, m: JsMap<Bucket>, arrivals: seq<Arrival>, key: Key): nat
    decreases |arrivals|
  {
    if arrivals == [] then 0
    else
      var a := arrivals[0];
      (if a.key == key && Answered(c, m, a).handlerRan then 1 else 0)
      + HandlersStarted(c, AfterArrival(c, m, a), arrivals[1..], key)
  }

  function Takes(arrivals: seq<Arrival>): seq<Call>
    decreases |arrivals|
  {
    if arrivals == [] then []
    else (if AsksLimiter(arrivals[0].facts) then [Call(arrivals[0].key, arrivals[0].at)] else []) + Takes(arrivals[1..])
  }

  lemma HandlerWasAdmitted(c: Config, m: JsMap<Bucket>, a: Arrival)
    requires Answered(c, m, a).handlerRan
    ensures AsksLimiter(a.facts) && TakeStep(c, m, a.key, a.at).1.allowed
  {
  }

  /** Every handler that starts has an admitted take of its own. */
  lemma {:induction false} HandlersWereAdmitted(c: Config, m: JsMap<Bucket>, arrivals: seq<Arrival>, key: Key)
    ensures HandlersStarted(c, m, arrivals, key) <= |AdmittedTimes(c, m, Takes(arrivals), key)|
    decreases |arrivals|
  {
    if arrivals != [] {
      var a := arrivals[0];
      var rest := Takes(arrivals[1..]);
      HandlersWereAdmitted(c, AfterArrival(c, m, a), arrivals[1..], key);
      if Answered(c, m, a).handlerRan { HandlerWasAdmitted(c, m, a); }
      if AsksLimiter(a.facts) {
        assert Takes(arrivals)[1..] == rest;
      } else {
        assert [] + rest == rest;
      }
    }
  }

  /** Of the requests that take in a window in which fewer than `maxEntries` other keys do, at most a burst plus what
      the window earns get to a handler, whatever the requests, the credentials and the routes are. When their handlers
      start is another matter (`HandlerStarts`). */
  lemma HandlersOfTakesInWindow(c: Config, m: JsMap<Bucket>, arrivals: seq<Arrival>, key: Key, from: real, to: real)
    requires Sound(c, m, from) && Within(Takes(arrivals), from, to)
    requires |Others(Takes(arrivals), key)| < c.maxEntries
    ensures HandlersStarted(c, m, arrivals, key) as real <= c.burst as real + Earned(c, to - from)
  {
    HandlersWereAdmitted(c, m, arrivals, key);
    WindowBound(c, m, Takes(arrivals), key, from, to);
  }

  // ----- the routes

  ghost function MatchingOf(routes: seq<Route>, verb: Method, path: string): P.Matching {
    if exists r :: r in routes && r.verb == verb && Exec(r.segments, path).Some? then P.Matched
    else if exists r :: r in routes && Exec(r.segments, path).Some? then P.OtherMethods
    else P.NoRoute
  }

  lemma {:induction false} NobodyAllowed(routes: seq<Route>, n: nat, path: string)
    requires n <= |routes|
    ensures AllowedBy(routes, n, path) == [] <==> forall i :: 0 <= i < n ==> Exec(routes[i].segments, path).None?
  {
    if n > 0 { NobodyAllowed(routes, n - 1, path); }
  }

  /** The loop over the routes finds what the pipeline takes for a fact. */
  method FindMatching(routes: seq<Route>, verb: Method, path: string) returns (matching: P.Matching)
    ensures matching == MatchingOf(routes, verb, path)
  {
    var m := MatchRoute(routes, verb, path);
    NobodyAllowed(routes, |routes|, path);
    matching := if m.Match? then P.Matched else if m.OtherMethods? then P.OtherMethods else P.NoRoute;
    if m.Match? { assert routes[m.index] in routes; }
    if m.OtherMethods? {
      var i :| 0 <= i < |routes| && Exec(routes[i].segments, path).Some?;
      assert routes[i] in routes;
    }
  }

  /** The captures of the route that is found decode. */
  ghost predicate ParamsDecode(routes: seq<Route>, verb: Method, path: string) {
    forall i :: 0 <= i < |routes| && routes[i].verb == verb && NoneOf(routes, i, verb, path) ==>
      match Exec(routes[i].segments, path)
      case None => true
      case Some(caps) => forall j :: 0 <= j < |caps| ==> Decode(caps[j]).Some?
  }

  /** The facts that the target of the request decides. */
  ghost function Grounded(f: P.Facts, routes: seq<Route>, verb: Method, target: string): P.Facts {
    var path := Pathname(target);
    f.(targetAccepted := !TargetRefused(target),
       probe := if path == "/healthz" || path == "/readyz" then f.probe else None,
       underV1 := StartsWith(path, "/v1/"),
       matching := MatchingOf(routes, verb, path),
       input := f.input.(paramsDecode := ParamsDecode(routes, verb, path)))
  }

  /** Every way through a tree that starts with one word and ends on nothing there has that word and another segment. */
  lemma TwoSegments(t: Tree, word: string, below: Tree, verb: Method, segments: seq<Segment>)
    requires t == Node({}, [Edge(Literal(word), below)]) && below.verbs == {} && Lists(t, verb, segments)
    ensures |segments| >= 2 && segments[0] == Literal(word)
  {
    assert segments != [];
    assert Lists(below, verb, segments[1..]);
    assert segments[1..] != [];
  }

  lemma PathUnder(word: string, segments: seq<Segment>, caps: seq<string>)
    requires |segments| >= 2 && segments[0] == Literal(word) && |caps| == |Names(segments)|
    ensures StartsWith(Path(Filled(segments, caps)), "/" + word + "/")
  {
    var rest := Filled(segments[1..], caps);
    assert rest != [];
    PathCons(word, rest);
    PathStart(rest);
    assert Path(rest) == "/" + Path(rest)[1..];
    assert "/" + word + Path(rest) == "/" + word + "/" + Path(rest)[1..];
  }

  lemma TableUnderV1(verb: Method, segments: seq<Segment>)
    requires Lists(OPERATIONS, verb, segments)
    ensures |segments| >= 2 && segments[0] == Literal("v1")
  {
    TwoSegments(OPERATIONS, "v1", V1, verb, segments);
  }

  lemma PathUnderV1(segments: seq<Segment>, caps: seq<string>)
    requires |segments| >= 2 && segments[0] == Literal("v1") && |caps| == |Names(segments)|
    ensures StartsWith(Path(Filled(segments, caps)), "/v1/")
  {
    PathUnder("v1", segments, caps);
    assert "/" + "v1" + "/" == "/v1/";
  }

  /** What the rest of the pipeline makes of a request whose target and route are in order. */
  function Routed(f: P.Facts): P.Facts {
    f.(targetAccepted := true, probe := None, underV1 := true, matching := P.Matched,
       input := f.input.(paramsDecode := true))
  }

  /** A call the client prints is answered by its own route as if target and route were no question, or turned away with
      404 before anything else is looked at, exactly when a value has a backslash, the target is too long or its query
      has a fragment. */
  lemma PrintedCallIsServed(f: P.Facts, routes: seq<Route>, op: Route, values: seq<string>, search: string)
    requires op in routes
    requires forall r :: r in routes ==> Lists(OPERATIONS, r.verb, r.segments)
    requires |values| == |Names(op.segments)| && AllUsable(values) && (search == "" || search[0] == '?')
    ensures var target := Path(Filled(op.segments, EncodedAll(values))) + search;
      P.Serve(Grounded(f, routes, op.verb, target))
      == if SomeBackslash(values) || |target| > 2048 || '#' in search then P.Refuse(404, P.NotFound)
         else P.Serve(Routed(f))
  {
    RefusedIffBackslash(op.verb, op.segments, values, search);
    PrintedIsUnderV1(op, values);
    PrintedIsRouted(routes, op, values);
  }

  lemma PrintedIsUnderV1(op: Route, values: seq<string>)
    requires Lists(OPERATIONS, op.verb, op.segments) && |values| == |Names(op.segments)| && AllUsable(values)
    ensures var path := Path(Filled(op.segments, EncodedAll(values)));
      StartsWith(path, "/v1/") && path != "/healthz" && path != "/readyz"
  {
    var path := Path(Filled(op.segments, EncodedAll(values)));
    TableUnderV1(op.verb, op.segments);
    PathUnderV1(op.segments, EncodedAll(values));
    NotAProbe(path);
  }

  lemma NotAProbe(path: string)
    requires StartsWith(path, "/v1/")
    ensures path != "/healthz" && path != "/readyz"
  {
    assert path[1] == 'v';
  }

  /** The loop over the routes finds the operation of a printed path, and its captures decode. */
  lemma PrintedIsRouted(routes: seq<Route>, op: Route, values: seq<string>)
    requires op in routes
    requires forall r :: r in routes ==> Lists(OPERATIONS, r.verb, r.segments)
    requires |values| == |Names(op.segments)| && AllUsable(values)
    ensures var path := Path(Filled(op.segments, EncodedAll(values)));
      MatchingOf(routes, op.verb, path).Matched? && ParamsDecode(routes, op.verb, path)
  {
    var path := Path(Filled(op.segments, EncodedAll(values)));
    PrintedPathReachesItsOperation(routes, op, values);
    OwnRouteDecodes(routes, op, values, path);
  }

  /** Where every route that matches is the operation's own, its values are what the captures decode to. */
  lemma OwnRouteDecodes(routes: seq<Route>, op: Route, values: seq<string>, path: string)
    requires Exec(op.segments, path) == Some(EncodedAll(values)) && DecodesTo(EncodedAll(values), values)
    requires forall r :: r in routes && Exec(r.segments, path).Some? ==> r.segments == op.segments
    ensures ParamsDecode(routes, op.verb, path)
  {
    forall i | 0 <= i < |routes| && Exec(routes[i].segments, path).Some?
      ensures Exec(routes[i].segments, path) == Some(EncodedAll(values))
    {
      assert routes[i] in routes;
    }
  }
}
