/** What a provider's keys (`packages/server/src/actor-token.ts`) are answered with, told from the fetches so far. */
module KeySourceHistory {
  import opened Wrappers
  import opened KeySources

  predicate Good(f: Fetch) { f.ended.Some? && f.fetched.Some? }

  predicate Bad(f: Fetch) { f.ended.Some? && f.fetched.None? }

  /** The last fetch that brought keys. */
  function LastGood(log: seq<Fetch>): Option<Fetch> {
    if log == [] then None
    else if Good(log[|log| - 1]) then Some(log[|log| - 1])
    else LastGood(log[..|log| - 1])
  }

  /** The source holds the keys of that fetch and when it ended. */
  ghost predicate HoldsLastGood(r: Run) {
    match LastGood(r.log)
    case None => r.source.fetchedAt == 0
    case Some(f) => Good(f) && r.source.fetchedAt == f.ended.value > 0 && r.source.keys == f.fetched.value
  }

  lemma LastGoodOf(log: seq<Fetch>, f: Fetch)
    ensures LastGood(log + [f]) == if Good(f) then Some(f) else LastGood(log)
  {
    assert (log + [f])[..|log|] == log;
  }

  lemma AskHolds(r: Run, cacheMs: int, e: Event)
    requires HoldsLastGood(r) && e.Asks?
    ensures HoldsLastGood(Step(r, cacheMs, e))
  {
    LastGoodOf(r.log, Fetch(e.at, None, None));
  }

  lemma EndHolds(r: Run, cacheMs: int, e: Event)
    requires HoldsLastGood(r) && e.Ends? && Flying(r) && e.at > 0
    ensures HoldsLastGood(Step(r, cacheMs, e))
  {
    var n := |r.log| - 1;
    var f := Fetch(r.log[n].start, Some(e.at), e.fetched);
    LastGoodOf(r.log[..n], f);
    assert r.log[n := f] == r.log[..n] + [f];
  }

  lemma StepHolds(r: Run, cacheMs: int, e: Event, now: int)
    requires now > 0 && HoldsLastGood(r) && now <= e.at
    ensures HoldsLastGood(Step(r, cacheMs, e))
  {
    match e
    case Asks(_, _, _) => AskHolds(r, cacheMs, e);
    case Ends(_, _) => if Flying(r) { EndHolds(r, cacheMs, e); }
    case Settles(_) =>
  }

  lemma {:induction false} AfterHolds(r: Run, cacheMs: int, events: seq<Event>, now: int) returns (later: int)
    requires RunOk(r, now) && HoldsLastGood(r) && Timely(events, now) && cacheMs >= MIN_REFRESH_INTERVAL_MS
    ensures RunOk(After(r, cacheMs, events), later) && HoldsLastGood(After(r, cacheMs, events))
    decreases |events|
  {
    if events == [] {
      later := now;
    } else {
      StepOk(r, cacheMs, events[0], now);
      StepHolds(r, cacheMs, events[0], now);
      later := AfterHolds(Step(r, cacheMs, events[0]), cacheMs, events[1..], events[0].at);
    }
  }

  /** The keys of the last good fetch are as young as `ms`. */
  predicate Younger(good: Option<Fetch>, now: int, ms: int)
    requires good.Some? ==> good.value.ended.Some?
  {
    good.Some? && now - good.value.ended.value < ms
  }

  lemma {:induction false} LastGoodIsGood(log: seq<Fetch>)
    ensures LastGood(log).Some? ==> Good(LastGood(log).value) && LastGood(log).value in log
    decreases |log|
  {
    if log != [] && !Good(log[|log| - 1]) { LastGoodIsGood(log[..|log| - 1]); }
  }

  /** In every reachable state: keys within the cache time answer when they have a candidate, or when the last fetch
      started less than 30 seconds ago; otherwise a pending fetch is joined, a fetch that failed less than 5 seconds ago
      is not repeated and keys of the last hour are used if there are any, and in every other case one is fetched. */
  lemma AnswersExact(cacheMs: int, events: seq<Event>, from: int, a: Algorithm, kid: Option<string>, now: int)
    requires from > 0 && Timely(events, from) && cacheMs >= MIN_REFRESH_INTERVAL_MS
    ensures var r := After(START, cacheMs, events);
      var answer := CandidatesAnswer(r.source, cacheMs, a, kid, now);
      var n, good := |r.log|, LastGood(r.log);
      && (good.Some? ==> Good(good.value) && n > 0)
      && var found := if good.Some? then Select(good.value.fetched.value, a, kid) else [];
         var answered := Younger(good, now, cacheMs) && (found != [] || now - r.log[n - 1].start < 30000);
         var failing := n > 0 && Bad(r.log[n - 1]) && now - r.log[n - 1].ended.value < 5000;
         var stale := Younger(good, now, 3600000);
         && (answer.Fetches? <==> !answered && !r.source.inflight && !failing)
         && (answer.Joins? <==> !answered && r.source.inflight)
         && (answer.Unavailable? <==> !answered && !r.source.inflight && failing && !stale)
         && (answer.Keys? <==> answered || (!r.source.inflight && failing && stale))
         && (answer.Keys? ==> answer.keys == found)
  {
    var later := AfterHolds(START, cacheMs, events, from);
    LastGoodIsGood(After(START, cacheMs, events).log);
  }

  /** A fetch is pending from its start until its promise settles, which is after its end. */
  lemma PendingFetch(cacheMs: int, events: seq<Event>, from: int)
    requires from > 0 && Timely(events, from) && cacheMs >= MIN_REFRESH_INTERVAL_MS
    ensures var r := After(START, cacheMs, events);
      Flying(r) ==> r.source.inflight
  {
    var later := AfterHolds(START, cacheMs, events, from);
  }
}
