/** The cached keys of an identity provider (`packages/server/src/actor-token.ts`): one fetch at a time, spaced out,
    with a back-off after failures and a limit on how old the keys in use may be. Times are milliseconds of a clock that
    is past 0. */
module KeySources {
  import opened Arithmetic
  import opened Wrappers

  const MIN_REFRESH_INTERVAL_MS: int := 30000
  const FAILURE_BACKOFF_MS: int := 5000
  const STALE_KEYS_MS: int := 3600000

  datatype Family = Rsa | Ec(curve: string) | Ed

  /** An algorithm with the kind of key it needs. */
  datatype Algorithm = Algorithm(name: string, family: Family)

  datatype ResolvedKey = ResolvedKey(family: Family, kid: Option<string>, use: Option<string>, ops: Option<seq<string>>,
                                      alg: Option<string>)

  /** A key that may verify a signature of this algorithm. */
  predicate Fits(k: ResolvedKey, a: Algorithm) {
    && k.family == a.family
    && (k.use.Some? ==> k.use.value == "sig")
    && (k.ops.Some? ==> "verify" in k.ops.value)
    && (k.alg.Some? ==> k.alg.value == a.name)
  }

  function Filter(keys: seq<ResolvedKey>, a: Algorithm, kid: Option<string>): seq<ResolvedKey> {
    if keys == [] then []
    else (if Fits(keys[0], a) && (kid.Some? ==> keys[0].kid == kid) then [keys[0]] else []) + Filter(keys[1..], a, kid)
  }

  /** Without a key id there must be exactly one key it can mean. */
  function Select(keys: seq<ResolvedKey>, a: Algorithm, kid: Option<string>): seq<ResolvedKey> {
    var matches := Filter(keys, a, kid);
    if kid.Some? || |matches| == 1 then matches else []
  }

  lemma {:induction false} FilterExact(keys: seq<ResolvedKey>, a: Algorithm, kid: Option<string>)
    ensures forall k :: k in Filter(keys, a, kid) <==> k in keys && Fits(k, a) && (kid.Some? ==> k.kid == kid)
  {
    if keys != [] {
      FilterExact(keys[1..], a, kid);
      assert keys == [keys[0]] + keys[1..];
    }
  }

  /** Entry `i` of the key set is the only one that may verify a signature of this algorithm. */
  ghost predicate OnlyFit(keys: seq<ResolvedKey>, a: Algorithm, i: int) {
    0 <= i < |keys| && Fits(keys[i], a) && forall j :: 0 <= j < |keys| && Fits(keys[j], a) ==> j == i
  }

  lemma {:induction false} FilterEmpty(keys: seq<ResolvedKey>, a: Algorithm)
    ensures Filter(keys, a, None) == [] <==> forall j :: 0 <= j < |keys| ==> !Fits(keys[j], a)
  {
    if keys != [] {
      FilterEmpty(keys[1..], a);
      assert forall j :: 0 <= j < |keys[1..]| ==> keys[1..][j] == keys[j + 1];
    }
  }

  lemma {:induction false} FilterOnly(keys: seq<ResolvedKey>, a: Algorithm)
    ensures |Filter(keys, a, None)| == 1 <==> exists i :: OnlyFit(keys, a, i)
    ensures forall i :: OnlyFit(keys, a, i) ==> Filter(keys, a, None) == [keys[i]]
  {
    if keys != [] {
      var rest := keys[1..];
      FilterOnly(rest, a);
      FilterEmpty(rest, a);
      assert forall j :: 0 <= j < |rest| ==> rest[j] == keys[j + 1];
      if Fits(keys[0], a) {
        assert OnlyFit(keys, a, 0) <==> Filter(rest, a, None) == [];
      } else {
        forall i | 0 <= i < |rest| ensures OnlyFit(rest, a, i) <==> OnlyFit(keys, a, i + 1) {
          if OnlyFit(rest, a, i) {
            assert forall j :: 0 < j < |keys| ==> keys[j] == rest[j - 1];
          }
        }
        forall i | OnlyFit(keys, a, i) ensures Filter(keys, a, None) == [keys[i]] {
          assert OnlyFit(rest, a, i - 1);
          assert [] + Filter(rest, a, None) == Filter(rest, a, None);
        }
      }
    }
  }

  /** With a key id every fitting key of that name is a candidate; without one, the only fitting key or none. */
  lemma SelectExact(keys: seq<ResolvedKey>, a: Algorithm, kid: Option<string>, k: ResolvedKey)
    ensures kid.Some? ==> (k in Select(keys, a, kid) <==> k in keys && Fits(k, a) && k.kid == kid)
    ensures kid.None? ==> |Select(keys, a, kid)| <= 1
    ensures kid.None? && k in Select(keys, a, kid) ==>
      k in keys && Fits(k, a) && forall other :: other in keys && Fits(other, a) ==> other == k
    ensures kid.None? ==> forall i :: OnlyFit(keys, a, i) ==> Select(keys, a, kid) == [keys[i]]
    ensures kid.None? && (forall i :: !OnlyFit(keys, a, i)) ==> Select(keys, a, kid) == []
  {
    FilterOnly(keys, a);
    FilterExact(keys, a, kid);
    if kid.None? && k in Select(keys, a, kid) {
      var m := Filter(keys, a, kid);
      assert m == [m[0]] && m[0] == k;
      assert forall other :: other in m ==> other == k;
    }
  }

  /** A candidate is meant for verifying, and with this algorithm, as far as it says anything of it; and of the keys
      with the name a token asks for none of those is left out. */
  lemma CandidatesMayVerify(keys: seq<ResolvedKey>, a: Algorithm, kid: Option<string>, k: ResolvedKey)
    requires k in keys && (kid.None? ==> k in Select(keys, a, kid)) && (kid.Some? ==> k.kid == kid)
    ensures k in Select(keys, a, kid) <==>
      && k.family == a.family && k.use.GetOr("sig") == "sig"
      && (k.ops.Some? ==> "verify" in k.ops.value) && k.alg.GetOr(a.name) == a.name
  {
    SelectExact(keys, a, kid, k);
  }

  // ----- the source

  datatype Source = Source(keys: seq<ResolvedKey>, fetchedAt: int, refreshedAt: int, failedAt: int, inflight: bool)

  /** What a call for candidates comes to before its first `await`. */
  datatype Answer =
    | Keys(keys: seq<ResolvedKey>)
    | Unavailable
    | Joins
    | Fetches

  predicate Fresh(s: Source, cacheMs: int, now: int) { s.fetchedAt > 0 && now - s.fetchedAt < cacheMs }

  /** Keys that are not fresh may still be used for an hour when they cannot be fetched again. */
  predicate Usable(s: Source, now: int) { s.fetchedAt > 0 && now - s.fetchedAt < STALE_KEYS_MS }

  predicate BackingOff(s: Source, now: int) { s.failedAt > 0 && now - s.failedAt < FAILURE_BACKOFF_MS }

  function RefreshAnswer(s: Source, a: Algorithm, kid: Option<string>, now: int): Answer {
    if s.inflight then Joins
    else if BackingOff(s, now) then (if Usable(s, now) then Keys(Select(s.keys, a, kid)) else Unavailable)
    else Fetches
  }

  function CandidatesAnswer(s: Source, cacheMs: int, a: Algorithm, kid: Option<string>, now: int): Answer {
    if Fresh(s, cacheMs, now) then
      var found := Select(s.keys, a, kid);
      if found != [] then Keys(found)
      else if now - s.refreshedAt < MIN_REFRESH_INTERVAL_MS then Keys([])
      else RefreshAnswer(s, a, kid, now)
    else RefreshAnswer(s, a, kid, now)
  }

  function AfterAsk(s: Source, answer: Answer, now: int): Source {
    if answer.Fetches? then s.(refreshedAt := now, inflight := true) else s
  }

  /** A fetch that brings usable keys replaces them; any other outcome is a failure. */
  function AfterFetch(s: Source, fetched: Option<seq<ResolvedKey>>, now: int): Source {
    match fetched
    case Some(keys) => s.(keys := keys, fetchedAt := now, failedAt := 0)
    case None => s.(failedAt := now)
  }

  class KeySource {
    var keys: seq<ResolvedKey>
    var fetchedAt: int
    var refreshedAt: int
    var failedAt: int
    var inflight: bool
    const cacheMs: int

    ghost function State(): Source
      reads this
    {
      Source(keys, fetchedAt, refreshedAt, failedAt, inflight)
    }

    constructor (cacheMs: int)
      ensures State() == Source([], 0, 0, 0, false) && this.cacheMs == cacheMs
    {
      this.cacheMs := cacheMs;
      keys, fetchedAt, refreshedAt, failedAt, inflight := [], 0, 0, 0, false;
    }

    method Candidates(a: Algorithm, kid: Option<string>, now: int) returns (answer: Answer)
      modifies this
      ensures answer == CandidatesAnswer(old(State()), cacheMs, a, kid, now)
      ensures State() == AfterAsk(old(State()), answer, now)
    {
      var age := now - fetchedAt;
      var recent := fetchedAt > 0 && age < cacheMs;
      if recent {
        var found := Select(keys, a, kid);
        if |found| > 0 {
          return Keys(found);
        }
        if now - refreshedAt < MIN_REFRESH_INTERVAL_MS {
          return Keys([]);
        }
      }
      answer := Refresh(a, kid, now);
    }

    method Refresh(a: Algorithm, kid: Option<string>, now: int) returns (answer: Answer)
      modifies this
      ensures answer == RefreshAnswer(old(State()), a, kid, now)
      ensures State() == AfterAsk(old(State()), answer, now)
    {
      if inflight {
        return Joins;
      }
      if failedAt > 0 && now - failedAt < FAILURE_BACKOFF_MS {
        if fetchedAt > 0 && now - fetchedAt < STALE_KEYS_MS {
          return Keys(Select(keys, a, kid));
        }
        return Unavailable;
      }
      inflight := true;
      refreshedAt := now;
      return Fetches;
    }

    /** The end of `load`: whether those who wait may use the keys held now. */
    method FetchEnds(fetched: Option<seq<ResolvedKey>>, now: int) returns (usable: bool)
      modifies this
      ensures State() == AfterFetch(old(State()), fetched, now)
      ensures usable <==> fetched.Some? || Usable(old(State()), now)
    {
      if fetched.Some? {
        keys, fetchedAt, failedAt := fetched.value, now, 0;
        return true;
      }
      failedAt := now;
      return fetchedAt > 0 && now - fetchedAt < STALE_KEYS_MS;
    }

    method PromiseSettles()
      modifies this
      ensures State() == old(State()).(inflight := false)
    {
      inflight := false;
    }
  }

  // ----- runs

  /** A fetch, with the keys it brought when it was a good one. */
  datatype Fetch = Fetch(start: int, ended: Option<int>, fetched: Option<seq<ResolvedKey>>)

  datatype Event =
    | Asks(a: Algorithm, kid: Option<string>, at: int)
    | Ends(fetched: Option<seq<ResolvedKey>>, at: int)
    | Settles(at: int)

  datatype Run = Run(source: Source, log: seq<Fetch>)

  function Flying(r: Run): bool { r.log != [] && r.log[|r.log| - 1].ended.None? }

  /** Events that cannot happen change nothing: a fetch ends once, its promise settles after that. */
  function Step(r: Run, cacheMs: int, e: Event): Run {
    match e
    case Asks(a, kid, at) =>
      var answer := CandidatesAnswer(r.source, cacheMs, a, kid, at);
      Run(AfterAsk(r.source, answer, at), if answer.Fetches? then r.log + [Fetch(at, None, None)] else r.log)
    case Ends(fetched, at) =>
      if !Flying(r) then r
      else Run(AfterFetch(r.source, fetched, at),
               r.log[|r.log| - 1 := Fetch(r.log[|r.log| - 1].start, Some(at), fetched)])
    case Settles(_) =>
      if r.source.inflight && !Flying(r) then r.(source := r.source.(inflight := false)) else r
  }

  function After(r: Run, cacheMs: int, events: seq<Event>): Run
    decreases |events|
  {
    if events == [] then r else After(Step(r, cacheMs, events[0]), cacheMs, events[1..])
  }

  ghost predicate Timely(events: seq<Event>, now: int)
    decreases |events|
  {
    events == [] || (now <= events[0].at && Timely(events[1..], events[0].at))
  }

  /** A fetch may start at `at` after this one: when it is over, 30 seconds after the start of a good one, 5 after the
      end of a bad one. */
  ghost predicate MayFollow(last: Fetch, at: int) {
    && last.ended.Some? && last.start <= last.ended.value <= at
    && at >= if last.fetched.Some? then last.start + MIN_REFRESH_INTERVAL_MS else last.ended.value + FAILURE_BACKOFF_MS
  }

  /** One fetch after another, never two at once. */
  ghost predicate Spaced(log: seq<Fetch>) {
    forall i :: 0 <= i < |log| - 1 ==> MayFollow(log[i], log[i + 1].start)
  }

  /** The fields of the source tell how its last fetch went. */
  ghost predicate Told(r: Run, now: int) {
    var s := r.source;
    && 0 <= s.fetchedAt <= now && s.failedAt <= now
    && (r.log == [] ==> s.fetchedAt == 0 && s.failedAt == 0 && !s.inflight)
    && (r.log != [] ==>
          var last := r.log[|r.log| - 1];
          && s.refreshedAt == last.start <= now && last.start > 0
          && (last.ended.None? ==> s.inflight)
          && (last.ended.Some? ==> last.start <= last.ended.value <= now)
          && (last.ended.Some? && last.fetched.Some? ==> s.fetchedAt == last.ended.value && s.failedAt == 0)
          && (last.ended.Some? && last.fetched.None? ==> s.failedAt == last.ended.value))
  }

  /** The keys held are those of a good fetch of the log, and `fetchedAt` is when it ended. */
  ghost predicate Traced(r: Run) {
    r.source.fetchedAt > 0 ==>
      exists i :: 0 <= i < |r.log| && r.log[i].ended == Some(r.source.fetchedAt) &&
        r.log[i].fetched == Some(r.source.keys)
  }

  ghost predicate RunOk(r: Run, now: int) {
    now > 0 && Spaced(r.log) && Told(r, now) && Traced(r)
  }

  lemma StaysTraced(r: Run, cacheMs: int, e: Event)
    requires Traced(r)
    ensures Traced(Step(r, cacheMs, e))
  {
    var r' := Step(r, cacheMs, e);
    if r.source.fetchedAt > 0 {
      var i :|
        0 <= i < |r.log| && r.log[i].ended == Some(r.source.fetchedAt) && r.log[i].fetched == Some(r.source.keys);
      assert r'.log[i] == r.log[i];
    }
    if e.Ends? && Flying(r) {
      assert r'.log[|r.log| - 1].ended == Some(e.at);
    }
  }

  lemma AppendSpaced(log: seq<Fetch>, at: int)
    requires Spaced(log) && (log != [] ==> MayFollow(log[|log| - 1], at))
    ensures Spaced(log + [Fetch(at, None, None)])
  {
    var more := log + [Fetch(at, None, None)];
    forall i | 0 <= i < |more| - 1 ensures MayFollow(more[i], more[i + 1].start) {
      assert more[i] == log[i];
      if i + 1 < |log| { assert more[i + 1] == log[i + 1]; }
    }
  }

  lemma AskOk(r: Run, cacheMs: int, a: Algorithm, kid: Option<string>, now: int, at: int)
    requires RunOk(r, now) && now <= at && cacheMs >= MIN_REFRESH_INTERVAL_MS
    ensures RunOk(Step(r, cacheMs, Asks(a, kid, at)), at)
  {
    StaysTraced(r, cacheMs, Asks(a, kid, at));
    if CandidatesAnswer(r.source, cacheMs, a, kid, at).Fetches? {
      assert !r.source.inflight && !BackingOff(r.source, at);
      AppendSpaced(r.log, at);
    }
  }

  lemma EndsOk(r: Run, cacheMs: int, fetched: Option<seq<ResolvedKey>>, now: int, at: int)
    requires RunOk(r, now) && now <= at && Flying(r)
    ensures RunOk(Step(r, cacheMs, Ends(fetched, at)), at)
  {
    StaysTraced(r, cacheMs, Ends(fetched, at));
    var log := Step(r, cacheMs, Ends(fetched, at)).log;
    assert forall i :: 0 <= i < |log| - 1 ==> log[i] == r.log[i];
    assert log[|log| - 1].start == r.log[|log| - 1].start;
  }

  lemma StepOk(r: Run, cacheMs: int, e: Event, now: int)
    requires RunOk(r, now) && now <= e.at && cacheMs >= MIN_REFRESH_INTERVAL_MS
    ensures RunOk(Step(r, cacheMs, e), e.at)
  {
    match e
    case Asks(a, kid, at) => AskOk(r, cacheMs, a, kid, now, at);
    case Ends(fetched, at) =>
      if Flying(r) { EndsOk(r, cacheMs, fetched, now, at); }
    case Settles(_) =>
  }

  lemma {:induction false} AfterOk(r: Run, cacheMs: int, events: seq<Event>, now: int) returns (later: int)
    requires RunOk(r, now) && Timely(events, now) && cacheMs >= MIN_REFRESH_INTERVAL_MS
    ensures later >= now && RunOk(After(r, cacheMs, events), later)
    decreases |events|
  {
    if events == [] {
      later := now;
    } else {
      StepOk(r, cacheMs, events[0], now);
      later := AfterOk(Step(r, cacheMs, events[0]), cacheMs, events[1..], events[0].at);
    }
  }

  const START := Run(Source([], 0, 0, 0, false), [])

  /** For any arrival of tokens, the fetches of one provider never overlap and keep their distance. */
  lemma FetchesAreSpaced(cacheMs: int, events: seq<Event>, now: int)
    requires now > 0 && Timely(events, now) && cacheMs >= MIN_REFRESH_INTERVAL_MS
    ensures Spaced(After(START, cacheMs, events).log)
  {
    var later := AfterOk(START, cacheMs, events, now);
  }

  /** However many fetches lie between, none starts within 30 seconds of the start of an earlier good one. */
  lemma {:induction false} SpacedFromGood(log: seq<Fetch>, i: nat, j: nat)
    requires Spaced(log) && i < j < |log| && log[i].fetched.Some?
    ensures log[j].start >= log[i].start + MIN_REFRESH_INTERVAL_MS
    decreases j
  {
    if i + 1 < j { SpacedFromGood(log, i, j - 1); }
  }

  /** These keys were all brought by one good fetch that ended recently enough. */
  ghost predicate FetchedRecently(log: seq<Fetch>, keys: seq<ResolvedKey>, cacheMs: int, now: int) {
    exists i :: 0 <= i < |log| && log[i].ended.Some? && log[i].fetched.Some?
      && now - log[i].ended.value < MaxInt(cacheMs, STALE_KEYS_MS)
      && forall k :: k in keys ==> k in log[i].fetched.value
  }

  lemma TracedKeysAreRecent(r: Run, a: Algorithm, kid: Option<string>, cacheMs: int, now: int)
    requires Traced(r) && r.source.fetchedAt > 0 && now - r.source.fetchedAt < MaxInt(cacheMs, STALE_KEYS_MS)
    ensures FetchedRecently(r.log, Select(r.source.keys, a, kid), cacheMs, now)
  {
    FilterExact(r.source.keys, a, kid);
    var i :| 0 <= i < |r.log| && r.log[i].ended == Some(r.source.fetchedAt) && r.log[i].fetched == Some(r.source.keys);
    assert forall k :: k in Select(r.source.keys, a, kid) ==> k in r.log[i].fetched.value;
  }

  /** In every reachable state, keys handed out at once come from one fetch that ended within the cache time or the hour
      that stale keys may be used, and the call fails only when the provider just failed and no such keys are left. */
  lemma KeysAreRecent(cacheMs: int, events: seq<Event>, from: int, a: Algorithm, kid: Option<string>, now: int)
    requires from > 0 && Timely(events, from) && cacheMs >= MIN_REFRESH_INTERVAL_MS
    ensures var r := After(START, cacheMs, events);
      && (CandidatesAnswer(r.source, cacheMs, a, kid, now).Keys? ==>
            FetchedRecently(r.log, CandidatesAnswer(r.source, cacheMs, a, kid, now).keys, cacheMs, now))
      && (CandidatesAnswer(r.source, cacheMs, a, kid, now).Unavailable? ==>
            !r.source.inflight && BackingOff(r.source, now) && !Usable(r.source, now))
  {
    var later := AfterOk(START, cacheMs, events, from);
    var r := After(START, cacheMs, events);
    var answer := CandidatesAnswer(r.source, cacheMs, a, kid, now);
    if answer.Keys? {
      TracedKeysAreRecent(r, a, kid, cacheMs, now);
    }
  }

  /** Those who wait for a fetch get keys as recent when it ends well, or when the ones held may still be used, and none
      otherwise. */
  lemma AwaitedKeysAreRecent(cacheMs: int, events: seq<Event>, from: int, fetched: Option<seq<ResolvedKey>>,
                             a: Algorithm, kid: Option<string>, now: int)
    requires from > 0 && Timely(events, from) && cacheMs >= MIN_REFRESH_INTERVAL_MS && now > 0
    requires Flying(After(START, cacheMs, events))
    ensures var r := After(START, cacheMs, events);
      var r' := Step(r, cacheMs, Ends(fetched, now));
      (fetched.Some? || Usable(r.source, now)) ==> FetchedRecently(r'.log, Select(r'.source.keys, a, kid), cacheMs, now)
  {
    var later := AfterOk(START, cacheMs, events, from);
    var r := After(START, cacheMs, events);
    var r' := Step(r, cacheMs, Ends(fetched, now));
    StaysTraced(r, cacheMs, Ends(fetched, now));
    if fetched.Some? || Usable(r.source, now) {
      TracedKeysAreRecent(r', a, kid, cacheMs, now);
    }
  }
}
