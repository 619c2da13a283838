/** The in-memory token bucket limiter of one process (`packages/server/src/limits.ts`).
    Tokens and clock readings (in milliseconds) are exact reals. */
module RateLimiting {
  import opened Arithmetic
  import opened JsMaps
  import opened Wrappers

  datatype Bucket = Bucket(tokens: real, at: real)
  datatype Settings = Settings(perSecond: real, burst: int, maxEntries: nat)
  datatype Decision = Decision(allowed: bool, remaining: int, limit: int, retryAfterSeconds: int)

  /** The constructor refuses every other combination with a RangeError. */
  type Config = s: Settings | s.perSecond > 0.0 && s.burst >= 1 witness Settings(1.0, 1, 1)

  /** Tokens that come back in `ms` milliseconds. */
  function Earned(c: Config, ms: real): real { ms / 1000.0 * c.perSecond }

  /** What the bucket holds at `now` when nothing is taken in between. */
  function Level(c: Config, b: Bucket, now: real): real {
    MinReal(c.burst as real, b.tokens + Earned(c, now - b.at))
  }

  /** The bucket a take works on: an unknown key starts with a full one. */
  function Opened(c: Config, m: JsMap<Bucket>, key: Key, now: real): Bucket {
    match Get(m, key)
    case Some(b) => b
    case None => Bucket(c.burst as real, now)
  }

  function DecisionAt(c: Config, tokens: real): Decision {
    if tokens >= 1.0 then Decision(true, (tokens - 1.0).Floor, c.burst, 0)
    else Decision(false, 0, c.burst, MaxInt(1, Ceil((1.0 - tokens) / c.perSecond)))
  }

  /** The bucket after the take: refilled up to `now`, less the token of an admitted request. */
  function Spent(c: Config, m: JsMap<Bucket>, key: Key, now: real): Bucket {
    var tokens := Level(c, Opened(c, m, key, now), now);
    Bucket(if tokens >= 1.0 then tokens - 1.0 else tokens, now)
  }

  function TakeStep(c: Config, m: JsMap<Bucket>, key: Key, now: real): (JsMap<Bucket>, Decision) {
    (Touch(m, key, Spent(c, m, key, now), c.maxEntries), DecisionAt(c, Level(c, Opened(c, m, key, now), now)))
  }

  class RateLimiter {
    var buckets: JsMap<Bucket>
    const config: Config

    ghost predicate Valid()
      reads this
    {
      JsMaps.Valid(buckets) && Size(buckets) <= config.maxEntries
    }

    /** The source throws a RangeError unless `perSecond > 0` and `burst >= 1`; a fractional burst is rounded down. */
    constructor (perSecond: real, burst: real, maxEntries: nat)
      requires perSecond > 0.0 && burst >= 1.0
      ensures Valid() && buckets == Empty()
      ensures config == Settings(perSecond, burst.Floor, maxEntries)
    {
      buckets := Empty();
      config := Settings(perSecond, burst.Floor, maxEntries);
    }

    method Take(key: Key, now: real) returns (decision: Decision)
      requires Valid()
      modifies this
      ensures Valid()
      ensures (buckets, decision) == TakeStep(config, old(buckets), key, now)
    {
      var bucket := match Get(buckets, key)
        case Some(b) => b
        case None => Bucket(config.burst as real, now);
      DeleteValid(buckets, key);
      buckets := Delete(buckets, key);
      bucket := bucket.(tokens := MinReal(config.burst as real, bucket.tokens + Earned(config, now - bucket.at)));
      bucket := bucket.(at := now);
      if bucket.tokens >= 1.0 {
        bucket := bucket.(tokens := bucket.tokens - 1.0);
        decision := Decision(true, bucket.tokens.Floor, config.burst, 0);
      } else {
        decision := Decision(false, 0, config.burst, MaxInt(1, Ceil((1.0 - bucket.tokens) / config.perSecond)));
      }
      SetValid(buckets, key, bucket);
      buckets := Set(buckets, key, bucket);
      ghost var all := buckets;
      assert all == Set(Delete(old(buckets), key), key, bucket);
      assert bucket == Spent(config, old(buckets), key, now);
      assert decision == DecisionAt(config, Level(config, Opened(config, old(buckets), key, now), now));
      while Size(buckets) > config.maxEntries
        invariant JsMaps.Valid(buckets)
        invariant Newest(buckets, config.maxEntries) == Newest(all, config.maxEntries)
        decreases Size(buckets)
      {
        DeleteValid(buckets, buckets.order[0]);
        buckets := Delete(buckets, buckets.order[0]);
      }
    }
  }

  // ----- runs

  datatype Call = Call(key: Key, at: real)

  /** The limiter after a sequence of takes. */
  function Run(c: Config, m: JsMap<Bucket>, calls: seq<Call>): JsMap<Bucket>
    decreases |calls|
  {
    if calls == [] then m
    else Run(c, TakeStep(c, m, calls[0].key, calls[0].at).0, calls[1..])
  }

  /** The times at which takes of `key` were admitted. */
  function AdmittedTimes(c: Config, m: JsMap<Bucket>, calls: seq<Call>, key: Key): seq<real>
    decreases |calls|
  {
    if calls == [] then []
    else
      var (m', d) := TakeStep(c, m, calls[0].key, calls[0].at);
      (if d.allowed && calls[0].key == key then [calls[0].at] else []) + AdmittedTimes(c, m', calls[1..], key)
  }

  /** A nondecreasing clock that reads at least `from` and at most `to`. */
  ghost predicate Within(calls: seq<Call>, from: real, to: real) {
    if calls == [] then from <= to
    else from <= calls[0].at && Within(calls[1..], calls[0].at, to)
  }

  ghost predicate KeysOf(calls: seq<Call>, keys: set<Key>) {
    forall i :: 0 <= i < |calls| ==> calls[i].key in keys
  }

  /** What every reachable limiter satisfies at time `now`. */
  ghost predicate Sound(c: Config, m: JsMap<Bucket>, now: real) {
    && JsMaps.Valid(m)
    && Size(m) <= c.maxEntries
    && forall k :: k in m.values ==> m.values[k].at <= now && 0.0 <= m.values[k].tokens <= c.burst as real
  }

  // ----- arithmetic of the refill

  lemma EarnedGrows(c: Config, ms: real)
    requires ms >= 0.0
    ensures Earned(c, ms) >= 0.0
  {
  }

  lemma EarnedAdds(c: Config, x: real, y: real)
    ensures Earned(c, x + y) == Earned(c, x) + Earned(c, y)
  {
    var r := c.perSecond;
    assert (x + y) / 1000.0 == x / 1000.0 + y / 1000.0;
    assert (x / 1000.0 + y / 1000.0) * r == x / 1000.0 * r + y / 1000.0 * r;
  }

  /** The lazy refill is a continuous one: stopping at `s` on the way to `t` to refill changes nothing. */
  lemma LazyRefillIsContinuous(c: Config, b: Bucket, s: real, t: real)
    requires b.at <= s <= t && b.tokens <= c.burst as real
    ensures Level(c, Bucket(Level(c, b, s), s), t) == Level(c, b, t)
  {
    EarnedAdds(c, s - b.at, t - s);
    assert (s - b.at) + (t - s) == t - b.at;
    EarnedGrows(c, t - s);
  }

  /** The promise of `retryAfterSeconds`, and that no smaller whole number of seconds would keep it. */
  lemma RetryAfterIsExact(c: Config, tokens: real, at: real, later: real)
    requires tokens < 1.0
    ensures var wait := DecisionAt(c, tokens).retryAfterSeconds as real;
      && (later >= at + wait * 1000.0 ==> Level(c, Bucket(tokens, at), later) >= 1.0)
      && (wait > 1.0 && later <= at + (wait - 1.0) * 1000.0 ==> Level(c, Bucket(tokens, at), later) < 1.0)
  {
    var wait := DecisionAt(c, tokens).retryAfterSeconds as real;
    var gap := (1.0 - tokens) / c.perSecond;
    assert wait >= gap && (wait > 1.0 ==> wait - 1.0 < gap);
    EarnedEnough(c, tokens, later - at);
    assert (later - at) / 1000.0 >= wait <==> later >= at + wait * 1000.0;
  }

  lemma EarnedEnough(c: Config, tokens: real, ms: real)
    ensures tokens + Earned(c, ms) >= 1.0 <==> ms / 1000.0 >= (1.0 - tokens) / c.perSecond
  {
    var s, gap := ms / 1000.0, (1.0 - tokens) / c.perSecond;
    assert gap * c.perSecond == 1.0 - tokens;
    if s >= gap {
      assert s * c.perSecond >= gap * c.perSecond;
    } else {
      assert s * c.perSecond < gap * c.perSecond;
    }
  }

  // ----- one take

  lemma SpentInRange(c: Config, m: JsMap<Bucket>, key: Key, now: real)
    requires Sound(c, m, now)
    ensures Spent(c, m, key, now).at == now && 0.0 <= Spent(c, m, key, now).tokens <= c.burst as real
  {
    EarnedGrows(c, now - Opened(c, m, key, now).at);
  }

  lemma TakeIsSound(c: Config, m: JsMap<Bucket>, key: Key, now: real)
    requires Sound(c, m, now)
    ensures Sound(c, TakeStep(c, m, key, now).0, now)
  {
    SpentInRange(c, m, key, now);
    TouchValid(m, key, Spent(c, m, key, now), c.maxEntries);
  }

  /** What a take does to the buckets that survive it. */
  lemma TakeBucket(c: Config, m: JsMap<Bucket>, key: Key, now: real, k: Key)
    requires JsMaps.Valid(m)
    requires k in TakeStep(c, m, key, now).0.values
    ensures k == key || k in m.values
    ensures TakeStep(c, m, key, now).0.values[k] == if k == key then Spent(c, m, key, now) else m.values[k]
  {
    TouchValid(m, key, Spent(c, m, key, now), c.maxEntries);
  }

  lemma TakeOrder(c: Config, m: JsMap<Bucket>, key: Key, now: real)
    requires JsMaps.Valid(m)
    ensures TakeStep(c, m, key, now).0.order == Suffix(Without(m.order, key) + [key], c.maxEntries)
  {
    TouchValid(m, key, Spent(c, m, key, now), c.maxEntries);
  }

  lemma {:induction false} RunIsSound(c: Config, m: JsMap<Bucket>, calls: seq<Call>, from: real, to: real)
    requires Sound(c, m, from) && Within(calls, from, to)
    ensures from <= to && Sound(c, Run(c, m, calls), to)
    decreases |calls|
  {
    if calls != [] {
      TakeIsSound(c, m, calls[0].key, calls[0].at);
      RunIsSound(c, TakeStep(c, m, calls[0].key, calls[0].at).0, calls[1..], calls[0].at, to);
    }
  }

  // ----- windows of a key that stays tracked

  /** No take along the way makes the limiter forget `key`. */
  ghost predicate StaysTracked(c: Config, m: JsMap<Bucket>, calls: seq<Call>, key: Key)
    decreases |calls|
  {
    key in m.values
    && (calls == [] || StaysTracked(c, TakeStep(c, m, calls[0].key, calls[0].at).0, calls[1..], key))
  }

  lemma LevelGrows(c: Config, b: Bucket, s: real, t: real)
    requires b.at <= s <= t
    ensures Level(c, b, t) <= Level(c, b, s) + Earned(c, t - s)
    ensures b.tokens <= c.burst as real ==> Level(c, b, b.at) == b.tokens
  {
    EarnedAdds(c, s - b.at, t - s);
    assert (s - b.at) + (t - s) == t - b.at;
    EarnedGrows(c, t - s);
    assert Earned(c, b.at - b.at) == 0.0;
  }

  lemma {:induction false} TrackedWindow(c: Config, m: JsMap<Bucket>, calls: seq<Call>, key: Key, from: real, to: real)
    requires Sound(c, m, from) && Within(calls, from, to)
    requires StaysTracked(c, m, calls, key)
    ensures |AdmittedTimes(c, m, calls, key)| as real <= Level(c, m.values[key], from) + Earned(c, to - from)
    decreases |calls|
  {
    var b := m.values[key];
    EarnedGrows(c, from - b.at);
    if calls == [] {
      EarnedGrows(c, to - from);
    } else {
      var at := calls[0].at;
      var m' := TakeStep(c, m, calls[0].key, at).0;
      TakeIsSound(c, m, calls[0].key, at);
      TakeBucket(c, m, calls[0].key, at, key);
      RunIsSound(c, m', calls[1..], at, to);
      TrackedWindow(c, m', calls[1..], key, at, to);
      LevelGrows(c, b, from, at);
      LevelGrows(c, m'.values[key], at, at);
      EarnedAdds(c, at - from, to - at);
      assert (at - from) + (to - at) == to - from;
    }
  }
}
