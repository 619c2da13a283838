/** Takes of one key at one instant (`packages/server/src/limits.ts`): what a decision says about those that follow. */
module RateLimitingDecisions {
  import opened Arithmetic
  import opened JsMaps
  import opened Wrappers
  import opened RateLimiting

  /** The key has `tokens` tokens and needs no refill. */
  ghost predicate Has(c: Config, m: JsMap<Bucket>, key: Key, tokens: real, at: real) {
    Sound(c, m, at) && key in m.values && m.values[key] == Bucket(tokens, at)
  }

  /** What a take finds at the instant of the last one. */
  lemma NoRefill(c: Config, m: JsMap<Bucket>, key: Key, tokens: real, at: real)
    requires Has(c, m, key, tokens, at)
    ensures Level(c, Opened(c, m, key, at), at) == tokens
  {
    assert Earned(c, 0.0) == 0.0;
  }

  /** A take leaves the key with what it had, less the token it was admitted with. */
  lemma TakeLeaves(c: Config, m: JsMap<Bucket>, key: Key, at: real)
    requires c.maxEntries >= 1 && Sound(c, m, at)
    ensures var (m', d) := TakeStep(c, m, key, at);
      var level := Level(c, Opened(c, m, key, at), at);
      && Has(c, m', key, if level >= 1.0 then level - 1.0 else level, at)
      && d.allowed == (level >= 1.0) && (d.allowed ==> d.remaining == (level - 1.0).Floor)
  {
    TakeIsSound(c, m, key, at);
    TouchValid(m, key, Spent(c, m, key, at), c.maxEntries);
    TakeBucket(c, m, key, at, key);
  }

  /** One take when there are no tokens to come back. */
  lemma OneTake(c: Config, m: JsMap<Bucket>, key: Key, tokens: real, at: real)
    requires c.maxEntries >= 1 && Has(c, m, key, tokens, at)
    ensures var d := TakeStep(c, m, key, at).1;
      (d.allowed <==> tokens >= 1.0) && (d.allowed ==> d.remaining == (tokens - 1.0).Floor)
  {
    NoRefill(c, m, key, tokens, at);
    TakeLeaves(c, m, key, at);
  }

  /** `remaining` counts down: the next take of the key at the same instant is admitted exactly when it is not 0, and
      then says one less. */
  lemma RemainingCountsDown(c: Config, m: JsMap<Bucket>, key: Key, at: real)
    requires c.maxEntries >= 1 && Sound(c, m, at)
    ensures var (m', d) := TakeStep(c, m, key, at);
      var next := TakeStep(c, m', key, at).1;
      && (next.allowed <==> d.remaining >= 1)
      && (next.allowed ==> next.remaining == d.remaining - 1)
  {
    var level := Level(c, Opened(c, m, key, at), at);
    TakeLeaves(c, m, key, at);
    LevelRange(c, m, key, at);
    OneTake(c, TakeStep(c, m, key, at).0, key, if level >= 1.0 then level - 1.0 else level, at);
  }

  lemma LevelRange(c: Config, m: JsMap<Bucket>, key: Key, at: real)
    requires Sound(c, m, at)
    ensures 0.0 <= Level(c, Opened(c, m, key, at), at) <= c.burst as real
  {
    EarnedGrows(c, at - Opened(c, m, key, at).at);
  }

  /** What else a decision says: the limit is the burst, a wait is named exactly to those who are refused. */
  lemma DecisionsAreWhole(c: Config, m: JsMap<Bucket>, key: Key, at: real)
    requires Sound(c, m, at)
    ensures var d := TakeStep(c, m, key, at).1;
      && 0 <= d.remaining < d.limit == c.burst
      && (d.allowed <==> d.retryAfterSeconds == 0) && (!d.allowed ==> d.remaining == 0 && d.retryAfterSeconds >= 1)
  {
    LevelRange(c, m, key, at);
  }

  /** A key the limiter does not know has a whole burst. */
  lemma NewKeyHasBurst(c: Config, m: JsMap<Bucket>, key: Key, at: real)
    requires c.maxEntries >= 1 && Sound(c, m, at) && key !in m.values
    ensures var d := TakeStep(c, m, key, at).1;
      d.allowed && d.remaining == c.burst - 1
  {
    assert Earned(c, 0.0) == 0.0;
  }
}
