/** The rate limit shared by every instance of the server (`packages/server/src/shared-limit.ts`) and the store bucket
    behind it (`packages/core/src/api/rate-limit.ts`). `take` awaits the store, so it is modelled as the pieces that run
    without interruption: an attempt, the arrival of a lease, and the removal of the settled promise. */
module SharedLimiting {
  import opened Arithmetic
  import opened JsMaps
  import opened Wrappers
  import opened RateLimiting

  const LEASE_TTL_MS: real := 2000.0
  const MAX_ENTRIES: nat := 10000

  datatype Held = Held(tokens: int, expiresAt: real, emptyUntil: real)

  /** What one turn of the loop in `take` comes to. */
  datatype Outcome =
    | Admit(decision: Decision)
    | Refused(decision: Decision)
    | Ask
    | Join

  /** What a process asks the store for: a tenth of the burst, at least one token. */
  function LeaseSize(c: Config): int { MaxInt(1, Ceil(c.burst as real / 10.0)) }

  /** What `take` answers without a token: a second's worth of waiting for one, rounded up. */
  function Refusal(c: Config): Decision {
    Decision(false, 0, c.burst, MaxInt(1, Ceil(1.0 / c.perSecond)))
  }

  function AttemptOutcome(c: Config, held: JsMap<Held>, pending: set<Key>, key: Key, now: real): Outcome {
    match Get(held, key)
    case Some(e) =>
      if e.expiresAt > now && e.tokens >= 1 then Admit(Decision(true, e.tokens - 1, c.burst, 0))
      else if e.tokens < 1 && e.emptyUntil > now then Refused(Refusal(c))
      else if key in pending then Join else Ask
    case None => if key in pending then Join else Ask
  }

  /** The entry a lease of `granted` tokens leaves. */
  function Leased(c: Config, granted: int, now: real): Held {
    Held(granted, now + LEASE_TTL_MS, if granted > 0 then 0.0 else now + MaxReal(100.0, 1000.0 / c.perSecond))
  }

  function HeldAfterAttempt(c: Config, held: JsMap<Held>, key: Key, now: real): JsMap<Held> {
    match Get(held, key)
    case Some(e) =>
      if e.expiresAt > now && e.tokens >= 1 then Set(held, key, e.(tokens := e.tokens - 1)) else held
    case None => held
  }

  class SharedRateLimiter {
    var held: JsMap<Held>
    var pending: set<Key>
    const config: Config

    ghost predicate Valid()
      reads this
    {
      JsMaps.Valid(held) && Size(held) <= MAX_ENTRIES
    }

    constructor (config: Config)
      ensures Valid() && held == Empty() && pending == {} && this.config == config
    {
      this.config := config;
      held := Empty();
      pending := {};
    }

    /** One turn of the loop in `take`, up to its `await`. `Ask` sends a lease to the store, `Join` waits for the one in
        flight. */
    method Attempt(key: Key, now: real) returns (outcome: Outcome)
      requires Valid()
      modifies this
      ensures Valid()
      ensures outcome == AttemptOutcome(config, old(held), old(pending), key, now)
      ensures held == HeldAfterAttempt(config, old(held), key, now)
      ensures pending == if outcome.Ask? then old(pending) + {key} else old(pending)
    {
      var entry := Get(held, key);
      if entry.Some? && entry.value.expiresAt > now && entry.value.tokens >= 1 {
        var e := entry.value;
        e := e.(tokens := e.tokens - 1);
        SetValid(held, key, e);
        held := Set(held, key, e);
        return Admit(Decision(true, e.tokens, config.burst, 0));
      }
      if entry.Some? && entry.value.tokens < 1 && entry.value.emptyUntil > now {
        return Refused(Decision(false, 0, config.burst, MaxInt(1, Ceil(1.0 / config.perSecond))));
      }
      if key in pending {
        return Join;
      }
      pending := pending + {key};
      return Ask;
    }

    /** The lease arrives: the entry is replaced and moved to the end, then the oldest entries make room. */
    method LeaseArrives(key: Key, granted: int, now: real)
      requires Valid()
      modifies this
      ensures Valid() && pending == old(pending)
      ensures held == Touch(old(held), key, Leased(config, granted, now), MAX_ENTRIES)
    {
      DeleteValid(held, key);
      held := Delete(held, key);
      var e := Held(granted, now + LEASE_TTL_MS,
                  if granted > 0 then 0.0 else now + MaxReal(100.0, 1000.0 / config.perSecond));
      SetValid(held, key, e);
      held := Set(held, key, e);
      ghost var all := held;
      while Size(held) > MAX_ENTRIES
        invariant JsMaps.Valid(held) && pending == old(pending)
        invariant Newest(held, MAX_ENTRIES) == Newest(all, MAX_ENTRIES)
        decreases Size(held)
      {
        DeleteValid(held, held.order[0]);
        held := Delete(held, held.order[0]);
      }
    }

    /** The promise has settled, either way. */
    method LeaseSettles(key: Key)
      requires Valid()
      modifies this
      ensures Valid() && held == old(held) && pending == old(pending) - {key}
    {
      pending := pending - {key};
    }
  }

  // ----- the store

  datatype StoreBucket = StoreBucket(tokens: real, updated: real)

  /** What the bucket of a key holds at `now`; an unknown key has a full one. */
  function StoreLevel(c: Config, bucket: Option<StoreBucket>, now: real): real {
    match bucket
    case None => c.burst as real
    case Some(b) => MinReal(c.burst as real, b.tokens + Earned(c, MaxReal(0.0, now - b.updated)))
  }

  /** Whole tokens only, and never more than the bucket holds. */
  function Grant(c: Config, bucket: Option<StoreBucket>, amount: int, now: real): int {
    var whole := StoreLevel(c, bucket, now).Floor;
    if amount <= whole then amount else whole
  }

  function AfterGrant(c: Config, bucket: Option<StoreBucket>, amount: int, now: real): StoreBucket {
    StoreBucket(StoreLevel(c, bucket, now) - Grant(c, bucket, amount, now) as real,
                match bucket case None => MaxReal(now, 0.0) case Some(b) => MaxReal(now, b.updated))
  }

  // ----- one process

  /** A lease between the question and the removal of its promise. */
  datatype Flight =
    | Asked
    | Granted(tokens: int)
    | Settling

  datatype Process = Process(held: JsMap<Held>, flights: map<Key, Flight>, clock: real)

  function HeldTokens(p: Process, key: Key): int {
    if key in p.held.values then p.held.values[key].tokens else 0
  }

  /** Tokens the process could spend on `key` right now. */
  function Spendable(p: Process, key: Key): int {
    if key in p.held.values && p.held.values[key].expiresAt > p.clock then p.held.values[key].tokens else 0
  }

  /** Tokens the store has handed out that have not arrived. */
  function InFlight(p: Process, key: Key): int {
    if key in p.flights && p.flights[key].Granted? then p.flights[key].tokens else 0
  }

  function Attempted(c: Config, p: Process, key: Key): Process {
    p.(held := HeldAfterAttempt(c, p.held, key, p.clock),
       flights :=
          if AttemptOutcome(c, p.held, p.flights.Keys, key, p.clock).Ask? then p.flights[key := Asked] else p.flights)
  }

  function Arrived(c: Config, p: Process, key: Key, granted: int): Process {
    p.(held := Touch(p.held, key, Leased(c, granted, p.clock), MAX_ENTRIES),
       flights := p.flights[key := Settling])
  }

  function WithFlight(p: Process, key: Key, f: Flight): Process {
    p.(flights := p.flights[key := f])
  }

  function Settled(p: Process, key: Key): Process {
    p.(flights := p.flights - {key})
  }

  /** A lease is in flight until it arrives or fails; its promise leaves `pending` a moment later. */
  ghost predicate Flying(p: Process, key: Key) {
    key in p.flights && !p.flights[key].Settling?
  }

  ghost predicate ProcessOk(c: Config, p: Process) {
    && JsMaps.Valid(p.held)
    && (forall k :: k in p.held.values ==> 0 <= p.held.values[k].tokens <= LeaseSize(c))
    && (forall k :: k in p.flights && p.flights[k].Granted? ==> 0 <= p.flights[k].tokens <= LeaseSize(c))
    && (forall k :: Flying(p, k) ==> Spendable(p, k) == 0)
  }

  // ----- what every step of one process keeps

  /** An attempt touches one entry at most, and only takes a token that may be spent. */
  lemma AttemptedHeld(c: Config, p: Process, key: Key, k: Key)
    requires JsMaps.Valid(p.held)
    ensures JsMaps.Valid(Attempted(c, p, key).held)
    ensures k in Attempted(c, p, key).held.values <==> k in p.held.values
    ensures k in p.held.values ==>
      Attempted(c, p, key).held.values[k] ==
        if k == key && AttemptOutcome(c, p.held, p.flights.Keys, key, p.clock).Admit?
        then p.held.values[k].(tokens := p.held.values[k].tokens - 1)
        else p.held.values[k]
  {
    if key in p.held.values {
      SetValid(p.held, key, p.held.values[key].(tokens := p.held.values[key].tokens - 1));
    }
  }

  lemma AttemptedOk(c: Config, p: Process, key: Key)
    requires ProcessOk(c, p)
    ensures ProcessOk(c, Attempted(c, p, key))
  {
    var p' := Attempted(c, p, key);
    AttemptedHeld(c, p, key, key);
    forall k | k in p'.held.values ensures 0 <= p'.held.values[k].tokens <= LeaseSize(c) {
      AttemptedHeld(c, p, key, k);
    }
    forall k | Flying(p', k) ensures Spendable(p', k) == 0 {
      AttemptedHeld(c, p, key, k);
      assert Flying(p, k) || AttemptOutcome(c, p.held, p.flights.Keys, key, p.clock).Ask?;
    }
  }

  lemma ArrivedHeld(c: Config, p: Process, key: Key, granted: int, k: Key)
    requires JsMaps.Valid(p.held)
    ensures JsMaps.Valid(Arrived(c, p, key, granted).held)
    ensures k in Arrived(c, p, key, granted).held.values ==>
      Arrived(c, p, key, granted).held.values[k] ==
        if k == key then Leased(c, granted, p.clock)
          else if k in p.held.values then p.held.values[k] else Leased(c, granted, p.clock)
    ensures k in Arrived(c, p, key, granted).held.values ==> k == key || k in p.held.values
  {
    TouchValid(p.held, key, Leased(c, granted, p.clock), MAX_ENTRIES);
  }

  lemma ArrivedOk(c: Config, p: Process, key: Key, granted: int)
    requires ProcessOk(c, p) && 0 <= granted <= LeaseSize(c)
    ensures ProcessOk(c, Arrived(c, p, key, granted))
  {
    var p' := Arrived(c, p, key, granted);
    ArrivedHeld(c, p, key, granted, key);
    forall k | k in p'.held.values ensures 0 <= p'.held.values[k].tokens <= LeaseSize(c) {
      ArrivedHeld(c, p, key, granted, k);
    }
    forall k | Flying(p', k) ensures Spendable(p', k) == 0 {
      ArrivedHeld(c, p, key, granted, k);
      assert Flying(p, k);
    }
  }

  lemma FlightOk(c: Config, p: Process, key: Key, f: Flight)
    requires ProcessOk(c, p) && Flying(p, key)
    requires f.Granted? ==> 0 <= f.tokens <= LeaseSize(c)
    ensures ProcessOk(c, WithFlight(p, key, f))
  {
    var p' := WithFlight(p, key, f);
    forall k | Flying(p', k) ensures Spendable(p', k) == 0 {
      assert Flying(p, k);
    }
  }

  lemma SettledOk(c: Config, p: Process, key: Key)
    requires ProcessOk(c, p)
    ensures ProcessOk(c, Settled(p, key))
  {
    var p' := Settled(p, key);
    forall k | Flying(p', k) ensures Spendable(p', k) == 0 {
      assert Flying(p, k);
    }
  }

  lemma TickedOk(c: Config, p: Process, ms: real)
    requires ProcessOk(c, p) && ms >= 0.0
    ensures ProcessOk(c, p.(clock := p.clock + ms))
  {
    var p' := p.(clock := p.clock + ms);
    forall k | Flying(p', k) ensures Spendable(p', k) == 0 {
      assert Flying(p, k);
    }
  }
}
