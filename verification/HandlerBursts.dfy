/** A run of the server in which the handlers of a key reach their limit: requests that hold their bodies back keep
    every slot, the bucket fills up meanwhile, and all of it is spent at one instant. */
module HandlerBursts {
  import opened Arithmetic
  import opened JsMaps
  import opened Sequences
  import opened Wrappers
  import opened HandlerStarts
  import RateLimiting
  import RateLimitingRuns
  import C = Concurrency

  // ----- one key, served in the order of arrival

  function Only(key: Key, b: RateLimiting.Bucket): JsMap<RateLimiting.Bucket> { JsMap([key], map[key := b]) }

  /** Requests `lo` to `m - 1` of `key` have a slot and wait, those before them are done, and there is nothing else. */
  ghost predicate Line(s: System, key: Key, lo: nat, m: nat, buckets: JsMap<RateLimiting.Bucket>) {
    && lo <= m && s.cleared == {} && s.buckets == buckets
    && s.server.inFlight == s.server.gate.total == C.CountOf(s.server.gate, key) == m - lo
    && (forall id :: id in s.server.requests <==> 0 <= id < m)
    && (forall id :: 0 <= id < m ==> s.server.requests[id] == C.Request(key, if id < lo then C.Done else C.Preparing))
  }

  /** The events lead from `s` to `s'` with this many handlers started for `key`, between two readings of the clock. */
  ghost predicate Leads(l: Limits, s: System, events: seq<Event>, s': System, key: Key, started: nat, from: real,
                        to: real) {
    s' == Run(l, s, events) && Starts(l, s, events, key) == started && Timely(events, from, to)
  }

  lemma {:induction false} Then(l: Limits, s: System, a: seq<Event>, s1: System, b: seq<Event>, s2: System, key: Key,
                                i: nat, j: nat, from: real, mid: real, to: real)
    requires Leads(l, s, a, s1, key, i, from, mid) && Leads(l, s1, b, s2, key, j, mid, to)
    ensures Leads(l, s, a + b, s2, key, i + j, from, to)
    decreases |a|
  {
    if a == [] {
      Neutral(b);
      TimelyEarlier(b, from, mid, to);
    } else {
      var own := if StartsHandler(s, a[0], key) then 1 else 0;
      assert a == [a[0]] + a[1..];
      Assoc([a[0]], a[1..], b);
      Tail(a[0], a[1..] + b);
      Then(l, Step(l, s, a[0]), a[1..], s1, b, s2, key, i - own, j, a[0].at, mid, to);
    }
  }

  function Count(s: System, e: Event, key: Key): nat { if StartsHandler(s, e, key) then 1 else 0 }

  lemma OneEvent(l: Limits, s: System, e: Event, key: Key)
    ensures Leads(l, s, [e], Step(l, s, e), key, Count(s, e, key), e.at, e.at)
  {
    Tail(e, []);
    Neutral([e]);
    assert [e][1..] == [];
  }

  lemma ThreeEvents(l: Limits, s: System, a: Event, b: Event, c: Event, key: Key, at: real)
    requires a.at == b.at == c.at == at
    ensures var s1 := Step(l, s, a);
      var s2 := Step(l, s1, b);
      Leads(l, s, [a, b, c], Step(l, s2, c), key, Count(s, a, key) + Count(s1, b, key) + Count(s2, c, key), at, at)
  {
    var s1 := Step(l, s, a);
    var s2 := Step(l, s1, b);
    OneEvent(l, s, a, key);
    OneEvent(l, s1, b, key);
    OneEvent(l, s2, c, key);
    Then(l, s, [a], s1, [b], s2, key, Count(s, a, key), Count(s1, b, key), at, at, at);
    Then(l, s, [a] + [b], s2, [c], Step(l, s2, c), key, Count(s, a, key) + Count(s1, b, key), Count(s2, c, key), at,
         at, at);
    assert [a] + [b] + [c] == [a, b, c];
  }

  lemma TimelyEarlier(events: seq<Event>, earlier: real, from: real, to: real)
    requires earlier <= from && Timely(events, from, to)
    ensures Timely(events, earlier, to)
  {
  }

  /** The limiter knows no other key, and this one has `level` tokens. */
  ghost predicate Holds(c: RateLimiting.Config, buckets: JsMap<RateLimiting.Bucket>, key: Key, level: int, at: real) {
    && (buckets == Empty() || exists b :: buckets == Only(key, b))
    && RateLimiting.Level(c, RateLimiting.Opened(c, buckets, key, at), at) == level as real
  }

  lemma TakeAlone(c: RateLimiting.Config, buckets: JsMap<RateLimiting.Bucket>, key: Key, level: int, at: real)
    requires c.maxEntries >= 1 && level >= 1 && Holds(c, buckets, key, level, at)
    ensures var (after, d) := RateLimiting.TakeStep(c, buckets, key, at);
      d.allowed && after == Only(key, RateLimiting.Bucket(level as real - 1.0, at))
  {
    assert Without([key], key) == [];
  }

  /** The next request arrives, is admitted and gets a slot. */
  function Enter(id: nat, key: Key, at: real): seq<Event> {
    [Moves(C.Arrives(id, key), at), Takes(id, at), Moves(C.AsksSlot(id), at)]
  }

  /** Its handler starts, answers and ends. */
  function Serve(id: nat, at: real): seq<Event> {
    [Moves(C.HandlerStarts(id), at), Moves(C.AnswerSent(id), at), Moves(C.HandlerEnds(id), at)]
  }

  lemma Enters(l: Limits, s: System, key: Key, lo: nat, m: nat, buckets: JsMap<RateLimiting.Bucket>, level: int,
               at: real)
    returns (s': System)
    requires Line(s, key, lo, m, buckets) && Holds(l.rate, buckets, key, level, at) && level >= 1
    requires l.rate.maxEntries >= 1 && m - lo < l.gate.perKey && m - lo < l.maxInFlight
    requires l.gate.global.Some? ==> m - lo < l.gate.global.value
    ensures Leads(l, s, Enter(m, key, at), s', key, 0, at, at)
    ensures Line(s', key, lo, m + 1, Only(key, RateLimiting.Bucket(level as real - 1.0, at)))
  {
    TakeAlone(l.rate, buckets, key, level, at);
    var events := Enter(m, key, at);
    var s1 := Step(l, s, events[0]);
    var s2 := Step(l, s1, events[1]);
    s' := Step(l, s2, events[2]);
    ThreeEvents(l, s, events[0], events[1], events[2], key, at);
  }

  lemma Serves(l: Limits, s: System, key: Key, lo: nat, m: nat, buckets: JsMap<RateLimiting.Bucket>, at: real)
    returns (s': System)
    requires Line(s, key, lo, m, buckets) && lo < m
    ensures Leads(l, s, Serve(lo, at), s', key, 1, at, at) && Line(s', key, lo + 1, m, buckets)
  {
    var events := Serve(lo, at);
    var s1 := Step(l, s, events[0]);
    var s2 := Step(l, s1, events[1]);
    s' := Step(l, s2, events[2]);
    ThreeEvents(l, s, events[0], events[1], events[2], key, at);
  }

  // ----- the run

  /** In this time one token comes back. */
  function Period(c: RateLimiting.Config): real { 1000.0 / c.perSecond }

  lemma PeriodEarnsOne(c: RateLimiting.Config)
    ensures Period(c) > 0.0 && RateLimiting.Earned(c, Period(c)) == 1.0
  {
  }

  /** When the `i`-th request takes its token, one period after the one before. */
  function TimeOf(c: RateLimiting.Config, i: nat): real
  {
    if i == 0 then 0.0 else TimeOf(c, i - 1) + Period(c)
  }

  /** The first `i` requests, each admitted out of a full bucket. */
  function Queue(c: RateLimiting.Config, key: Key, i: nat): seq<Event> {
    if i == 0 then [] else Queue(c, key, i - 1) + Enter(i - 1, key, TimeOf(c, i - 1))
  }

  function AfterQueue(c: RateLimiting.Config, key: Key, i: nat): JsMap<RateLimiting.Bucket> {
    if i == 0 then Empty() else Only(key, RateLimiting.Bucket(c.burst as real - 1.0, TimeOf(c, i - 1)))
  }

  lemma QueueIsFull(c: RateLimiting.Config, key: Key, i: nat)
    ensures Holds(c, AfterQueue(c, key, i), key, c.burst, TimeOf(c, i))
  {
    if i == 0 {
      assert RateLimiting.Earned(c, 0.0) == 0.0;
    } else {
      FullAgain(c, TimeOf(c, i - 1));
      HoldsOnly(c, key, RateLimiting.Bucket(c.burst as real - 1.0, TimeOf(c, i - 1)), c.burst, TimeOf(c, i));
    }
  }

  lemma HoldsOnly(c: RateLimiting.Config, key: Key, b: RateLimiting.Bucket, level: int, at: real)
    requires RateLimiting.Level(c, b, at) == level as real
    ensures Holds(c, Only(key, b), key, level, at)
  {
  }

  /** One period after a take from a full bucket it is full again. */
  lemma FullAgain(c: RateLimiting.Config, at: real)
    ensures RateLimiting.Level(c, RateLimiting.Bucket(c.burst as real - 1.0, at), at + Period(c)) == c.burst as real
  {
    PeriodEarnsOne(c);
    assert at + Period(c) - at == Period(c);
  }

  lemma {:induction false} Queues(l: Limits, key: Key, i: nat) returns (s: System)
    requires l.rate.maxEntries >= 1 && i <= l.gate.perKey && i <= l.maxInFlight
    requires l.gate.global.Some? ==> i <= l.gate.global.value
    ensures Leads(l, START, Queue(l.rate, key, i), s, key, 0, 0.0, TimeOf(l.rate, i))
    ensures Line(s, key, 0, i, AfterQueue(l.rate, key, i))
    decreases i
  {
    if i == 0 {
      s := START;
    } else {
      var before := Queues(l, key, i - 1);
      QueueIsFull(l.rate, key, i - 1);
      PeriodEarnsOne(l.rate);
      var at := TimeOf(l.rate, i - 1);
      s := Enters(l, before, key, 0, i - 1, AfterQueue(l.rate, key, i - 1), l.rate.burst, at);
      Later(Enter(i - 1, key, at), at, at, TimeOf(l.rate, i));
      Then(l, START, Queue(l.rate, key, i - 1), before, Enter(i - 1, key, at), s, key, 0, 0, 0.0, at,
           TimeOf(l.rate, i));
    }
  }

  lemma {:induction false} Later(events: seq<Event>, from: real, to: real, later: real)
    requires to <= later && Timely(events, from, to)
    ensures Timely(events, from, later)
    decreases |events|
  {
    if events != [] { Later(events[1..], events[0].at, to, later); }
  }

  /** The waiting ones from `lo` to `m - 1` are served, all at one instant. */
  function Release(lo: nat, m: nat, at: real): seq<Event>
    decreases m - lo
  {
    if lo >= m then [] else Serve(lo, at) + Release(lo + 1, m, at)
  }

  lemma {:induction false} Releases(l: Limits, s: System, key: Key, lo: nat, m: nat,
                                    buckets: JsMap<RateLimiting.Bucket>, at: real) returns (s': System)
    requires Line(s, key, lo, m, buckets)
    ensures Leads(l, s, Release(lo, m, at), s', key, m - lo, at, at) && Line(s', key, m, m, buckets)
    decreases m - lo
  {
    if lo == m {
      s' := s;
    } else {
      var s1 := Serves(l, s, key, lo, m, buckets, at);
      s' := Releases(l, s1, key, lo + 1, m, buckets, at);
      Then(l, s, Serve(lo, at), s1, Release(lo + 1, m, at), s', key, 1, m - lo - 1, at, at, at);
    }
  }

  /** As many requests as there are tokens, one after the other at the same instant. */
  function Burst(key: Key, m: nat, level: nat, at: real): seq<Event>
    decreases level
  {
    if level == 0 then [] else Enter(m, key, at) + Serve(m, at) + Burst(key, m + 1, level - 1, at)
  }

  lemma {:induction false} Bursts(l: Limits, s: System, key: Key, m: nat, buckets: JsMap<RateLimiting.Bucket>,
                                  level: nat, at: real) returns (s': System)
    requires Line(s, key, m, m, buckets) && Holds(l.rate, buckets, key, level, at)
    requires l.rate.maxEntries >= 1 && l.gate.perKey >= 1 && l.maxInFlight >= 1
    requires l.gate.global.Some? ==> l.gate.global.value >= 1
    requires level <= l.rate.burst
    ensures Leads(l, s, Burst(key, m, level, at), s', key, level, at, at)
    decreases level
  {
    if level == 0 {
      s' := s;
    } else {
      var s1 := Enters(l, s, key, m, m, buckets, level, at);
      var left := Only(key, RateLimiting.Bucket(level as real - 1.0, at));
      var s2 := Serves(l, s1, key, m, m + 1, left, at);
      Then(l, s, Enter(m, key, at), s1, Serve(m, at), s2, key, 0, 1, at, at, at);
      SpentOne(l.rate, key, level, at);
      s' := Bursts(l, s2, key, m + 1, left, level - 1, at);
      Then(l, s, Enter(m, key, at) + Serve(m, at), s2, Burst(key, m + 1, level - 1, at), s', key, 1, level - 1, at, at,
           at);
    }
  }

  lemma SpentOne(c: RateLimiting.Config, key: Key, level: nat, at: real)
    requires 1 <= level <= c.burst
    ensures Holds(c, Only(key, RateLimiting.Bucket(level as real - 1.0, at)), key, level - 1, at)
  {
    assert RateLimiting.Earned(c, 0.0) == 0.0;
  }

  // ----- nobody else asks

  predicate ArrivesAs(e: Event, key: Key) {
    e.Moves? && e.e.Arrives? ==> e.e.key == key
  }

  ghost predicate OnlyOf(events: seq<Event>, key: Key) {
    forall i :: 0 <= i < |events| ==> ArrivesAs(events[i], key)
  }

  lemma {:induction false} ReleaseOnlyOf(lo: nat, m: nat, at: real, key: Key)
    ensures OnlyOf(Release(lo, m, at), key)
    decreases m - lo
  {
    if lo < m { ReleaseOnlyOf(lo + 1, m, at, key); }
  }

  lemma {:induction false} BurstOnlyOf(key: Key, m: nat, level: nat, at: real)
    ensures OnlyOf(Burst(key, m, level, at), key)
    decreases level
  {
    if level > 0 { BurstOnlyOf(key, m + 1, level - 1, at); }
  }

  lemma {:induction false} NobodyElse(l: Limits, s: System, events: seq<Event>, key: Key)
    requires OnlyOf(events, key) && forall id :: id in s.server.requests ==> s.server.requests[id].key == key
    ensures forall i :: 0 <= i < |Calls(l, s, events)| ==> Calls(l, s, events)[i].key == key
    decreases |events|
  {
    if events != [] {
      assert ArrivesAs(events[0], key);
      NobodyElse(l, Step(l, s, events[0]), events[1..], key);
    }
  }

  lemma {:induction false} NoOthers(calls: seq<RateLimiting.Call>, key: Key)
    requires forall i :: 0 <= i < |calls| ==> calls[i].key == key
    ensures RateLimitingRuns.Others(calls, key) == {}
  {
    assert forall k :: k in RateLimitingRuns.Keys(calls) ==> k == key;
  }

  /** For every setting and every number of slots in use: a run in which a window of no length at all sees a whole burst
      of handlers start and one more for each of those slots, with nothing between limiter and gate and no other key. */
  lemma LimitIsReached(l: Limits, key: Key, slots: nat) returns (before: seq<Event>, events: seq<Event>, at: real)
    requires l.rate.maxEntries >= 1 && 1 <= Slots(l) && slots <= Slots(l)
    ensures Timely(before, 0.0, at) && Timely(events, at, at)
    ensures var s := Run(l, START, before);
      && SlotAwaiters(s, key) == {} && RateLimitingRuns.Others(Calls(l, s, events), key) == {}
      && Starts(l, s, events, key) == l.rate.burst + slots
  {
    at := TimeOf(l.rate, slots);
    before := Queue(l.rate, key, slots);
    var s := Queues(l, key, slots);
    var buckets := AfterQueue(l.rate, key, slots);
    var s1 := Releases(l, s, key, 0, slots, buckets, at);
    QueueIsFull(l.rate, key, slots);
    var s2 := Bursts(l, s1, key, slots, buckets, l.rate.burst, at);
    var release, burst := Release(0, slots, at), Burst(key, slots, l.rate.burst, at);
    events := release + burst;
    Then(l, s, release, s1, burst, s2, key, slots, l.rate.burst, at, at, at);
    ReleaseOnlyOf(0, slots, at, key);
    BurstOnlyOf(key, slots, l.rate.burst, at);
    NobodyElse(l, s, events, key);
    NoOthers(Calls(l, s, events), key);
  }

  // ----- the exact condition

  /** A window that opens after a run, in which fewer than `maxEntries` other keys ask. */
  ghost predicate Window(l: Limits, before: seq<Event>, events: seq<Event>, key: Key, begin: real, from: real,
                         to: real) {
    && Timely(before, begin, from) && Timely(events, from, to)
    && |RateLimitingRuns.Others(Calls(l, Run(l, START, before), events), key)| < l.rate.maxEntries
  }

  ghost predicate KeepsRate(l: Limits, before: seq<Event>, events: seq<Event>, key: Key, from: real, to: real) {
    Starts(l, Run(l, START, before), events, key) as real
    <= l.rate.burst as real + RateLimiting.Earned(l.rate, to - from)
  }

  lemma {:induction false} NoneStarts(l: Limits, s: System, events: seq<Event>, key: Key)
    requires C.ServerOk(l.gate, l.maxInFlight, s.server) && Slots(l) == 0
    ensures Starts(l, s, events, key) == 0
    decreases |events|
  {
    if events != [] {
      NobodyPrepares(l, s, IdOf(events[0]), key);
      ServerStepOk(l, s, events[0]);
      NoneStarts(l, Step(l, s, events[0]), events[1..], key);
    }
  }

  lemma NobodyPrepares(l: Limits, s: System, id: nat, key: Key)
    requires C.ServerOk(l.gate, l.maxInFlight, s.server) && Slots(l) == 0
    ensures !Prepares(s, id, key)
  {
    PreparersAreBounded(l, s, key);
    assert id !in Preparers(s, key);
  }

  /** The handlers of a key keep to its rate in every window exactly when the settings leave it no slot. */
  lemma RateHoldsIffNoSlot(l: Limits, key: Key)
    requires l.rate.maxEntries >= 1
    ensures (forall before, events, begin, from, to :: Window(l, before, events, key, begin, from, to) ==>
               KeepsRate(l, before, events, key, from, to))
      <==> Slots(l) == 0
  {
    if Slots(l) == 0 {
      forall before, events, begin, from, to | Window(l, before, events, key, begin, from, to)
        ensures KeepsRate(l, before, events, key, from, to)
      {
        NoSlotKeepsRate(l, before, events, key, begin, from, to);
      }
    } else {
      var before, events, at := LimitIsReached(l, key, 1);
      assert RateLimiting.Earned(l.rate, 0.0) == 0.0;
      assert Window(l, before, events, key, 0.0, at, at) && !KeepsRate(l, before, events, key, at, at);
    }
  }

  lemma NoSlotKeepsRate(l: Limits, before: seq<Event>, events: seq<Event>, key: Key, begin: real, from: real, to: real)
    requires Slots(l) == 0 && Timely(events, from, to)
    ensures KeepsRate(l, before, events, key, from, to)
  {
    StartIsOk(l, begin);
    ServerStaysOk(l, START, before);
    NoneStarts(l, Run(l, START, before), events, key);
    TimelyForward(events, from, to);
    RateLimiting.EarnedGrows(l.rate, to - from);
  }

  lemma {:induction false} TimelyForward(events: seq<Event>, from: real, to: real)
    requires Timely(events, from, to)
    ensures from <= to
    decreases |events|
  {
    if events != [] { TimelyForward(events[1..], events[0].at, to); }
  }
}
