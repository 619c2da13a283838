/** What the failure throttle (`packages/server/src/limits.ts`, `packages/server/src/server.ts`) can keep to when
    several requests of a source are between the look and the verdict: the exact limit of a window, and of any interval
    of its length. */
module FailureThrottlingLimits {
  import opened JsMaps
  import opened FailureThrottling

  /** Failures counted in the throttle's window of `source`. */
  function CountOf(s: State, source: Key): int {
    if source in s.entries.values then s.entries.values[source].count else 0
  }

  // ----- a window never counts more

  lemma {:induction false} CountIsBounded(t: Throttle, s: State, events: seq<Event>, source: Key, now: real, most: nat)
    requires most >= 1 && WindowHolds(t, s, source, now, most) && Fair(t, s, events, source, now, most)
    ensures CountOf(Run(t, s, events), source) <= t.maxFailures + most - 1
    decreases |events|
  {
    if events != [] {
      var s' := Step(t, s, events[0]);
      assert PassesOf(s', source) <= most;
      WindowStep(t, s, events[0], source, now, most);
      CountIsBounded(t, s', events[1..], source, events[0].at, most);
    }
  }

  lemma {:induction false} NothingPasses(t: Throttle, s: State, events: seq<Event>, source: Key, now: real)
    requires JsMaps.Valid(s.entries) && source !in s.entries.values && Fair(t, s, events, source, now, 0)
    ensures CountOf(Run(t, s, events), source) == 0
    decreases |events|
  {
    if events != [] {
      StepAtSource(t, s, events[0], source);
      NothingPasses(t, Step(t, s, events[0]), events[1..], source, events[0].at);
    }
  }

  lemma {:induction false} NothingIsKept(t: Throttle, s: State, events: seq<Event>, source: Key)
    requires t.maxEntries == 0 && s.entries == Empty()
    ensures CountOf(Run(t, s, events), source) == 0
    decreases |events|
  {
    if events != [] {
      NewestValid(Set(Delete(Empty(), events[0].source), events[0].source, Entry(1, events[0].at)), 0);
      NothingIsKept(t, Step(t, s, events[0]), events[1..], source);
    }
  }

  // ----- the run that fills a window

  function Only(k: Key, e: Entry): JsMap<Entry> { JsMap([k], map[k := e]) }

  /** Only `k` was ever seen: `count` failures in the window opened at `start`, `passes` requests not judged. */
  ghost predicate Alone(s: State, k: Key, count: nat, start: real, passes: nat) {
    s.entries == (if count == 0 then Empty() else Only(k, Entry(count, start))) && PassesOf(s, k) == passes
  }

  /** As many requests in flight as allowed, one failing whenever no other can start: the first failure and everything
      before it at `first`, the rest at `later`. */
  function Storm(k: Key, count: nat, passes: nat, most: nat, max: int, first: real, later: real): seq<Event>
    decreases if count < max then max - count else 0, if count < max && passes < most then most - passes else 0, passes
  {
    var at := if count == 0 then first else later;
    if count < max && passes < most then [Look(k, at)] + Storm(k, count, passes + 1, most, max, first, later)
    else if passes > 0 then [Fail(k, at)] + Storm(k, count + 1, passes - 1, most, max, first, later)
    else []
  }

  /** The failures of a storm. */
  function Total(count: nat, passes: nat, most: nat, max: int): int {
    if count < max then max - count + most - 1 else passes
  }

  function Hit(t: Throttle, at: real, from: real): nat {
    if from <= at < from + t.windowMs then 1 else 0
  }

  lemma LookAlone(t: Throttle, s: State, k: Key, count: nat, start: real, passes: nat, at: real)
    requires Alone(s, k, count, start, passes) && count < t.maxFailures && (count > 0 ==> at - start < t.windowMs)
    ensures Alone(Step(t, s, Look(k, at)), k, count, start, passes + 1)
  {
  }

  lemma FailAlone(t: Throttle, s: State, k: Key, count: nat, start: real, passes: nat, at: real)
    requires Alone(s, k, count, start, passes) && passes > 0
    requires t.maxEntries >= 1 && (count > 0 ==> at - start < t.windowMs)
    ensures Alone(Step(t, s, Fail(k, at)), k, count + 1, if count == 0 then at else start, passes - 1)
  {
    assert Without([k], k) == [];
  }

  lemma FairEarlier(t: Throttle, s: State, events: seq<Event>, k: Key, earlier: real, now: real, most: nat)
    requires earlier <= now && Fair(t, s, events, k, now, most)
    ensures Fair(t, s, events, k, earlier, most)
  {
  }

  /** How many of a storm's failures fall into the interval from `from`. */
  function Score(t: Throttle, count: nat, total: nat, first: real, later: real, from: real): nat {
    if total == 0 then 0
    else if count == 0 then Hit(t, first, from) + (if Hit(t, later, from) == 1 then total - 1 else 0)
    else if Hit(t, later, from) == 1 then total else 0
  }

  /** A run that starts with this event and goes on with `rest`. */
  lemma OneEvent(t: Throttle, s: State, e: Event, rest: seq<Event>, k: Key, now: real, from: real, most: nat)
    ensures Run(t, s, [e] + rest) == Run(t, Step(t, s, e), rest)
    ensures FailuresIn(t, s, [e] + rest, k, from)
         == (if Records(s, e, k) then Hit(t, e.at, from) else 0) + FailuresIn(t, Step(t, s, e), rest, k, from)
    ensures now <= e.at && PassesOf(s, k) <= most && Fair(t, Step(t, s, e), rest, k, e.at, most)
      && (k in s.entries.values && !(e.Look? && e.source == k) ==> k in Step(t, s, e).entries.values)
      && (Records(s, e, k) ==> k in Step(t, s, e).entries.values)
      ==> Fair(t, s, [e] + rest, k, now, most)
  {
    assert ([e] + rest)[1..] == rest;
  }

  /** `events` lead from `s` to `s'` with `hits` failures in the interval, and fairly from `now` if what follows is fair
      from `end`. */
  ghost predicate Leads(t: Throttle, s: State, events: seq<Event>, s': State, k: Key, hits: nat, now: real, end: real,
                        from: real, more: seq<Event>, most: nat) {
    && s' == Run(t, s, events)
    && FailuresIn(t, s, events + more, k, from) == hits + FailuresIn(t, s', more, k, from)
    && (Fair(t, s', more, k, end, most) ==> Fair(t, s, events + more, k, now, most))
  }

  lemma LeadsFromEvent(t: Throttle, s: State, e: Event, rest: seq<Event>, s': State, k: Key, hits: nat, next: real,
                       now: real, end: real, from: real, more: seq<Event>, most: nat)
    requires Leads(t, Step(t, s, e), rest, s', k, hits, next, end, from, more, most)
    requires now <= e.at <= next && PassesOf(s, k) <= most && e.source == k
    requires k in s.entries.values && e.Fail? ==> k in Step(t, s, e).entries.values
    requires Records(s, e, k) ==> k in Step(t, s, e).entries.values
    requires !e.Succeed?
    ensures Leads(t, s, [e] + rest, s', k, hits + (if Records(s, e, k) then Hit(t, e.at, from) else 0),
                  now, end, from, more, most)
  {
    assert [e] + rest + more == [e] + (rest + more);
    if Fair(t, s', more, k, end, most) { FairEarlier(t, Step(t, s, e), rest + more, k, e.at, next, most); }
    OneEvent(t, s, e, rest, k, now, from, most);
    OneEvent(t, s, e, rest + more, k, now, from, most);
  }

  lemma {:induction false} StormRuns(t: Throttle, s: State, k: Key, count: nat, passes: nat, most: nat, first: real,
                                     later: real, from: real, more: seq<Event>) returns (s': State)
    requires t.maxEntries >= 1 && 1 <= most && passes <= most && first <= later < first + t.windowMs
    requires Alone(s, k, count, first, passes)
    ensures Alone(s', k, count + Total(count, passes, most, t.maxFailures), first, 0)
    ensures Leads(t, s, Storm(k, count, passes, most, t.maxFailures, first, later), s', k,
                  Score(t, count, Total(count, passes, most, t.maxFailures), first, later, from),
                  if count == 0 then first else later, later, from, more, most)
    decreases if count < t.maxFailures then t.maxFailures - count else 0,
      if count < t.maxFailures && passes < most then most - passes else 0, passes
  {
    var at := if count == 0 then first else later;
    if count < t.maxFailures && passes < most {
      LookAlone(t, s, k, count, first, passes, at);
      s' := StormRuns(t, Step(t, s, Look(k, at)), k, count, passes + 1, most, first, later, from, more);
      LeadsFromEvent(t, s, Look(k, at), Storm(k, count, passes + 1, most, t.maxFailures, first, later), s', k,
                     Score(t, count, Total(count, passes, most, t.maxFailures), first, later, from),
                     at, at, later, from, more, most);
    } else if passes > 0 {
      FailAlone(t, s, k, count, first, passes, at);
      s' := StormRuns(t, Step(t, s, Fail(k, at)), k, count + 1, passes - 1, most, first, later, from, more);
      LeadsFromEvent(t, s, Fail(k, at), Storm(k, count + 1, passes - 1, most, t.maxFailures, first, later), s', k,
                     Score(t, count + 1, Total(count + 1, passes - 1, most, t.maxFailures), first, later, from),
                     later, at, later, from, more, most);
      ScoreOfFail(t, count, passes, most, first, later, from);
    } else {
      s' := s;
      assert [] + more == more;
    }
  }

  lemma ScoreOfFail(t: Throttle, count: nat, passes: nat, most: nat, first: real, later: real, from: real)
    requires 1 <= passes <= most && (count < t.maxFailures ==> passes == most)
    ensures Total(count, passes, most, t.maxFailures) == Total(count + 1, passes - 1, most, t.maxFailures) + 1
    ensures Score(t, count, Total(count, passes, most, t.maxFailures), first, later, from)
         == Score(t, count + 1, Total(count + 1, passes - 1, most, t.maxFailures), first, later, from)
            + Hit(t, if count == 0 then first else later, from)
  {
  }

  // ----- the limits are exact

  /** A fair run with `most` requests in flight that counts `maxFailures + most - 1` failures in one window of the
      throttle. */
  lemma WindowLimitIsReached(t: Throttle, k: Key, most: nat) returns (events: seq<Event>)
    requires t.maxEntries >= 1 && most >= 1
    ensures Fair(t, START, events, k, 0.0, most)
    ensures CountOf(Run(t, START, events), k) == t.maxFailures + most - 1
  {
    events := Storm(k, 0, 0, most, t.maxFailures, 0.0, 0.0);
    var s := StormRuns(t, START, k, 0, 0, most, 0.0, 0.0, 0.0, []);
    assert events + [] == events;
  }

  /** A fair run with at most `most` requests in flight after which a window counts more than `maxFailures`. */
  ghost predicate Breaks(t: Throttle, k: Key, most: nat, events: seq<Event>, now: real) {
    Fair(t, START, events, k, now, most) && CountOf(Run(t, START, events), k) > t.maxFailures
  }

  /** Whatever the setting: the throttle's window of a source never counts more than `maxFailures` in any run with at
      most `most` requests of it in flight if and only if `most` is at most one, unless the throttle remembers
      nobody. */
  lemma WindowLimitIff(t: Throttle, k: Key, most: nat)
    ensures (forall events, now :: !Breaks(t, k, most, events, now)) <==> most <= 1 || t.maxEntries == 0
  {
    if most > 1 && t.maxEntries >= 1 {
      var events := WindowLimitIsReached(t, k, most);
      assert Breaks(t, k, most, events, 0.0);
    } else {
      forall events, now | Fair(t, START, events, k, now, most) ensures !Breaks(t, k, most, events, now) {
        if t.maxEntries == 0 {
          NothingIsKept(t, START, events, k);
        } else if most == 0 {
          NothingPasses(t, START, events, k, now);
        } else {
          CountIsBounded(t, START, events, k, now, 1);
        }
      }
    }
  }

  /** The bound on an interval of one window length is reached too: one failure opens a window just before the interval,
      the others of that window and all of the next fall into it. */
  lemma IntervalLimitIsReached(t: Throttle, k: Key, most: nat) returns (events: seq<Event>, from: real)
    requires t.maxEntries >= 1 && most >= 1
    ensures Fair(t, START, events, k, 0.0, most)
    ensures FailuresIn(t, START, events, k, from) == 2 * (t.maxFailures + most - 1) - 1
  {
    var end := t.windowMs;
    from := end / 2.0;
    var last := Storm(k, 0, 1, most, t.maxFailures, end, end);
    var next := [Look(k, end)] + last;
    events := Storm(k, 0, 0, most, t.maxFailures, 0.0, from) + next;
    var s := StormRuns(t, START, k, 0, 0, most, 0.0, from, from, next);
    var s1 := Step(t, s, Look(k, end));
    WindowEnds(t, s, k, t.maxFailures + most - 1, 0.0, end);
    var s2 := StormRuns(t, s1, k, 0, 1, most, end, end, from, []);
    assert last + [] == last;
    OneEvent(t, s, Look(k, end), last, k, from, from, most);
  }

  lemma WindowEnds(t: Throttle, s: State, k: Key, count: nat, start: real, at: real)
    requires Alone(s, k, count, start, 0) && count > 0 && at - start >= t.windowMs
    ensures Alone(Step(t, s, Look(k, at)), k, 0, at, 1)
  {
    assert Without([k], k) == [];
  }
}
