/** The throttle on failed authentications (`packages/server/src/limits.ts`): a fixed window per source address. */
module FailureThrottling {
  import opened Arithmetic
  import opened JsMaps
  import opened Wrappers
  import opened RateLimiting

  datatype Entry = Entry(count: int, windowStart: real)

  datatype ThrottleSettings = ThrottleSettings(maxFailures: int, windowMs: real, maxEntries: nat)

  /** The server configures positive limits. */
  type Throttle = t: ThrottleSettings | t.maxFailures >= 1 && t.windowMs > 0.0 witness ThrottleSettings(1, 1.0, 1)

  /** The window of the source is over. */
  predicate Expired(t: Throttle, e: Entry, now: real) { now - e.windowStart >= t.windowMs }

  function SecondsBlocked(t: Throttle, m: JsMap<Entry>, source: Key, now: real): int {
    match Get(m, source)
    case None => 0
    case Some(e) =>
      if Expired(t, e, now) || e.count < t.maxFailures then 0
      else MaxInt(1, Ceil((t.windowMs - (now - e.windowStart)) / 1000.0))
  }

  /** Looking at a source whose window is over forgets it. */
  function AfterLook(t: Throttle, m: JsMap<Entry>, source: Key, now: real): JsMap<Entry> {
    match Get(m, source)
    case None => m
    case Some(e) => if Expired(t, e, now) then Delete(m, source) else m
  }

  function AfterFailure(t: Throttle, m: JsMap<Entry>, source: Key, now: real): JsMap<Entry> {
    match Get(m, source)
    case Some(e) =>
      if Expired(t, e, now) then Touch(m, source, Entry(1, now), t.maxEntries)
      else Newest(Set(m, source, Entry(e.count + 1, e.windowStart)), t.maxEntries)
    case None => Touch(m, source, Entry(1, now), t.maxEntries)
  }

  class FailureThrottle {
    var entries: JsMap<Entry>
    const options: Throttle

    ghost predicate Valid()
      reads this
    {
      JsMaps.Valid(entries) && Size(entries) <= options.maxEntries
    }

    constructor (options: Throttle)
      ensures Valid() && entries == Empty() && this.options == options
    {
      this.options := options;
      entries := Empty();
    }

    method BlockedFor(source: Key, now: real) returns (seconds: int)
      requires Valid()
      modifies this
      ensures Valid()
      ensures seconds == SecondsBlocked(options, old(entries), source, now)
      ensures entries == AfterLook(options, old(entries), source, now)
    {
      var entry := Get(entries, source);
      if entry.None? {
        return 0;
      }
      var elapsed := now - entry.value.windowStart;
      if elapsed >= options.windowMs {
        DeleteValid(entries, source);
        WithoutKey(entries.order, source);
        entries := Delete(entries, source);
        return 0;
      }
      var left := MaxInt(1, Ceil((options.windowMs - elapsed) / 1000.0));
      return if entry.value.count >= options.maxFailures then left else 0;
    }

    method RecordFailure(source: Key, now: real)
      requires Valid()
      modifies this
      ensures Valid()
      ensures entries == AfterFailure(options, old(entries), source, now)
    {
      var entry := Get(entries, source);
      if entry.None? || now - entry.value.windowStart >= options.windowMs {
        DeleteValid(entries, source);
        entries := Delete(entries, source);
        SetValid(entries, source, Entry(1, now));
        entries := Set(entries, source, Entry(1, now));
      } else {
        SetValid(entries, source, entry.value.(count := entry.value.count + 1));
        entries := Set(entries, source, entry.value.(count := entry.value.count + 1));
      }
      ghost var all := entries;
      while Size(entries) > options.maxEntries
        invariant JsMaps.Valid(entries)
        invariant Newest(entries, options.maxEntries) == Newest(all, options.maxEntries)
        decreases Size(entries)
      {
        DeleteValid(entries, entries.order[0]);
        entries := Delete(entries, entries.order[0]);
      }
    }
  }

  // ----- what a blocked source is told

  /** A source is blocked exactly while a window of its own is open and has all the failures it may have; waiting for
      the seconds it is told is enough if nothing is recorded meanwhile, and one second less, if that is any, is not. */
  lemma BlockedExactly(t: Throttle, m: JsMap<Entry>, source: Key, now: real, later: real)
    requires now <= later
    ensures var seconds := SecondsBlocked(t, m, source, now);
      && (seconds > 0 <==> source in m.values && m.values[source].count >= t.maxFailures
                           && now < m.values[source].windowStart + t.windowMs)
      && seconds >= 0
      && (seconds > 0 && later >= now + seconds as real * 1000.0 ==> SecondsBlocked(t, m, source, later) == 0)
      && (seconds > 1 && later <= now + (seconds - 1) as real * 1000.0 ==> SecondsBlocked(t, m, source, later) > 0)
  {
  }

  // ----- the order of the entries

  /** Entries stand in the order in which their windows started, none of them in the future. */
  ghost predicate OldestFirst(m: JsMap<Entry>, now: real) {
    && JsMaps.Valid(m)
    && (forall i, j :: 0 <= i < j < |m.order| ==> m.values[m.order[i]].windowStart <= m.values[m.order[j]].windowStart)
    && (forall k :: k in m.values ==> m.values[k].windowStart <= now && m.values[k].count >= 1)
  }

  /** `w` is `s` without its element at `at` (or `s` itself, cut short at `at`). */
  ghost predicate Skips(w: seq<Key>, s: seq<Key>, at: nat) {
    && |w| <= |s| && (at < |w| ==> |w| < |s|)
    && (forall i :: 0 <= i < |w| && i < at ==> w[i] == s[i])
    && (forall i :: at <= i < |w| ==> w[i] == s[i + 1])
  }

  /** Removing a key keeps the order of the others. */
  lemma {:induction false} WithoutSkips(s: seq<Key>, k: Key) returns (at: nat)
    ensures Skips(Without(s, k), s, at)
  {
    if s == [] || s[0] == k {
      at := 0;
    } else {
      at := WithoutSkips(s[1..], k);
      at := at + 1;
    }
  }

  lemma DeleteKeepsOrder(m: JsMap<Entry>, k: Key, now: real)
    requires OldestFirst(m, now)
    ensures OldestFirst(Delete(m, k), now)
  {
    DeleteValid(m, k);
    var at := WithoutSkips(m.order, k);
    var d := Delete(m, k);
    forall i, j | 0 <= i < j < |d.order|
      ensures d.values[d.order[i]].windowStart <= d.values[d.order[j]].windowStart
    {
      assert d.order[i] == m.order[if i < at then i else i + 1];
      assert d.order[j] == m.order[if j < at then j else j + 1];
      assert d.order[i] in d.values && d.order[j] in d.values;
    }
  }

  lemma {:induction false} NewestKeepsOrder(m: JsMap<Entry>, max: nat, now: real)
    requires OldestFirst(m, now)
    ensures OldestFirst(Newest(m, max), now)
    decreases Size(m)
  {
    if Size(m) > max {
      DeleteOldest(m);
      DeleteKeepsOrder(m, m.order[0], now);
      NewestKeepsOrder(Delete(m, m.order[0]), max, now);
    }
  }

  lemma AppendKeepsOrder(m: JsMap<Entry>, k: Key, now: real)
    requires OldestFirst(m, now) && k !in m.values
    ensures OldestFirst(Set(m, k, Entry(1, now)), now)
  {
    var s := Set(m, k, Entry(1, now));
    SetValid(m, k, Entry(1, now));
    forall i, j | 0 <= i < j < |s.order|
      ensures s.values[s.order[i]].windowStart <= s.values[s.order[j]].windowStart
    {
      assert s.order[i] == m.order[i] && s.order[i] in m.values && s.order[i] != k;
      assert s.order[j] in s.values;
      assert j < |m.order| ==> s.order[j] == m.order[j] && s.order[j] in m.values;
    }
  }

  lemma CountKeepsOrder(m: JsMap<Entry>, k: Key, now: real)
    requires OldestFirst(m, now) && k in m.values
    ensures OldestFirst(Set(m, k, Entry(m.values[k].count + 1, m.values[k].windowStart)), now)
  {
    SetValid(m, k, Entry(m.values[k].count + 1, m.values[k].windowStart));
    assert forall i :: 0 <= i < |m.order| ==> m.order[i] in m.values;
  }

  /** The map stays ordered by window start, so the entry that eviction drops is one whose window is the oldest. */
  lemma FailureKeepsOldestFirst(t: Throttle, m: JsMap<Entry>, source: Key, before: real, now: real)
    requires OldestFirst(m, before) && before <= now
    ensures OldestFirst(AfterFailure(t, m, source, now), now)
  {
    if source in m.values && !Expired(t, m.values[source], now) {
      RecountKeepsOrder(m, source, t.maxEntries, now);
    } else {
      ReopenKeepsOrder(m, source, t.maxEntries, now);
    }
  }

  lemma LookKeepsOldestFirst(t: Throttle, m: JsMap<Entry>, source: Key, before: real, now: real)
    requires OldestFirst(m, before) && before <= now
    ensures OldestFirst(AfterLook(t, m, source, now), now)
  {
    DeleteKeepsOrder(m, source, now);
  }

  lemma RecountKeepsOrder(m: JsMap<Entry>, source: Key, max: nat, now: real)
    requires OldestFirst(m, now) && source in m.values
    ensures var e := m.values[source];
      OldestFirst(Newest(Set(m, source, Entry(e.count + 1, e.windowStart)), max), now)
  {
    CountKeepsOrder(m, source, now);
    NewestKeepsOrder(Set(m, source, Entry(m.values[source].count + 1, m.values[source].windowStart)), max, now);
  }

  lemma ReopenKeepsOrder(m: JsMap<Entry>, source: Key, max: nat, now: real)
    requires OldestFirst(m, now)
    ensures OldestFirst(Touch(m, source, Entry(1, now), max), now)
  {
    DeleteKeepsOrder(m, source, now);
    DeleteValid(m, source);
    AppendKeepsOrder(Delete(m, source), source, now);
    NewestKeepsOrder(Set(Delete(m, source), source, Entry(1, now)), max, now);
  }

  // ----- runs

  /** The server looks at a source before it checks the credentials, and records the failure afterwards: `passes` counts
      the requests of a source that were let through and have not been judged. */
  datatype State = State(entries: JsMap<Entry>, passes: map<Key, nat>)

  datatype Event =
    | Look(source: Key, at: real)
    | Fail(source: Key, at: real)
    | Succeed(source: Key, at: real)

  function PassesOf(s: State, source: Key): nat {
    if source in s.passes then s.passes[source] else 0
  }

  /** A verdict without a request that is waiting for one changes nothing. */
  function Step(t: Throttle, s: State, e: Event): State {
    match e
    case Look(source, at) =>
      State(AfterLook(t, s.entries, source, at),
            if SecondsBlocked(t, s.entries, source, at) == 0 then s.passes[source := PassesOf(s, source) + 1]
            else s.passes)
    case Fail(source, at) =>
      if PassesOf(s, source) == 0 then s
      else State(AfterFailure(t, s.entries, source, at), s.passes[source := PassesOf(s, source) - 1])
    case Succeed(source, _) =>
      if PassesOf(s, source) == 0 then s
      else s.(passes := s.passes[source := PassesOf(s, source) - 1])
  }

  /** The event records a failure of `source`. */
  predicate Records(s: State, e: Event, source: Key) {
    e.Fail? && e.source == source && PassesOf(s, source) > 0
  }

  function Run(t: Throttle, s: State, events: seq<Event>): State
    decreases |events|
  {
    if events == [] then s else Run(t, Step(t, s, events[0]), events[1..])
  }

  /** Failures of `source` recorded in the half-open interval of one window length that starts at `from`. */
  function FailuresIn(t: Throttle, s: State, events: seq<Event>, source: Key, from: real): nat
    decreases |events|
  {
    if events == [] then 0
    else
      var e := events[0];
      (if Records(s, e, source) && from <= e.at < from + t.windowMs then 1 else 0)
      + FailuresIn(t, Step(t, s, e), events[1..], source, from)
  }

  /** The clock never goes back, no failure of another source evicts `source`, and at most `most` of its requests are
      between the look and the verdict at any time. */
  ghost predicate Fair(t: Throttle, s: State, events: seq<Event>, source: Key, now: real, most: nat)
    decreases |events|
  {
    PassesOf(s, source) <= most
    && (events == [] ||
        (var s' := Step(t, s, events[0]);
         && now <= events[0].at
         && (source in s.entries.values && !(events[0].Look? && events[0].source == source) ==>
               source in s'.entries.values)
         && (Records(s, events[0], source) ==> source in s'.entries.values)
         && Fair(t, s', events[1..], source, events[0].at, most)))
  }

  /** No window sees more failures than the limit and the requests that passed before it was reached. */
  ghost predicate WindowHolds(t: Throttle, s: State, source: Key, now: real, most: nat) {
    && JsMaps.Valid(s.entries)
    && (source in s.entries.values ==>
          && s.entries.values[source].count >= 1 && s.entries.values[source].windowStart <= now
          && s.entries.values[source].count + PassesOf(s, source) <= t.maxFailures + most - 1)
  }

  lemma LookAtSource(t: Throttle, m: JsMap<Entry>, looked: Key, at: real, source: Key)
    requires JsMaps.Valid(m)
    ensures var m' := AfterLook(t, m, looked, at);
      && JsMaps.Valid(m')
      && (source in m'.values ==> source in m.values && m'.values[source] == m.values[source])
      && (source in m.values && source !in m'.values ==> source == looked && Expired(t, m.values[source], at))
  {
    DeleteValid(m, looked);
  }

  lemma CountAt(m: JsMap<Entry>, k: Key, e: Entry, max: nat, x: Key)
    requires JsMaps.Valid(m) && k in m.values
    ensures var m' := Newest(Set(m, k, e), max);
      JsMaps.Valid(m') && (x in m'.values ==> x in m.values && m'.values[x] == if x == k then e else m.values[x])
  {
    SetValid(m, k, e);
    NewestValid(Set(m, k, e), max);
  }

  lemma OpenAt(m: JsMap<Entry>, k: Key, e: Entry, max: nat, x: Key)
    requires JsMaps.Valid(m)
    ensures var m' := Touch(m, k, e, max);
      && JsMaps.Valid(m')
      && (x in m'.values && x == k ==> m'.values[x] == e)
      && (x in m'.values && x != k ==> x in m.values && m'.values[x] == m.values[x])
  {
    TouchValid(m, k, e, max);
  }

  lemma FailureAtOther(t: Throttle, m: JsMap<Entry>, failed: Key, at: real, source: Key)
    requires JsMaps.Valid(m) && source != failed
    ensures var m' := AfterFailure(t, m, failed, at);
      JsMaps.Valid(m') && (source in m'.values ==> source in m.values && m'.values[source] == m.values[source])
  {
    if failed in m.values && !Expired(t, m.values[failed], at) {
      CountAt(m, failed, Entry(m.values[failed].count + 1, m.values[failed].windowStart), t.maxEntries, source);
    } else {
      OpenAt(m, failed, Entry(1, at), t.maxEntries, source);
    }
  }

  /** The entry a failure leaves: one more in the window, or the first of a new one. */
  function Counted(t: Throttle, m: JsMap<Entry>, source: Key, at: real): Entry {
    if source in m.values && !Expired(t, m.values[source], at)
    then Entry(m.values[source].count + 1, m.values[source].windowStart) else Entry(1, at)
  }

  lemma FailureAtSource(t: Throttle, m: JsMap<Entry>, source: Key, at: real)
    requires JsMaps.Valid(m)
    ensures var m' := AfterFailure(t, m, source, at);
      JsMaps.Valid(m') && (source in m'.values ==> m'.values[source] == Counted(t, m, source, at))
  {
    if source in m.values && !Expired(t, m.values[source], at) {
      CountAt(m, source, Counted(t, m, source, at), t.maxEntries, source);
    } else {
      assert AfterFailure(t, m, source, at) == Touch(m, source, Entry(1, at), t.maxEntries);
      OpenAt(m, source, Entry(1, at), t.maxEntries, source);
    }
  }

  /** What one event does to the entry of `source`. */
  lemma StepAtSource(t: Throttle, s: State, e: Event, source: Key)
    requires JsMaps.Valid(s.entries)
    ensures var s' := Step(t, s, e);
      && JsMaps.Valid(s'.entries)
      && (source in s'.entries.values && !Records(s, e, source) ==>
            source in s.entries.values && s'.entries.values[source] == s.entries.values[source])
      && (source in s'.entries.values && Records(s, e, source) ==>
            s'.entries.values[source] == Counted(t, s.entries, source, e.at))
      && (source in s.entries.values && source !in s'.entries.values && e.Look? ==>
            Expired(t, s.entries.values[source], e.at))
  {
    match e
    case Look(looked, at) => LookAtSource(t, s.entries, looked, at, source);
    case Fail(failed, at) =>
      if failed == source {
        FailureAtSource(t, s.entries, source, at);
      } else {
        FailureAtOther(t, s.entries, failed, at, source);
      }
    case Succeed(_, _) =>
  }

  lemma WindowStep(t: Throttle, s: State, e: Event, source: Key, now: real, most: nat)
    requires most >= 1 && WindowHolds(t, s, source, now, most) && now <= e.at
    requires PassesOf(s, source) <= most && PassesOf(Step(t, s, e), source) <= most
    ensures WindowHolds(t, Step(t, s, e), source, e.at, most)
  {
    StepAtSource(t, s, e, source);
  }

  /** How many more failures of `source` the interval from `from` can still take. */
  function Room(t: Throttle, s: State, source: Key, now: real, from: real, most: nat): int {
    var perWindow := t.maxFailures + most - 1;
    if now >= from + t.windowMs then 0
    else if now < from then 2 * perWindow - 1
    else if source !in s.entries.values then perWindow
    else if s.entries.values[source].windowStart >= from then perWindow - s.entries.values[source].count
    else 2 * perWindow - s.entries.values[source].count
  }

  lemma RoomRange(t: Throttle, s: State, source: Key, now: real, from: real, most: nat)
    requires most >= 1 && WindowHolds(t, s, source, now, most)
    ensures 0 <= Room(t, s, source, now, from, most) <= 2 * (t.maxFailures + most - 1) - 1
  {
  }

  lemma RoomStep(t: Throttle, s: State, e: Event, source: Key, now: real, from: real, most: nat)
    requires most >= 1 && WindowHolds(t, s, source, now, most) && now <= e.at
    requires PassesOf(s, source) <= most && PassesOf(Step(t, s, e), source) <= most
    requires source in s.entries.values && !(e.Look? && e.source == source) ==> source in Step(t, s, e).entries.values
    requires Records(s, e, source) ==> source in Step(t, s, e).entries.values
    ensures Room(t, Step(t, s, e), source, e.at, from, most)
      + (if Records(s, e, source) && from <= e.at < from + t.windowMs then 1 else 0)
      <= Room(t, s, source, now, from, most)
  {
    StepAtSource(t, s, e, source);
    WindowStep(t, s, e, source, now, most);
    RoomRange(t, Step(t, s, e), source, e.at, from, most);
  }

  lemma {:induction false} FailuresFitRoom(t: Throttle, s: State, events: seq<Event>, source: Key, now: real,
                                           from: real, most: nat)
    requires most >= 1 && WindowHolds(t, s, source, now, most) && Fair(t, s, events, source, now, most)
    ensures FailuresIn(t, s, events, source, from) <= Room(t, s, source, now, from, most)
    decreases |events|
  {
    if events == [] {
      RoomRange(t, s, source, now, from, most);
    } else {
      var s' := Step(t, s, events[0]);
      assert PassesOf(s', source) <= most;
      WindowStep(t, s, events[0], source, now, most);
      RoomStep(t, s, events[0], source, now, from, most);
      FailuresFitRoom(t, s', events[1..], source, events[0].at, from, most);
    }
  }

  const START := State(Empty(), map[])

  /** With at most `most` requests of a source in flight between look and verdict, any interval of one window length
      sees at most `2 * (maxFailures + most - 1) - 1` of its failures; judged one at a time, `2 * maxFailures - 1`. */
  lemma FailuresPerWindow(t: Throttle, events: seq<Event>, source: Key, now: real, from: real, most: nat)
    requires most >= 1 && Fair(t, START, events, source, now, most)
    ensures FailuresIn(t, START, events, source, from) <= 2 * (t.maxFailures + most - 1) - 1
    ensures most == 1 ==> FailuresIn(t, START, events, source, from) <= 2 * t.maxFailures - 1
  {
    FailuresFitRoom(t, START, events, source, now, from, most);
    RoomRange(t, START, source, now, from, most);
  }

  /** The server awaits the credential check between look and record, so the limit of failures alone bounds nothing:
      any number of requests that looked before the first was judged is recorded, all in one window. */
  lemma ConcurrentLooksOvershoot(t: Throttle, k: Key, n: nat)
    ensures FailuresIn(t, START, seq(n, i => Look(k, 0.0)) + seq(n, i => Fail(k, 0.0)), k, 0.0) == n
  {
    FailuresAfterLooks(t, START, n, n, k);
  }

  lemma {:induction false} FailuresAfterLooks(t: Throttle, s: State, looks: nat, fails: nat, k: Key)
    requires s.entries == Empty() && PassesOf(s, k) + looks >= fails
    ensures FailuresIn(t, s, seq(looks, i => Look(k, 0.0)) + seq(fails, i => Fail(k, 0.0)), k, 0.0) == fails
    decreases looks
  {
    var events := seq(looks, i => Look(k, 0.0)) + seq(fails, i => Fail(k, 0.0));
    if looks == 0 {
      assert events == seq(fails, i => Fail(k, 0.0));
      FailuresOfPassed(t, s, fails, k);
    } else {
      assert events[0] == Look(k, 0.0);
      assert events[1..] == seq(looks - 1, i => Look(k, 0.0)) + seq(fails, i => Fail(k, 0.0));
      FailuresAfterLooks(t, Step(t, s, events[0]), looks - 1, fails, k);
    }
  }

  /** Requests that were let through are recorded whatever the throttle says by then. */
  lemma {:induction false} FailuresOfPassed(t: Throttle, s: State, n: nat, k: Key)
    requires PassesOf(s, k) >= n
    ensures FailuresIn(t, s, seq(n, i => Fail(k, 0.0)), k, 0.0) == n
    decreases n
  {
    if n > 0 {
      var events := seq(n, i => Fail(k, 0.0));
      assert events[1..] == seq(n - 1, i => Fail(k, 0.0));
      FailuresOfPassed(t, Step(t, s, events[0]), n - 1, k);
    }
  }
}
