/** When the failure throttle (`packages/server/src/limits.ts`) forgets a source: its map keeps the order in which
    windows opened, so a source stays as long as fewer than `maxEntries` others have failures behind its own. */
module FailureThrottlingEviction {
  import opened JsMaps
  import opened RateLimitingRuns
  import opened FailureThrottling

  /** Every key behind `source` is one of `others`. */
  ghost predicate Placed(order: seq<Key>, source: Key, others: set<Key>) {
    source in order ==> exists older, newer :: SplitsAt(order, source, older, newer) && Distinct(newer) <= others
  }

  ghost predicate SplitsAt(order: seq<Key>, source: Key, older: seq<Key>, newer: seq<Key>) {
    order == older + [source] + newer
  }

  /** Cutting the order to its newest `max` keys leaves the source in its place. */
  lemma CutKeeps(order: seq<Key>, source: Key, others: set<Key>, max: nat)
    requires NoDuplicates(order) && Placed(order, source, others) && |others| < max
    ensures source in order ==> source in Suffix(order, max)
    ensures Placed(Suffix(order, max), source, others)
  {
    if source in order {
      var older, newer :| SplitsAt(order, source, older, newer) && Distinct(newer) <= others;
      MidDistinct(order, source, older, newer);
      DistinctSize(newer);
      SubsetSize(Distinct(newer), others);
      SuffixKeeps(order, older, source, newer, max);
      var kept := if |order| <= max then older else older[|order| - max..];
      assert SplitsAt(Suffix(order, max), source, kept, newer);
      assert (kept + [source] + newer)[|kept|] == source;
    }
  }

  /** Moving another key to the end puts it behind the source. */
  lemma MoveKeeps(order: seq<Key>, source: Key, others: set<Key>, k: Key)
    requires NoDuplicates(order) && Placed(order, source, others) && k != source && k in others
    ensures source in order <==> source in Without(order, k) + [k]
    ensures Placed(Without(order, k) + [k], source, others)
  {
    WithoutKey(order, k);
    if source in order {
      var older, newer :| SplitsAt(order, source, older, newer) && Distinct(newer) <= others;
      var older', newer' := MovedToEnd(order, k, source, older, newer);
      assert SplitsAt(Without(order, k) + [k], source, older', newer');
      assert forall x :: x in newer ==> x in Distinct(newer);
    }
  }

  /** Moving the source itself to the end leaves nothing behind it. */
  lemma OwnMove(order: seq<Key>, source: Key, others: set<Key>)
    ensures Placed(Without(order, source) + [source], source, others)
  {
    var older := Without(order, source);
    assert older + [source] == older + [source] + [];
    assert SplitsAt(older + [source], source, older, []);
  }

  /** Deleting another key moves nothing behind the source. */
  lemma DeleteKeeps(order: seq<Key>, source: Key, others: set<Key>, k: Key)
    requires NoDuplicates(order) && Placed(order, source, others) && k != source
    ensures source in order <==> source in Without(order, k)
    ensures Placed(Without(order, k), source, others)
  {
    WithoutKey(order, k);
    if source in order {
      var older, newer :| SplitsAt(order, source, older, newer) && Distinct(newer) <= others;
      MidDistinct(order, source, older, newer);
      WithoutMid(k, source, older, newer);
      WithoutKey(newer, k);
      if k in older {
        assert SplitsAt(Without(order, k), source, Without(older, k), newer);
      } else {
        assert SplitsAt(Without(order, k), source, older, Without(newer, k));
        assert forall x :: x in Without(newer, k) ==> x in Distinct(newer);
      }
    }
  }

  // ----- one event

  ghost predicate Kept(m: JsMap<Entry>, m': JsMap<Entry>, source: Key, others: set<Key>) {
    && JsMaps.Valid(m') && Placed(m'.order, source, others)
    && (source in m.values ==> source in m'.values)
  }

  /** The failure counts in a window that is still open. */
  predicate Counts(t: Throttle, m: JsMap<Entry>, failed: Key, at: real) {
    failed in m.values && !Expired(t, m.values[failed], at)
  }

  lemma HowFailureChanges(t: Throttle, m: JsMap<Entry>, failed: Key, at: real)
    ensures AfterFailure(t, m, failed, at) ==
      if Counts(t, m, failed, at)
      then Newest(Set(m, failed, Entry(m.values[failed].count + 1, m.values[failed].windowStart)), t.maxEntries)
      else Touch(m, failed, Entry(1, at), t.maxEntries)
  {
  }

  lemma FailureKeeps(t: Throttle, m: JsMap<Entry>, failed: Key, at: real, source: Key, others: set<Key>)
    requires JsMaps.Valid(m) && Placed(m.order, source, others) && |others| < t.maxEntries
    requires failed == source || failed in others
    ensures Kept(m, AfterFailure(t, m, failed, at), source, others)
    ensures failed == source ==> source in AfterFailure(t, m, failed, at).values
  {
    HowFailureChanges(t, m, failed, at);
    if Counts(t, m, failed, at) {
      CountKeeps(m, failed, Entry(m.values[failed].count + 1, m.values[failed].windowStart), t.maxEntries, source,
                 others);
    } else {
      OpenKeeps(m, failed, Entry(1, at), t.maxEntries, source, others);
    }
  }

  lemma CountKeeps(m: JsMap<Entry>, failed: Key, e: Entry, max: nat, source: Key, others: set<Key>)
    requires JsMaps.Valid(m) && Placed(m.order, source, others) && |others| < max && failed in m.values
    ensures Kept(m, Newest(Set(m, failed, e), max), source, others)
    ensures failed == source ==> source in Newest(Set(m, failed, e), max).values
  {
    SetValid(m, failed, e);
    NewestValid(Set(m, failed, e), max);
    CutKeeps(m.order, source, others, max);
  }

  lemma OpenKeeps(m: JsMap<Entry>, failed: Key, e: Entry, max: nat, source: Key, others: set<Key>)
    requires JsMaps.Valid(m) && Placed(m.order, source, others) && |others| < max
    requires failed == source || failed in others
    ensures Kept(m, Touch(m, failed, e, max), source, others)
    ensures failed == source ==> source in Touch(m, failed, e, max).values
  {
    TouchValid(m, failed, e, max);
    var moved := Without(m.order, failed) + [failed];
    MovedNoDuplicates(m.order, failed, |m.order| + 1);
    WithoutKey(m.order, failed);
    if failed == source {
      OwnMove(m.order, source, others);
      assert source in moved;
    } else {
      MoveKeeps(m.order, source, others, failed);
    }
    CutKeeps(moved, source, others, max);
  }

  lemma LookKeeps(t: Throttle, m: JsMap<Entry>, looked: Key, at: real, source: Key, others: set<Key>)
    requires JsMaps.Valid(m) && Placed(m.order, source, others)
    ensures var m' := AfterLook(t, m, looked, at);
      JsMaps.Valid(m') && Placed(m'.order, source, others)
      && (looked != source && source in m.values ==> source in m'.values)
  {
    DeleteValid(m, looked);
    WithoutKey(m.order, looked);
    if looked != source { DeleteKeeps(m.order, source, others, looked); }
  }

  // ----- runs

  /** The clock never goes back, and at most `most` requests of the source are between the look and the verdict. */
  ghost predicate Orderly(t: Throttle, s: State, events: seq<Event>, source: Key, now: real, most: nat)
    decreases |events|
  {
    && PassesOf(s, source) <= most
    && (events == [] ||
        (now <= events[0].at && Orderly(t, Step(t, s, events[0]), events[1..], source, events[0].at, most)))
  }

  /** The other sources that fail during the events, or have a window behind that of `source` when they begin, are
      `others`. */
  ghost predicate OnlyOthers(s: State, events: seq<Event>, source: Key, others: set<Key>) {
    && Placed(s.entries.order, source, others)
    && (forall i :: 0 <= i < |events| && events[i].Fail? && events[i].source != source ==> events[i].source in others)
  }

  lemma StepKeeps(t: Throttle, s: State, e: Event, source: Key, others: set<Key>)
    requires JsMaps.Valid(s.entries) && Placed(s.entries.order, source, others) && |others| < t.maxEntries
    requires e.Fail? && e.source != source ==> e.source in others
    ensures var s' := Step(t, s, e);
      && JsMaps.Valid(s'.entries) && Placed(s'.entries.order, source, others)
      && (source in s.entries.values && !(e.Look? && e.source == source) ==> source in s'.entries.values)
      && (Records(s, e, source) ==> source in s'.entries.values)
  {
    match e
    case Look(looked, at) => LookKeeps(t, s.entries, looked, at, source, others);
    case Fail(failed, at) => FailureKeeps(t, s.entries, failed, at, source, others);
    case Succeed(_, _) =>
  }

  /** With fewer than `maxEntries` other sources, none of the source's windows is evicted. */
  lemma {:induction false} FewOthersAreFair(t: Throttle, s: State, events: seq<Event>, source: Key, now: real,
                                            most: nat, others: set<Key>)
    requires JsMaps.Valid(s.entries) && OnlyOthers(s, events, source, others) && |others| < t.maxEntries
    requires Orderly(t, s, events, source, now, most)
    ensures Fair(t, s, events, source, now, most)
    decreases |events|
  {
    if events != [] {
      var s' := Step(t, s, events[0]);
      StepKeeps(t, s, events[0], source, others);
      assert forall i :: 0 <= i < |events[1..]| ==> events[1..][i] == events[i + 1];
      assert OnlyOthers(s', events[1..], source, others);
      FewOthersAreFair(t, s', events[1..], source, events[0].at, most, others);
    }
  }

  lemma {:induction false} WindowStays(t: Throttle, s: State, events: seq<Event>, source: Key, now: real, most: nat)
    returns (later: real)
    requires most >= 1 && WindowHolds(t, s, source, now, most) && Orderly(t, s, events, source, now, most)
    ensures now <= later && WindowHolds(t, Run(t, s, events), source, later, most)
    ensures events != [] ==> later == events[|events| - 1].at
    ensures events == [] ==> later == now
    decreases |events|
  {
    later := now;
    if events != [] {
      WindowStep(t, s, events[0], source, now, most);
      later := WindowStays(t, Step(t, s, events[0]), events[1..], source, events[0].at, most);
    }
  }

  /** After any run: in events during which fewer than `maxEntries` other sources fail or are behind the source, any
      interval of one window length sees at most `2 * (maxFailures + most - 1) - 1` failures of the source. */
  lemma FailuresPerInterval(t: Throttle, before: seq<Event>, events: seq<Event>, source: Key, begin: real, now: real,
                            from: real, most: nat, others: set<Key>)
    requires most >= 1 && Orderly(t, START, before, source, begin, most)
    requires now == if before == [] then begin else before[|before| - 1].at
    requires Orderly(t, Run(t, START, before), events, source, now, most)
    requires OnlyOthers(Run(t, START, before), events, source, others) && |others| < t.maxEntries
    ensures FailuresIn(t, Run(t, START, before), events, source, from) <= 2 * (t.maxFailures + most - 1) - 1
  {
    var s := Run(t, START, before);
    var later := WindowStays(t, START, before, source, begin, most);
    FewOthersAreFair(t, s, events, source, now, most, others);
    FailuresFitRoom(t, s, events, source, now, from, most);
    RoomRange(t, s, source, now, from, most);
  }
}
