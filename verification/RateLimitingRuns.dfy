/** Whole-run properties of the in-memory rate limiter: which keys it remembers, and how much it admits in a window. */
module RateLimitingRuns {
  import opened JsMaps
  import opened RateLimiting
  import opened Sequences

  function Keys(calls: seq<Call>): seq<Key> {
    seq(|calls|, i requires 0 <= i < |calls| => calls[i].key)
  }

  function Distinct(keys: seq<Key>): set<Key> {
    set k | k in keys
  }

  /** The distinct keys of a history in the order of their last occurrence. */
  function LastTaken(keys: seq<Key>): seq<Key> {
    if keys == [] then []
    else if keys[0] in keys[1..] then LastTaken(keys[1..])
    else [keys[0]] + LastTaken(keys[1..])
  }

  // ----- the order of the map

  lemma {:induction false} LastTakenKeys(keys: seq<Key>)
    ensures NoDuplicates(LastTaken(keys))
    ensures forall k :: k in LastTaken(keys) <==> k in keys
    ensures |LastTaken(keys)| == |Distinct(keys)|
  {
    if keys != [] {
      var rest := keys[1..];
      assert keys == [keys[0]] + rest;
      LastTakenKeys(rest);
      if keys[0] in rest {
        assert Distinct(keys) == Distinct(rest);
      } else {
        assert Distinct(keys) == {keys[0]} + Distinct(rest);
        assert forall k :: k in LastTaken(keys) <==> k == keys[0] || k in LastTaken(rest);
      }
    }
  }

  lemma {:induction false} LastTakenSnoc(keys: seq<Key>, k: Key)
    ensures LastTaken(keys + [k]) == Without(LastTaken(keys), k) + [k]
  {
    if keys == [] {
    } else {
      var rest := keys[1..];
      assert (keys + [k])[1..] == rest + [k];
      LastTakenSnoc(rest, k);
      LastTakenKeys(rest);
      LastTakenKeys(keys);
      assert keys[0] in rest + [k] <==> keys[0] in rest || keys[0] == k;
      if keys[0] !in rest {
        var l := LastTaken(rest);
        assert LastTaken(keys) == [keys[0]] + l;
        assert LastTaken(keys)[1..] == l;
        WithoutKey(l, keys[0]);
      }
    }
  }

  lemma SuffixAppend(a: seq<Key>, b: seq<Key>, max: nat)
    requires |b| >= max
    ensures Suffix(a + b, max) == Suffix(b, max)
  {
  }

  /** Moving a key to the end of the newest `max` keys gives the newest `max` of the moved order. */
  lemma SuffixTouch(order: seq<Key>, k: Key, max: nat)
    requires NoDuplicates(order)
    ensures Suffix(Without(Suffix(order, max), k) + [k], max) == Suffix(Without(order, k) + [k], max)
  {
    if |order| > max {
      var cut, kept := order[..|order| - max], order[|order| - max..];
      assert cut + kept == order;
      CutTouch(cut, kept, k);
    }
  }

  lemma PartsDistinct(cut: seq<Key>, kept: seq<Key>)
    requires NoDuplicates(cut + kept)
    ensures NoDuplicates(kept) && forall k :: k in cut ==> k !in kept
  {
    var all := cut + kept;
    assert forall i :: 0 <= i < |cut| ==> all[i] == cut[i];
    assert forall i :: 0 <= i < |kept| ==> all[|cut| + i] == kept[i];
  }

  lemma CutTouch(cut: seq<Key>, kept: seq<Key>, k: Key)
    requires NoDuplicates(cut + kept)
    ensures Suffix(Without(kept, k) + [k], |kept|) == Suffix(Without(cut + kept, k) + [k], |kept|)
  {
    WithoutAppend(cut, kept, k);
    PartsDistinct(cut, kept);
    WithoutKey(kept, k);
    if k in cut {
      Assoc(Without(cut, k), kept, [k]);
      SuffixAppend(Without(cut, k), kept + [k], |kept|);
    } else {
      Assoc(cut, Without(kept, k), [k]);
      SuffixAppend(cut, Without(kept, k) + [k], |kept|);
    }
  }

  lemma {:induction false} RunSnoc(c: Config, m: JsMap<Bucket>, calls: seq<Call>, call: Call)
    ensures Run(c, m, calls + [call]) == TakeStep(c, Run(c, m, calls), call.key, call.at).0
    decreases |calls|
  {
    if calls == [] {
      assert (calls + [call])[1..] == [];
    } else {
      assert (calls + [call])[1..] == calls[1..] + [call];
      RunSnoc(c, TakeStep(c, m, calls[0].key, calls[0].at).0, calls[1..], call);
    }
  }

  lemma {:induction false} RunValid(c: Config, m: JsMap<Bucket>, calls: seq<Call>)
    requires JsMaps.Valid(m)
    ensures JsMaps.Valid(Run(c, m, calls))
    decreases |calls|
  {
    if calls != [] {
      TouchValid(m, calls[0].key, Spent(c, m, calls[0].key, calls[0].at), c.maxEntries);
      RunValid(c, TakeStep(c, m, calls[0].key, calls[0].at).0, calls[1..]);
    }
  }

  /** The keys the limiter remembers, in map order, are exactly the `maxEntries` keys taken most recently. */
  lemma {:induction false} OrderIsLastTaken(c: Config, calls: seq<Call>)
    ensures JsMaps.Valid(Run(c, Empty(), calls))
    ensures Run(c, Empty(), calls).order == Suffix(LastTaken(Keys(calls)), c.maxEntries)
    decreases |calls|
  {
    RunValid(c, Empty(), calls);
    if calls != [] {
      var last := calls[|calls| - 1];
      var before := calls[..|calls| - 1];
      assert calls == before + [last];
      assert Keys(calls) == Keys(before) + [last.key];
      OrderIsLastTaken(c, before);
      RunSnoc(c, Empty(), before, last);
      TakeOrder(c, Run(c, Empty(), before), last.key, last.at);
      LastTakenKeys(Keys(before));
      LastTakenSnoc(Keys(before), last.key);
      SuffixTouch(LastTaken(Keys(before)), last.key, c.maxEntries);
    }
  }

  lemma {:induction false} LastTakenSplit(before: seq<Key>, k: Key, after: seq<Key>) returns (older: seq<Key>)
    requires k !in after
    ensures LastTaken(before + [k] + after) == older + [k] + LastTaken(after)
  {
    var all := before + [k] + after;
    if before == [] {
      assert all[1..] == after;
      older := [];
    } else {
      assert all[1..] == before[1..] + [k] + after;
      older := LastTakenSplit(before[1..], k, after);
      if all[0] !in all[1..] {
        older := [all[0]] + older;
      }
    }
  }

  /** A key is forgotten exactly when at least `maxEntries` distinct other keys were taken after its own last take. */
  lemma ForgottenAfterMaxEntriesOthers(c: Config, before: seq<Call>, own: Call, after: seq<Call>)
    requires own.key !in Keys(after)
    ensures own.key in Run(c, Empty(), before + [own] + after).values
      <==> |Distinct(Keys(after))| < c.maxEntries
  {
    var calls := before + [own] + after;
    var order := LastTaken(Keys(calls));
    assert Keys(calls) == Keys(before) + [own.key] + Keys(after);
    OrderIsLastTaken(c, calls);
    var older := LastTakenSplit(Keys(before), own.key, Keys(after));
    LastTakenKeys(Keys(calls));
    LastTakenKeys(Keys(after));
    var i := |older|;
    assert order[i] == own.key;
    assert |order| - i - 1 == |Distinct(Keys(after))|;
    var kept := Suffix(order, c.maxEntries);
    if |order| > c.maxEntries {
      if |order| - c.maxEntries <= i {
        assert kept[i - (|order| - c.maxEntries)] == own.key;
      } else {
        assert forall j :: 0 <= j < |kept| ==> kept[j] == order[|order| - c.maxEntries + j] != order[i];
      }
    }
  }

  // ----- what a window admits

  function Others(calls: seq<Call>, key: Key): set<Key> {
    Distinct(Keys(calls)) - {key}
  }

  lemma OthersTail(calls: seq<Call>, key: Key)
    requires calls != []
    ensures |Others(calls[1..], key)| <= |Others(calls, key)|
  {
    assert Keys(calls) == [calls[0].key] + Keys(calls[1..]);
    SubsetSize(Others(calls[1..], key), Others(calls, key));
  }

  /** `key` is never pushed out of an order that keeps the newest `max` keys while `keys` are moved to its end. */
  ghost predicate NeverPushedOut(order: seq<Key>, keys: seq<Key>, key: Key, max: nat)
    decreases |keys|
  {
    key in order
    && (keys == [] || NeverPushedOut(Suffix(Without(order, keys[0]) + [keys[0]], max), keys[1..], key, max))
  }

  lemma {:induction false} NeverPushedOutTracked(c: Config, m: JsMap<Bucket>, calls: seq<Call>, key: Key)
    requires JsMaps.Valid(m) && NeverPushedOut(m.order, Keys(calls), key, c.maxEntries)
    ensures StaysTracked(c, m, calls, key)
    decreases |calls|
  {
    if calls != [] {
      assert Keys(calls)[1..] == Keys(calls[1..]);
      TouchValid(m, calls[0].key, Spent(c, m, calls[0].key, calls[0].at), c.maxEntries);
      NeverPushedOutTracked(c, TakeStep(c, m, calls[0].key, calls[0].at).0, calls[1..], key);
    }
  }

  /** A key stays while fewer than `max` distinct keys are, or come, behind it. */
  lemma {:induction false} FewOthersNeverPushOut(older: seq<Key>, key: Key, newer: seq<Key>, keys: seq<Key>, max: nat)
    requires NoDuplicates(older + [key] + newer)
    requires |Distinct(newer) + (Distinct(keys) - {key})| < max
    ensures NeverPushedOut(older + [key] + newer, keys, key, max)
    decreases |keys|
  {
    var order := older + [key] + newer;
    assert order[|older|] == key;
    if keys != [] {
      var k := keys[0];
      assert keys == [k] + keys[1..];
      var older', newer' := MovedToEnd(order, k, key, older, newer);
      var moved := Without(order, k) + [k];
      var seen := Distinct(newer) + (Distinct(keys) - {key});
      assert Distinct(newer') <= Distinct(newer) + ({k} - {key});
      SubsetSize(Distinct(newer') + (Distinct(keys[1..]) - {key}), seen);
      SubsetSize(Distinct(newer'), seen);
      var cut := if |moved| <= max then older' else older'[|moved| - max..];
      SuffixKeeps(moved, older', key, newer', max);
      MovedNoDuplicates(order, k, max);
      FewOthersNeverPushOut(cut, key, newer', keys[1..], max);
    }
  }

  lemma MovedNoDuplicates(order: seq<Key>, k: Key, max: nat)
    requires NoDuplicates(order)
    ensures NoDuplicates(Suffix(Without(order, k) + [k], max))
  {
    WithoutKey(order, k);
  }

  lemma SuffixKeeps(order: seq<Key>, older: seq<Key>, key: Key, newer: seq<Key>, max: nat)
    requires order == older + [key] + newer && |newer| < max
    ensures Suffix(order, max) == (if |order| <= max then older else older[|order| - max..]) + [key] + newer
  {
  }

  lemma SubsetSize<T>(a: set<T>, b: set<T>)
    requires a <= b
    ensures |a| <= |b|
  {
    assert b == a + (b - a);
  }

  lemma {:induction false} DistinctSize(s: seq<Key>)
    requires NoDuplicates(s)
    ensures |Distinct(s)| == |s|
  {
    if s != [] {
      assert s == [s[0]] + s[1..];
      assert s[0] !in s[1..];
      assert Distinct(s) == {s[0]} + Distinct(s[1..]);
      DistinctSize(s[1..]);
    }
  }

  /** Where `key` stands after `k` was moved to the end. */
  lemma MovedToEnd(order: seq<Key>, k: Key, key: Key, older: seq<Key>, newer: seq<Key>)
    returns (older': seq<Key>, newer': seq<Key>)
    requires NoDuplicates(order) && order == older + [key] + newer
    ensures Without(order, k) + [k] == older' + [key] + newer'
    ensures forall x :: x in newer' ==> x != key && (x == k || x in newer)
    ensures |newer'| == |Distinct(newer')|
  {
    MidDistinct(order, key, older, newer);
    WithoutMid(k, key, older, newer);
    WithoutKey(newer, k);
    if k == key {
      older', newer' := older + newer, [];
    } else if k in older {
      older', newer' := Without(older, k), newer + [k];
    } else {
      older', newer' := older, Without(newer, k) + [k];
    }
    DistinctSize(newer');
  }

  lemma MidDistinct(order: seq<Key>, key: Key, older: seq<Key>, newer: seq<Key>)
    requires NoDuplicates(order) && order == older + [key] + newer
    ensures NoDuplicates(newer) && key !in newer && key !in older
    ensures forall x :: x in older ==> x !in newer
  {
    assert order[|older|] == key;
    assert forall i :: 0 <= i < |older| ==> older[i] == order[i];
    assert forall i :: 0 <= i < |newer| ==> newer[i] == order[|older| + 1 + i];
  }

  lemma WithoutMid(k: Key, key: Key, older: seq<Key>, newer: seq<Key>)
    ensures k in older ==> Without(older + [key] + newer, k) == Without(older, k) + [key] + newer
    ensures k !in older && k == key ==> Without(older + [key] + newer, k) == older + newer
    ensures k !in older && k != key ==> Without(older + [key] + newer, k) == older + [key] + Without(newer, k)
  {
    Assoc(older, [key], newer);
    WithoutAppend(older, [key] + newer, k);
    Assoc(Without(older, k), [key], newer);
    Tail(key, newer);
    Assoc(older, [key], Without(newer, k));
  }

  lemma JustTakenTracked(c: Config, m: JsMap<Bucket>, calls: seq<Call>, key: Key)
    requires JsMaps.Valid(m) && m.order != [] && m.order[|m.order| - 1] == key
    requires |Others(calls, key)| < c.maxEntries
    ensures StaysTracked(c, m, calls, key)
  {
    var older := m.order[..|m.order| - 1];
    assert m.order == older + [key] + [];
    assert Distinct([]) + (Distinct(Keys(calls)) - {key}) == Others(calls, key);
    FewOthersNeverPushOut(older, key, [], Keys(calls), c.maxEntries);
    NeverPushedOutTracked(c, m, calls, key);
  }

  /** The run up to the first take of `key` admits nothing of it. */
  lemma {:induction false} SkipToFirst(c: Config, m: JsMap<Bucket>, calls: seq<Call>, key: Key, from: real, to: real)
    returns (m': JsMap<Bucket>, rest: seq<Call>)
    requires Sound(c, m, from) && Within(calls, from, to)
    ensures |AdmittedTimes(c, m, calls, key)| == |AdmittedTimes(c, m', rest, key)|
    ensures |Others(rest, key)| <= |Others(calls, key)|
    ensures from <= to
    ensures rest != [] ==>
      rest[0].key == key && from <= rest[0].at <= to && Sound(c, m', rest[0].at) && Within(rest[1..], rest[0].at, to)
    decreases |calls|
  {
    WithinOrdered(calls, from, to);
    if calls == [] || calls[0].key == key {
      m', rest := m, calls;
    } else {
      var next := TakeStep(c, m, calls[0].key, calls[0].at).0;
      TakeIsSound(c, m, calls[0].key, calls[0].at);
      OthersTail(calls, key);
      m', rest := SkipToFirst(c, next, calls[1..], key, calls[0].at, to);
    }
  }

  lemma {:induction false} WithinOrdered(calls: seq<Call>, from: real, to: real)
    requires Within(calls, from, to)
    ensures from <= to && (calls != [] ==> from <= calls[0].at <= to)
  {
    if calls != [] {
      WithinOrdered(calls[1..], calls[0].at, to);
    }
  }

  lemma OwnTakeTracked(c: Config, m: JsMap<Bucket>, calls: seq<Call>, key: Key)
    requires JsMaps.Valid(m) && calls != [] && calls[0].key == key
    requires |Others(calls, key)| < c.maxEntries
    ensures StaysTracked(c, TakeStep(c, m, key, calls[0].at).0, calls[1..], key)
  {
    TouchValid(m, key, Spent(c, m, key, calls[0].at), c.maxEntries);
    OthersTail(calls, key);
    JustTakenTracked(c, TakeStep(c, m, key, calls[0].at).0, calls[1..], key);
  }

  lemma OwnTakeLevel(c: Config, m: JsMap<Bucket>, key: Key, at: real)
    requires Sound(c, m, at) && key in TakeStep(c, m, key, at).0.values
    ensures var (m', d) := TakeStep(c, m, key, at);
      Level(c, m'.values[key], at) <= c.burst as real - (if d.allowed then 1.0 else 0.0)
  {
    SpentInRange(c, m, key, at);
    TakeBucket(c, m, key, at, key);
    LevelGrows(c, Spent(c, m, key, at), at, at);
  }

  /** How many takes of `key` are admitted. */
  function AdmittedCount(c: Config, m: JsMap<Bucket>, calls: seq<Call>, key: Key): nat {
    |AdmittedTimes(c, m, calls, key)|
  }

  /** A take of `key` in a limiter that tracks it from then on. */
  ghost predicate StartsOwn(c: Config, m: JsMap<Bucket>, at: real, rest: seq<Call>, key: Key, to: real) {
    Sound(c, m, at) && Within(rest, at, to) && StaysTracked(c, TakeStep(c, m, key, at).0, rest, key)
  }

  /** After `own` admissions, what is left of a burst is all that the tracked key can start with. */
  ghost predicate Tracked(c: Config, m: JsMap<Bucket>, rest: seq<Call>, key: Key, own: nat, at: real, to: real) {
    && Sound(c, m, at) && StaysTracked(c, m, rest, key) && Within(rest, at, to)
    && Level(c, m.values[key], at) <= c.burst as real - own as real
  }

  /** What a take of `key` admits and leaves. */
  lemma OwnTake(c: Config, m: JsMap<Bucket>, at: real, rest: seq<Call>, key: Key, to: real)
    returns (own: nat, m': JsMap<Bucket>)
    requires StartsOwn(c, m, at, rest, key, to)
    ensures own == (if TakeStep(c, m, key, at).1.allowed then 1 else 0) && m' == TakeStep(c, m, key, at).0
    ensures Tracked(c, m', rest, key, own, at, to)
  {
    m' := TakeStep(c, m, key, at).0;
    own := if TakeStep(c, m, key, at).1.allowed then 1 else 0;
    TakeIsSound(c, m, key, at);
    OwnTakeLevel(c, m, key, at);
  }

  /** The takes that follow fit the level that is left. */
  lemma RestFits(c: Config, m: JsMap<Bucket>, rest: seq<Call>, key: Key, own: nat, at: real, to: real)
    requires Tracked(c, m, rest, key, own, at, to)
    ensures (own + AdmittedCount(c, m, rest, key)) as real <= c.burst as real + Earned(c, to - at)
  {
    TrackedWindow(c, m, rest, key, at, to);
    FitsTogether(own, AdmittedCount(c, m, rest, key), Level(c, m.values[key], at), Earned(c, to - at), c.burst);
  }

  lemma FitsTogether(own: nat, rest: nat, level: real, earned: real, burst: int)
    requires rest as real <= level + earned && level <= burst as real - own as real
    ensures (own + rest) as real <= burst as real + earned
  {
  }

  lemma OwnAndRest(c: Config, m: JsMap<Bucket>, at: real, rest: seq<Call>, key: Key, to: real)
    returns (own: nat, m': JsMap<Bucket>)
    requires StartsOwn(c, m, at, rest, key, to)
    ensures own == (if TakeStep(c, m, key, at).1.allowed then 1 else 0) && m' == TakeStep(c, m, key, at).0
    ensures (own + AdmittedCount(c, m', rest, key)) as real <= c.burst as real + Earned(c, to - at)
  {
    own, m' := OwnTake(c, m, at, rest, key, to);
    RestFits(c, m', rest, key, own, at, to);
  }

  lemma CountsFirst(c: Config, m: JsMap<Bucket>, calls: seq<Call>, key: Key, own: nat, m': JsMap<Bucket>)
    requires calls != [] && calls[0].key == key && m' == TakeStep(c, m, key, calls[0].at).0
    requires own == if TakeStep(c, m, key, calls[0].at).1.allowed then 1 else 0
    ensures AdmittedCount(c, m, calls, key) == own + AdmittedCount(c, m', calls[1..], key)
  {
  }

  lemma FromFirstTake(c: Config, m: JsMap<Bucket>, calls: seq<Call>, key: Key, from: real, to: real)
    requires from <= to
    requires calls != [] ==>
      from <= calls[0].at <= to && calls[0].key == key && StartsOwn(c, m, calls[0].at, calls[1..], key, to)
    ensures AdmittedCount(c, m, calls, key) as real <= c.burst as real + Earned(c, to - from)
  {
    if calls == [] {
      EarnedGrows(c, to - from);
    } else {
      EarnedLonger(c, from, calls[0].at, to);
      var own, m' := OwnAndRest(c, m, calls[0].at, calls[1..], key, to);
      CountsFirst(c, m, calls, key, own, m');
    }
  }

  lemma EarnedLonger(c: Config, from: real, at: real, to: real)
    requires from <= at <= to
    ensures Earned(c, to - at) <= Earned(c, to - from)
  {
    EarnedAdds(c, at - from, to - at);
    assert (at - from) + (to - at) == to - from;
    EarnedGrows(c, at - from);
  }

  /** In any window in which fewer than `maxEntries` other keys take, `key` is admitted at most a burst plus what
      the window earns, whatever the limiter went through before. */
  lemma WindowBound(c: Config, m: JsMap<Bucket>, calls: seq<Call>, key: Key, from: real, to: real)
    requires Sound(c, m, from) && Within(calls, from, to)
    requires |Others(calls, key)| < c.maxEntries
    ensures |AdmittedTimes(c, m, calls, key)| as real <= c.burst as real + Earned(c, to - from)
  {
    var m', rest := SkipToFirst(c, m, calls, key, from, to);
    if rest != [] {
      OwnTakeTracked(c, m', rest, key);
    }
    FromFirstTake(c, m', rest, key, from, to);
  }

  // ----- refused takes change nothing

  /** The continuously refilled bucket: only the admitted takes touch it. */
  function Drained(c: Config, b: Bucket, times: seq<real>): Bucket
    decreases |times|
  {
    if times == [] then b
    else Drained(c, Bucket(Level(c, b, times[0]) - 1.0, times[0]), times[1..])
  }

  /** Refilling at `at` first is not noticed by any later take or look. */
  lemma DrainedAfterRefill(c: Config, b: Bucket, at: real, times: seq<real>, to: real)
    requires b.at <= at <= to && b.tokens <= c.burst as real
    requires times != [] ==> times[0] >= at
    ensures Level(c, Drained(c, Bucket(Level(c, b, at), at), times), to) == Level(c, Drained(c, b, times), to)
  {
    LazyRefillIsContinuous(c, b, at, if times == [] then to else times[0]);
  }

  lemma {:induction false} FirstAdmitted(c: Config, m: JsMap<Bucket>, calls: seq<Call>, key: Key, from: real, to: real)
    requires Within(calls, from, to)
    ensures from <= to
    ensures var times := AdmittedTimes(c, m, calls, key); times != [] ==> times[0] >= from
    decreases |calls|
  {
    if calls != [] {
      FirstAdmitted(c, TakeStep(c, m, calls[0].key, calls[0].at).0, calls[1..], key, calls[0].at, to);
    }
  }

  /** The lazily refilled bucket of a tracked key is the continuously refilled one that saw only the admitted takes:
      refused takes in between leave no trace. */
  lemma {:induction false} RefusalsLeaveNoTrace(c: Config, m: JsMap<Bucket>, calls: seq<Call>, key: Key, from: real,
                                                to: real)
    requires Sound(c, m, from) && Within(calls, from, to)
    requires StaysTracked(c, m, calls, key)
    ensures key in Run(c, m, calls).values
    ensures Level(c, Run(c, m, calls).values[key], to)
      == Level(c, Drained(c, m.values[key], AdmittedTimes(c, m, calls, key)), to)
    decreases |calls|
  {
    if calls != [] {
      var at := calls[0].at;
      var m' := TakeStep(c, m, calls[0].key, at).0;
      TakeIsSound(c, m, calls[0].key, at);
      RefusalsLeaveNoTrace(c, m', calls[1..], key, at, to);
      DrainedTail(c, m, calls, key, to);
    }
  }

  /** The first take of a run does to the continuously refilled bucket what it does to the lazily refilled one. */
  lemma DrainedTail(c: Config, m: JsMap<Bucket>, calls: seq<Call>, key: Key, to: real)
    requires calls != [] && Sound(c, m, calls[0].at) && Within(calls[1..], calls[0].at, to)
    requires key in m.values && key in TakeStep(c, m, calls[0].key, calls[0].at).0.values
    ensures var m' := TakeStep(c, m, calls[0].key, calls[0].at).0;
      Level(c, Drained(c, m'.values[key], AdmittedTimes(c, m', calls[1..], key)), to)
      == Level(c, Drained(c, m.values[key], AdmittedTimes(c, m, calls, key)), to)
  {
    var at := calls[0].at;
    var m' := TakeStep(c, m, calls[0].key, at).0;
    var rest := AdmittedTimes(c, m', calls[1..], key);
    TakeBucket(c, m, calls[0].key, at, key);
    FirstAdmitted(c, m', calls[1..], key, at, to);
    if calls[0].key == key {
      DrainedOwn(c, m, key, at, rest, to);
    }
    assert [] + rest == rest;
  }

  lemma DrainedHead(c: Config, b: Bucket, at: real, rest: seq<real>)
    ensures Drained(c, b, [at] + rest) == Drained(c, Bucket(Level(c, b, at) - 1.0, at), rest)
  {
    assert ([at] + rest)[1..] == rest;
  }

  lemma OwnTakeSpends(c: Config, m: JsMap<Bucket>, key: Key, at: real)
    requires key in m.values
    ensures TakeStep(c, m, key, at).1.allowed <==> Level(c, m.values[key], at) >= 1.0
    ensures var level := Level(c, m.values[key], at);
      Spent(c, m, key, at) == Bucket(if level >= 1.0 then level - 1.0 else level, at)
  {
  }

  lemma DrainedOwn(c: Config, m: JsMap<Bucket>, key: Key, at: real, rest: seq<real>, to: real)
    requires Sound(c, m, at) && key in m.values && at <= to
    requires rest != [] ==> rest[0] >= at
    ensures var times := (if TakeStep(c, m, key, at).1.allowed then [at] else []) + rest;
      Level(c, Drained(c, Spent(c, m, key, at), rest), to) == Level(c, Drained(c, m.values[key], times), to)
  {
    OwnTakeSpends(c, m, key, at);
    if TakeStep(c, m, key, at).1.allowed {
      DrainedHead(c, m.values[key], at, rest);
    } else {
      assert [] + rest == rest;
      DrainedAfterRefill(c, m.values[key], at, rest, to);
    }
  }

  /** Waiting as long as a refusal says is enough, whatever is taken meanwhile and however often `key` is refused
      again. */
  lemma WaitingIsEnough(c: Config, m: JsMap<Bucket>, key: Key, from: real, calls: seq<Call>, to: real)
    requires Sound(c, m, from) && !TakeStep(c, m, key, from).1.allowed
    requires var m' := TakeStep(c, m, key, from).0;
      Within(calls, from, to) && StaysTracked(c, m', calls, key) && AdmittedTimes(c, m', calls, key) == []
    requires to >= from + TakeStep(c, m, key, from).1.retryAfterSeconds as real * 1000.0
    ensures TakeStep(c, Run(c, TakeStep(c, m, key, from).0, calls), key, to).1.allowed
  {
    var (m', d) := TakeStep(c, m, key, from);
    var b := Spent(c, m, key, from);
    TakeIsSound(c, m, key, from);
    TakeBucket(c, m, key, from, key);
    RefusalsLeaveNoTrace(c, m', calls, key, from, to);
    assert b.tokens < 1.0 && b.at == from && d == DecisionAt(c, b.tokens);
    RetryAfterIsExact(c, b.tokens, from, to);
  }
}
