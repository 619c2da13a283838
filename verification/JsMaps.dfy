/** A JavaScript `Map`: a dictionary that remembers the order in which its keys were inserted.
    Setting a key that is present keeps its place; deleting it and setting it again moves it to the end. */
module JsMaps {
  import opened Wrappers

  /** The strings that serve as keys (API key ids, source addresses): the code only ever compares them. */
  type Key(==, !new)

  datatype JsMap<V> = JsMap(order: seq<Key>, values: map<Key, V>)

  ghost predicate NoDuplicates(s: seq<Key>) {
    forall i, j :: 0 <= i < j < |s| ==> s[i] != s[j]
  }

  ghost predicate Valid<V>(m: JsMap<V>) {
    && NoDuplicates(m.order)
    && (forall k :: k in m.order <==> k in m.values)
  }

  function Empty<V>(): JsMap<V> { JsMap([], map[]) }

  function Get<V>(m: JsMap<V>, k: Key): Option<V> {
    if k in m.values then Some(m.values[k]) else None
  }

  function Without(s: seq<Key>, k: Key): seq<Key> {
    if s == [] then []
    else if s[0] == k then s[1..]
    else [s[0]] + Without(s[1..], k)
  }

  function Delete<V>(m: JsMap<V>, k: Key): JsMap<V> {
    JsMap(Without(m.order, k), m.values - {k})
  }

  function Set<V>(m: JsMap<V>, k: Key, v: V): JsMap<V> {
    JsMap(if k in m.values then m.order else m.order + [k], m.values[k := v])
  }

  function Size<V>(m: JsMap<V>): nat { |m.order| }

  /** What the eviction loops leave: the oldest key is deleted while there are more than `max`. */
  function Newest<V>(m: JsMap<V>, max: nat): JsMap<V>
    decreases Size(m)
  {
    if Size(m) <= max then m
    else
      assert Size(Delete(m, m.order[0])) < Size(m);
      Newest(Delete(m, m.order[0]), max)
  }

  /** Re-inserts `k` at the end, then makes room: how a bounded map keeps its least recently used key first. */
  function Touch<V>(m: JsMap<V>, k: Key, v: V, max: nat): JsMap<V> {
    Newest(Set(Delete(m, k), k, v), max)
  }

  /** The last `max` elements of a sequence (all of them when it is shorter). */
  function Suffix(s: seq<Key>, max: nat): seq<Key> {
    if |s| <= max then s else s[|s| - max..]
  }

  // ----- lemmas

  lemma {:induction false} WithoutKey(s: seq<Key>, k: Key)
    requires NoDuplicates(s)
    ensures NoDuplicates(Without(s, k))
    ensures forall x :: x in Without(s, k) <==> x in s && x != k
    ensures k !in s ==> Without(s, k) == s
    ensures |Without(s, k)| == if k in s then |s| - 1 else |s|
  {
    if s != [] {
      assert s == [s[0]] + s[1..];
      assert s[0] !in s[1..];
      WithoutKey(s[1..], k);
      if s[0] != k {
        var w := Without(s[1..], k);
        assert s[0] !in w;
        forall i, j | 0 <= i < j < |[s[0]] + w| ensures ([s[0]] + w)[i] != ([s[0]] + w)[j] {
          assert ([s[0]] + w)[j] in w;
        }
      }
    }
  }

  lemma {:induction false} WithoutAppend(a: seq<Key>, b: seq<Key>, k: Key)
    ensures Without(a + b, k) == if k in a then Without(a, k) + b else a + Without(b, k)
  {
    if a == [] {
      assert a + b == b;
    } else {
      assert (a + b)[1..] == a[1..] + b;
      WithoutAppend(a[1..], b, k);
    }
  }

  lemma DeleteValid<V>(m: JsMap<V>, k: Key)
    requires Valid(m)
    ensures Valid(Delete(m, k))
    ensures forall x :: x in Delete(m, k).values <==> x in m.values && x != k
  {
    WithoutKey(m.order, k);
  }

  lemma SetValid<V>(m: JsMap<V>, k: Key, v: V)
    requires Valid(m)
    ensures Valid(Set(m, k, v))
  {
    var s := Set(m, k, v);
    if k !in m.values {
      forall x ensures x in s.order <==> x in s.values {
        assert x in s.order <==> x in m.order || x == k;
      }
    }
  }

  lemma DeleteOldest<V>(m: JsMap<V>)
    requires Valid(m) && m.order != []
    ensures Valid(Delete(m, m.order[0])) && Delete(m, m.order[0]).order == m.order[1..]
    ensures forall k :: k in Delete(m, m.order[0]).values ==> k in m.values
  {
    DeleteValid(m, m.order[0]);
  }

  lemma {:induction false} NewestValid<V>(m: JsMap<V>, max: nat)
    requires Valid(m)
    ensures Valid(Newest(m, max)) && Size(Newest(m, max)) <= max
    ensures Newest(m, max).order == Suffix(m.order, max)
    ensures forall k :: k in Newest(m, max).values ==> k in m.values && Newest(m, max).values[k] == m.values[k]
    decreases Size(m)
  {
    if Size(m) > max {
      var d := Delete(m, m.order[0]);
      DeleteOldest(m);
      NewestValid(d, max);
      assert Suffix(m.order[1..], max) == Suffix(m.order, max);
    }
  }

  lemma TouchValid<V>(m: JsMap<V>, k: Key, v: V, max: nat)
    requires Valid(m)
    ensures Valid(Touch(m, k, v, max)) && Size(Touch(m, k, v, max)) <= max
    ensures Touch(m, k, v, max).order == Suffix(Without(m.order, k) + [k], max)
    ensures forall x :: x in Touch(m, k, v, max).values ==>
      Touch(m, k, v, max).values[x] == if x == k then v else if x in m.values then m.values[x] else v
    ensures forall x :: x in Touch(m, k, v, max).values ==> x == k || x in m.values
    ensures max >= 1 ==> k in Touch(m, k, v, max).values
  {
    DeleteValid(m, k);
    var s := Set(Delete(m, k), k, v);
    SetValid(Delete(m, k), k, v);
    NewestValid(s, max);
    if max >= 1 {
      assert Suffix(s.order, max)[|Suffix(s.order, max)| - 1] == k;
    }
  }
}
