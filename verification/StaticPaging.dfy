/** Walks over a table that stays as it is (`apps/studio/src/lib/queries.ts`, `packages/client/src/client.ts`): when
    they end. */
module StaticPaging {
  import opened Paging
  import opened Wrappers

  function Copies<K>(table: seq<K>, n: nat): (tables: seq<seq<K>>)
    ensures |tables| == n && forall c :: 0 <= c < n ==> tables[c] == table
  {
    seq(n, _ => table)
  }

  /** The cursor that stands after the first `p` rows. */
  function CursorAt<K>(table: seq<K>, p: nat): Option<K>
    requires p <= |table|
  {
    if p == 0 then None else Some(table[p - 1])
  }

  /** The same walk by position: a page starts after `p` rows, and a cursor that is not read starts over. */
  function ByPosition<K>(table: seq<K>, n: nat, p: nat, limit: nat, read: K -> Option<K>): Walked<K>
    requires limit >= 1 && p <= |table|
    decreases n
  {
    if n == 0 then Walked([], 0, false)
    else if p + limit < |table| then
      var q := if read(table[p + limit - 1]).Some? then p + limit else 0;
      var rest := ByPosition(table, n - 1, q, limit, read);
      Walked(table[p..p + limit] + rest.items, rest.calls + 1, rest.finished)
    else Walked(table[p..], 1, true)
  }

  lemma PageAt<K(!new)>(table: seq<K>, p: nat, limit: nat, before: (K, K) -> bool)
    requires limit >= 1 && StrictTotal(before) && Ordered(table, before) && p <= |table|
    ensures GetPage(table, CursorAt(table, p), limit, before) == PageFrom(table, p, limit)
  {
    forall i | 0 <= i < p ensures !Follows(table[i], CursorAt(table, p), before) {
      if before(table[p - 1], table[i]) && i < p - 1 {
        assert Chain(table[i], table[p - 1], table[i], before);
      }
    }
    PageIsCut(table, p, CursorAt(table, p), limit, before);
  }

  /** Searching after a cursor is going on from its position. */
  lemma {:induction false} WalkByPosition<K(!new)>(table: seq<K>, n: nat, p: nat, limit: nat, before: (K, K) -> bool,
                                                   read: K -> Option<K>)
    requires limit >= 1 && StrictTotal(before) && Ordered(table, before) && TrueOrLost(table, read) && p <= |table|
    ensures Walk(Copies(table, n), CursorAt(table, p), limit, before, read) == ByPosition(table, n, p, limit, read)
    decreases n
  {
    if n > 0 {
      StaticStep(table, n, p, limit, before, read);
      if p + limit < |table| {
        var q := NextPosition(table, p, limit, read);
        WalkByPosition(table, n - 1, q, limit, before, read);
      }
    }
  }

  lemma StaticStep<K(!new)>(table: seq<K>, n: nat, p: nat, limit: nat, before: (K, K) -> bool, read: K -> Option<K>)
    requires limit >= 1 && StrictTotal(before) && Ordered(table, before) && n > 0 && p <= |table|
    ensures Walk(Copies(table, n), CursorAt(table, p), limit, before, read)
         == if p + limit < |table| then
              var rest := Walk(Copies(table, n - 1), read(table[p + limit - 1]), limit, before, read);
              Walked(table[p..p + limit] + rest.items, rest.calls + 1, rest.finished)
            else Walked(table[p..], 1, true)
  {
    PageAt(table, p, limit, before);
    assert Copies(table, n)[1..] == Copies(table, n - 1);
  }

  /** Where the cursor after this page leads. */
  lemma NextPosition<K>(table: seq<K>, p: nat, limit: nat, read: K -> Option<K>) returns (q: nat)
    requires limit >= 1 && TrueOrLost(table, read) && p + limit < |table|
    ensures q == (if read(table[p + limit - 1]).Some? then p + limit else 0)
    ensures read(table[p + limit - 1]) == CursorAt(table, q)
  {
    assert table[p + limit - 1] in table;
    q := if read(table[p + limit - 1]).Some? then p + limit else 0;
  }

  // ----- boundaries

  /** A cursor comes back as the row it was made from, or as nothing. */
  ghost predicate TrueOrLost<K>(table: seq<K>, read: K -> Option<K>) {
    forall x :: x in table ==> read(x) == Some(x) || read(x) == None
  }

  /** The cursor made after the first `p` rows is handed out, and the next page does not read it. */
  ghost predicate LostAt<K>(table: seq<K>, limit: nat, read: K -> Option<K>, p: nat)
    requires limit >= 1
  {
    0 < p < |table| && p % limit == 0 && read(table[p - 1]).None?
  }

  lemma AtLeastOnce(d: nat, k: int)
    requires d >= 1
    ensures k >= 1 ==> d * k >= d
    ensures k <= 0 ==> d * k <= 0
  {
  }

  lemma NextMultiple(p: nat, d: nat)
    requires d >= 1 && p % d == 0
    ensures (p + d) % d == 0
  {
    var a, b, r := p / d, (p + d) / d, (p + d) % d;
    assert d * (a + 1 - b) == r by {
      assert p == d * a && p + d == d * b + r;
    }
    AtLeastOnce(d, a + 1 - b);
  }

  lemma MultiplesApart(p: nat, q: nat, d: nat)
    requires d >= 1 && p % d == 0 && q % d == 0 && p < q
    ensures p + d <= q
  {
    var a, b := p / d, q / d;
    assert d * (b - a) == q - p by {
      assert p == d * a && q == d * b;
    }
    AtLeastOnce(d, b - a);
  }

  lemma RestOfProduct(n: nat, limit: nat)
    requires n > 0
    ensures n * limit == (n - 1) * limit + limit && (n - 1) * limit >= 0
  {
  }

  /** From the `p`-th row on, `n` pages reach the end of the table. */
  ghost predicate Covers<K>(table: seq<K>, p: nat, n: nat, limit: nat) {
    n >= 1 && |table| <= p + n * limit
  }

  /** The rows of `n` pages from the `p`-th row on. */
  ghost function Stretch<K>(table: seq<K>, p: nat, n: nat, limit: nat): seq<K>
    requires p <= |table|
  {
    if p + n * limit < |table| then table[p..p + n * limit] else table[p..]
  }

  lemma StretchStep<K>(table: seq<K>, p: nat, n: nat, limit: nat)
    requires n > 0 && limit >= 1 && p <= |table|
    ensures p + limit < |table| ==>
      && Stretch(table, p, n, limit) == table[p..p + limit] + Stretch(table, p + limit, n - 1, limit)
      && (Covers(table, p, n, limit) <==> Covers(table, p + limit, n - 1, limit))
    ensures p + limit >= |table| ==> Stretch(table, p, n, limit) == table[p..] && Covers(table, p, n, limit)
  {
    RestOfProduct(n, limit);
  }

  lemma NextIsRead<K>(table: seq<K>, p: nat, limit: nat, read: K -> Option<K>)
    requires limit >= 1 && p % limit == 0 && p + limit < |table| && forall q :: !LostAt(table, limit, read, q)
    ensures (p + limit) % limit == 0 && read(table[p + limit - 1]).Some?
  {
    NextMultiple(p, limit);
    assert !LostAt(table, limit, read, p + limit);
  }

  lemma {:induction false} ReadPositions<K>(table: seq<K>, n: nat, p: nat, limit: nat, read: K -> Option<K>)
    requires limit >= 1 && p <= |table| && p % limit == 0
    requires forall q :: !LostAt(table, limit, read, q)
    ensures var w := ByPosition(table, n, p, limit, read);
      (w.finished <==> Covers(table, p, n, limit)) && w.items == Stretch(table, p, n, limit)
    decreases n
  {
    if n == 0 {
      assert Stretch(table, p, 0, limit) == [];
    } else {
      StretchStep(table, p, n, limit);
      if p + limit < |table| {
        NextIsRead(table, p, limit, read);
        ReadPositions(table, n - 1, p + limit, limit, read);
      }
    }
  }

  lemma {:induction false} LostPositions<K>(table: seq<K>, n: nat, p: nat, lost: nat, limit: nat, read: K -> Option<K>)
    requires limit >= 1 && p < lost && p % limit == 0 && LostAt(table, limit, read, lost)
    ensures !ByPosition(table, n, p, limit, read).finished
    decreases n
  {
    if n > 0 {
      NextMultiple(p, limit);
      MultiplesApart(p, lost, limit);
      LostPositions(table, n - 1, if read(table[p + limit - 1]).Some? then p + limit else 0, lost, limit, read);
    }
  }

  // ----- when a walk ends

  /** With every cursor read, the pages from any boundary on are the rest of the table in order, with no call more than
      needed. */
  lemma StaticWalk<K(!new)>(table: seq<K>, n: nat, p: nat, limit: nat, before: (K, K) -> bool, read: K -> Option<K>)
    requires limit >= 1 && StrictTotal(before) && Ordered(table, before)
    requires TrueOrLost(table, read) && forall q :: !LostAt(table, limit, read, q)
    requires p <= |table| && p % limit == 0
    ensures var w := Walk(Copies(table, n), CursorAt(table, p), limit, before, read);
      && (w.finished <==> Covers(table, p, n, limit))
      && w.items == Stretch(table, p, n, limit)
  {
    WalkByPosition(table, n, p, limit, before, read);
    ReadPositions(table, n, p, limit, read);
  }

  /** A cursor that is not read sends the walk back to the first page, and it never gets past the place where that
      happens. */
  lemma LostCursorStartsOver<K(!new)>(table: seq<K>, n: nat, p: nat, lost: nat, limit: nat, before: (K, K) -> bool,
                                      read: K -> Option<K>)
    requires limit >= 1 && StrictTotal(before) && Ordered(table, before) && TrueOrLost(table, read)
    requires LostAt(table, limit, read, lost) && p < lost && p % limit == 0
    ensures !Walk(Copies(table, n), CursorAt(table, p), limit, before, read).finished
  {
    WalkByPosition(table, n, p, limit, before, read);
    LostPositions(table, n, p, lost, limit, read);
  }

  /** A walk of up to `n` pages over a table that stays as it is. */
  function WalkOf<K>(table: seq<K>, n: nat, limit: nat, before: (K, K) -> bool, read: K -> Option<K>): Walked<K>
    requires limit >= 1
  {
    Walk(Copies(table, n), None, limit, before, read)
  }

  /** A walk over a table that stays as it is ends, with every row once and in order, exactly when every cursor handed
      out is read. */
  lemma WalkEndsIffCursorsAreRead<K(!new)>(table: seq<K>, limit: nat, before: (K, K) -> bool, read: K -> Option<K>)
    requires limit >= 1 && StrictTotal(before) && Ordered(table, before) && TrueOrLost(table, read)
    ensures (exists n: nat :: WalkOf(table, n, limit, before, read).finished)
      <==> forall p :: !LostAt(table, limit, read, p)
    ensures forall n: nat :: WalkOf(table, n, limit, before, read).finished ==>
      WalkOf(table, n, limit, before, read).items == table
  {
    if p :| LostAt(table, limit, read, p) {
      forall n: nat ensures !WalkOf(table, n, limit, before, read).finished {
        LostCursorStartsOver(table, n, 0, p, limit, before, read);
      }
    } else {
      forall n: nat
        ensures WalkOf(table, n, limit, before, read).finished <==> Covers(table, 0, n, limit)
        ensures WalkOf(table, n, limit, before, read).finished ==> WalkOf(table, n, limit, before, read).items == table
      {
        StaticWalk(table, n, 0, limit, before, read);
      }
      var n := |table| + 1;
      assert n * limit == n + n * (limit - 1);
      assert WalkOf(table, n, limit, before, read).finished;
    }
  }
}
