/** Keyset paging: pages fetched one row too long (`apps/studio/src/lib/queries.ts`), walked by the client's `paginate`
    (`packages/client/src/client.ts`). A table is the rows of one query in their strict order, as they stand when a page
    is asked for. */
module Paging {
  import opened Arithmetic
  import opened Wrappers

  ghost predicate Chain<K>(a: K, b: K, c: K, before: (K, K) -> bool) {
    before(a, b) && before(b, c)
  }

  ghost predicate Related<K>(a: K, b: K, before: (K, K) -> bool) {
    before(a, b) || a == b || before(b, a)
  }

  ghost predicate StrictTotal<K(!new)>(before: (K, K) -> bool) {
    && (forall a :: !before(a, a))
    && (forall a, b, c :: Chain(a, b, c, before) ==> before(a, c))
    && (forall a, b :: Related(a, b, before))
  }

  ghost predicate Ordered<K>(rows: seq<K>, before: (K, K) -> bool) {
    forall i, j :: 0 <= i < j < |rows| ==> before(rows[i], rows[j])
  }

  predicate Follows<K>(x: K, after: Option<K>, before: (K, K) -> bool) {
    after.None? || before(after.value, x)
  }

  // ----- the storage's search, and the page made of it

  function After<K>(table: seq<K>, after: Option<K>, before: (K, K) -> bool): seq<K> {
    if table == [] then []
    else (if Follows(table[0], after, before) then [table[0]] else []) + After(table[1..], after, before)
  }

  function Search<K>(table: seq<K>, after: Option<K>, limit: nat, before: (K, K) -> bool): seq<K> {
    var rows := After(table, after, before);
    if |rows| <= limit then rows else rows[..limit]
  }

  datatype Split<K> = Split(page: seq<K>, hasMore: bool)

  function SplitPage<K>(rows: seq<K>, limit: nat): Split<K> {
    var hasMore := |rows| > limit;
    Split(if hasMore then rows[..limit] else rows, hasMore)
  }

  datatype Page<K> = Page(items: seq<K>, next: Option<K>)

  /** The cursor of the next page is made from the last row shown, when there is more to show. */
  function GetPage<K>(table: seq<K>, after: Option<K>, limit: nat, before: (K, K) -> bool): Page<K>
    requires limit >= 1
  {
    var split := SplitPage(Search(table, after, limit + 1, before), limit);
    Page(split.page, if split.hasMore then Some(split.page[|split.page| - 1]) else None)
  }

  // ----- the walk

  datatype Walked<K> = Walked(items: seq<K>, calls: nat, finished: bool)

  /** Pages asked for one after the other, each from the table of its moment, until one says it is the last or the
      consumer stops. `read` is what a page makes of the cursor an earlier page made from a row. */
  function Walk<K>(tables: seq<seq<K>>, after: Option<K>, limit: nat, before: (K, K) -> bool,
                   read: K -> Option<K>): Walked<K>
    requires limit >= 1
    decreases |tables|
  {
    if tables == [] then Walked([], 0, false)
    else
      var page := GetPage(tables[0], after, limit, before);
      if page.next.None? then Walked(page.items, 1, true)
      else
        var rest := Walk(tables[1..], read(page.next.value), limit, before, read);
        Walked(page.items + rest.items, rest.calls + 1, rest.finished)
  }

  /** What was shown, followed by a walk. */
  function Then<K>(items: seq<K>, calls: nat, rest: Walked<K>): Walked<K> {
    Walked(items + rest.items, calls + rest.calls, rest.finished)
  }

  /** A walk is its first page, followed by the walk from there. */
  lemma FirstPage<K>(items: seq<K>, calls: nat, tables: seq<seq<K>>, after: Option<K>, limit: nat,
                     before: (K, K) -> bool, read: K -> Option<K>)
    requires limit >= 1 && calls < |tables|
    ensures var page := GetPage(tables[calls], after, limit, before);
      Then(items, calls, Walk(tables[calls..], after, limit, before, read))
      == if page.next.None? then Walked(items + page.items, calls + 1, true)
         else Then(items + page.items, calls + 1, Walk(tables[calls + 1..], read(page.next.value), limit, before, read))
  {
    assert tables[calls..][1..] == tables[calls + 1..];
  }

  method Paginate<K>(tables: seq<seq<K>>, limit: nat, before: (K, K) -> bool, read: K -> Option<K>)
    returns (items: seq<K>, calls: nat, finished: bool)
    requires limit >= 1
    ensures Walked(items, calls, finished) == Walk(tables, None, limit, before, read)
  {
    items, calls, finished := [], 0, false;
    var after := None;
    ghost var all := Walk(tables, None, limit, before, read);
    assert tables[0..] == tables;
    while calls < |tables| && !finished
      invariant calls <= |tables|
      invariant all == if finished then Walked(items, calls, true)
                       else Then(items, calls, Walk(tables[calls..], after, limit, before, read))
      decreases |tables| - calls, !finished
    {
      FirstPage(items, calls, tables, after, limit, before, read);
      var page := GetPage(tables[calls], after, limit, before);
      items := items + page.items;
      calls := calls + 1;
      if page.next.None? {
        finished := true;
      } else {
        after := read(page.next.value);
      }
    }
  }

  // ----- one page

  lemma {:induction false} AllFollow<K>(table: seq<K>, after: Option<K>, before: (K, K) -> bool)
    requires forall i :: 0 <= i < |table| ==> Follows(table[i], after, before)
    ensures After(table, after, before) == table
  {
    if table != [] {
      AllFollow(table[1..], after, before);
    }
  }

  lemma {:induction false} NoneFollows<K>(front: seq<K>, rest: seq<K>, after: Option<K>, before: (K, K) -> bool)
    requires forall i :: 0 <= i < |front| ==> !Follows(front[i], after, before)
    ensures After(front + rest, after, before) == After(rest, after, before)
  {
    if front == [] {
      assert front + rest == rest;
    } else {
      NoneFollows(front[1..], rest, after, before);
      assert (front + rest)[1..] == front[1..] + rest;
    }
  }

  /** A cursor cuts an ordered table in two. */
  ghost predicate Cut<K>(table: seq<K>, k: nat, after: Option<K>, before: (K, K) -> bool) {
    && k <= |table|
    && (forall i :: 0 <= i < k ==> !Follows(table[i], after, before))
    && (forall i :: k <= i < |table| ==> Follows(table[i], after, before))
  }

  lemma {:induction false} CutExists<K(!new)>(table: seq<K>, after: Option<K>, before: (K, K) -> bool) returns (k: nat)
    requires StrictTotal(before) && Ordered(table, before)
    ensures Cut(table, k, after, before)
    decreases |table|
  {
    if table == [] {
      k := 0;
    } else if Follows(table[0], after, before) {
      k := 0;
      forall i | 0 < i < |table| ensures Follows(table[i], after, before) {
        assert after.Some? ==> Chain(after.value, table[0], table[i], before);
      }
    } else {
      k := CutExists(table[1..], after, before);
      k := k + 1;
      assert forall i :: 1 <= i < |table| ==> table[i] == table[1..][i - 1];
    }
  }

  /** The page after `k` rows. */
  function PageFrom<K>(table: seq<K>, k: nat, limit: nat): Page<K>
    requires limit >= 1 && k <= |table|
  {
    if k + limit < |table| then Page(table[k..k + limit], Some(table[k + limit - 1])) else Page(table[k..], None)
  }

  lemma AfterIsCut<K>(table: seq<K>, k: nat, after: Option<K>, before: (K, K) -> bool)
    requires Cut(table, k, after, before)
    ensures After(table, after, before) == table[k..]
  {
    NoneFollows(table[..k], table[k..], after, before);
    AllFollow(table[k..], after, before);
    assert table == table[..k] + table[k..];
  }

  lemma SplitOfSearch<K>(rows: seq<K>, limit: nat)
    requires limit >= 1
    ensures SplitPage(if |rows| <= limit + 1 then rows else rows[..limit + 1], limit)
         == Split(if |rows| > limit then rows[..limit] else rows, |rows| > limit)
  {
    if |rows| > limit + 1 {
      assert rows[..limit + 1][..limit] == rows[..limit];
    }
  }

  lemma PageIsCut<K>(table: seq<K>, k: nat, after: Option<K>, limit: nat, before: (K, K) -> bool)
    requires limit >= 1 && Cut(table, k, after, before)
    ensures GetPage(table, after, limit, before) == PageFrom(table, k, limit)
  {
    SearchIsCut(table, k, after, limit, before);
    if k + limit < |table| { FirstOfRest(table, k, limit); }
  }

  lemma SearchIsCut<K>(table: seq<K>, k: nat, after: Option<K>, limit: nat, before: (K, K) -> bool)
    requires limit >= 1 && Cut(table, k, after, before)
    ensures SplitPage(Search(table, after, limit + 1, before), limit)
         == if k + limit < |table| then Split(table[k..][..limit], true) else Split(table[k..], false)
  {
    AfterIsCut(table, k, after, before);
    SplitOfSearch(table[k..], limit);
  }

  lemma FirstOfRest<K>(table: seq<K>, k: nat, limit: nat)
    requires limit >= 1 && k + limit <= |table|
    ensures table[k..][..limit] == table[k..k + limit] && table[k..k + limit][limit - 1] == table[k + limit - 1]
  {
  }

  /** A page is, in order, exactly the first rows after the cursor, as many as fit; it names its last row as the next
      cursor exactly when a row is left. */
  lemma PageExact<K(!new)>(table: seq<K>, after: Option<K>, limit: nat, before: (K, K) -> bool) returns (k: nat)
    requires limit >= 1 && StrictTotal(before) && Ordered(table, before)
    ensures Cut(table, k, after, before)
    ensures var page := GetPage(table, after, limit, before);
      && page.items == table[k..MinInt(k + limit, |table|)] && Ordered(page.items, before)
      && page.next == if |table| - k > limit then Some(page.items[limit - 1]) else None
  {
    k := CutExists(table, after, before);
    PageIsCut(table, k, after, limit, before);
  }

  /** The same for one row: the page has it, or it comes after the page, or before the cursor. */
  lemma PageHasRow<K(!new)>(table: seq<K>, after: Option<K>, limit: nat, before: (K, K) -> bool, x: K)
    requires limit >= 1 && StrictTotal(before) && Ordered(table, before) && x in table
    ensures var page := GetPage(table, after, limit, before);
      && |page.items| <= limit
      && (page.next.Some? ==> |page.items| == limit && page.next.value == page.items[limit - 1])
      && (Follows(x, after, before) ==> x in page.items || (page.next.Some? && before(page.next.value, x)))
      && (x in page.items ==> Follows(x, after, before) && (page.next.Some? ==> !before(page.next.value, x)))
  {
    var k := CutExists(table, after, before);
    PageIsCut(table, k, after, limit, before);
    var i :| 0 <= i < |table| && table[i] == x;
    RowOfPage(table, k, limit, before, i);
  }

  /** Row `i` of an ordered table against the page after the first `k` rows. */
  lemma RowOfPage<K(!new)>(table: seq<K>, k: nat, limit: nat, before: (K, K) -> bool, i: nat)
    requires limit >= 1 && StrictTotal(before) && Ordered(table, before) && k <= |table| && i < |table|
    ensures var page := PageFrom(table, k, limit);
      && (k <= i ==> table[i] in page.items || (page.next.Some? && before(page.next.value, table[i])))
      && (table[i] in page.items ==> k <= i && (page.next.Some? ==> !before(page.next.value, table[i])))
  {
    var page := PageFrom(table, k, limit);
    if k <= i < k + limit {
      assert page.items[i - k] == table[i];
    }
    if table[i] in page.items {
      var j :| 0 <= j < |page.items| && page.items[j] == table[i];
      SameRow(table, before, i, k + j);
      if page.next.Some? { NotBefore(table, before, k + limit - 1, i); }
    }
  }

  lemma SameRow<K(!new)>(table: seq<K>, before: (K, K) -> bool, i: nat, j: nat)
    requires StrictTotal(before) && Ordered(table, before) && i < |table| && j < |table| && table[i] == table[j]
    ensures i == j
  {
    assert !before(table[i], table[j]);
  }

  lemma NotBefore<K(!new)>(table: seq<K>, before: (K, K) -> bool, j: nat, i: nat)
    requires StrictTotal(before) && Ordered(table, before) && i <= j < |table|
    ensures !before(table[j], table[i])
  {
    if i < j {
      assert !Chain(table[i], table[j], table[i], before);
    }
  }

  // ----- whole walks over a changing table

  ghost predicate Walkable<K>(tables: seq<seq<K>>, before: (K, K) -> bool, read: K -> Option<K>) {
    forall c :: 0 <= c < |tables| ==> Ordered(tables[c], before) && forall x :: x in tables[c] ==> read(x) == Some(x)
  }

  ghost predicate AllAfter<K>(items: seq<K>, after: Option<K>, before: (K, K) -> bool) {
    forall i :: 0 <= i < |items| ==> Follows(items[i], after, before)
  }

  /** The row was in the table of one of the first calls. */
  ghost predicate ShownBy<K>(x: K, tables: seq<seq<K>>, calls: nat) {
    exists c :: 0 <= c < calls && c < |tables| && x in tables[c]
  }

  /** Rows come out in strict order, so none comes twice, however the table changes between pages; each was there when
      its page was made. */
  lemma {:induction false} NoRowTwice<K(!new)>(tables: seq<seq<K>>, after: Option<K>, limit: nat,
                                               before: (K, K) -> bool, read: K -> Option<K>)
    requires limit >= 1 && StrictTotal(before) && Walkable(tables, before, read)
    ensures var w := Walk(tables, after, limit, before, read);
      && w.calls <= |tables| && Ordered(w.items, before) && AllAfter(w.items, after, before)
      && (forall i :: 0 <= i < |w.items| ==> ShownBy(w.items[i], tables, w.calls))
    decreases |tables|
  {
    if tables != [] {
      var page := PageInOrder(tables[0], after, limit, before);
      if page.next.None? {
        JoinShown(page.items, [], tables, 0);
        assert page.items + [] == page.items;
      } else {
        assert Walkable(tables[1..], before, read);
        var last := page.next.value;
        NoRowTwice(tables[1..], Some(last), limit, before, read);
        WalkJoined(tables, page, Walk(tables[1..], Some(last), limit, before, read), after, before);
      }
    }
  }

  lemma WalkJoined<K(!new)>(tables: seq<seq<K>>, page: Page<K>, rest: Walked<K>, after: Option<K>,
                            before: (K, K) -> bool)
    requires StrictTotal(before) && tables != [] && page.items != []
    requires Ordered(page.items, before) && AllAfter(page.items, after, before)
    requires forall i :: 0 <= i < |page.items| ==> page.items[i] in tables[0]
    requires Ordered(rest.items, before) && AllAfter(rest.items, Some(page.items[|page.items| - 1]), before)
    requires forall i :: 0 <= i < |rest.items| ==> ShownBy(rest.items[i], tables[1..], rest.calls)
    ensures var items := page.items + rest.items;
      && Ordered(items, before) && AllAfter(items, after, before)
      && (forall i :: 0 <= i < |items| ==> ShownBy(items[i], tables, rest.calls + 1))
  {
    JoinOrdered(page.items, rest.items, after, before);
    JoinShown(page.items, rest.items, tables, rest.calls);
  }

  lemma PageInOrder<K(!new)>(table: seq<K>, after: Option<K>, limit: nat, before: (K, K) -> bool)
    returns (page: Page<K>)
    requires limit >= 1 && StrictTotal(before) && Ordered(table, before)
    ensures page == GetPage(table, after, limit, before)
    ensures Ordered(page.items, before) && AllAfter(page.items, after, before)
    ensures forall i :: 0 <= i < |page.items| ==> page.items[i] in table
    ensures page.next.Some? ==>
      page.items != [] && page.next.value == page.items[|page.items| - 1] && page.next.value in table
  {
    var k := CutExists(table, after, before);
    PageIsCut(table, k, after, limit, before);
    page := PageFrom(table, k, limit);
    assert forall i :: 0 <= i < |page.items| ==> page.items[i] == table[k + i];
  }

  lemma JoinShown<K>(items: seq<K>, rest: seq<K>, tables: seq<seq<K>>, calls: nat)
    requires tables != [] && forall i :: 0 <= i < |items| ==> items[i] in tables[0]
    requires forall i :: 0 <= i < |rest| ==> ShownBy(rest[i], tables[1..], calls)
    ensures forall i :: 0 <= i < |items + rest| ==> ShownBy((items + rest)[i], tables, calls + 1)
  {
    forall i | 0 <= i < |rest| ensures ShownBy(rest[i], tables, calls + 1) {
      assert ShownBy(rest[i], tables[1..], calls);
      var c: int :| 0 <= c < calls && c < |tables[1..]| && rest[i] in tables[1..][c];
      assert tables[1..][c] == tables[c + 1];
    }
  }

  lemma JoinOrdered<K(!new)>(items: seq<K>, rest: seq<K>, after: Option<K>, before: (K, K) -> bool)
    requires StrictTotal(before) && Ordered(items, before) && AllAfter(items, after, before) && items != []
    requires Ordered(rest, before) && AllAfter(rest, Some(items[|items| - 1]), before)
    ensures Ordered(items + rest, before) && AllAfter(items + rest, after, before)
  {
    var last := items[|items| - 1];
    forall i, j | 0 <= i < |items| && 0 <= j < |rest| ensures before(items[i], rest[j]) {
      assert Follows(rest[j], Some(last), before);
      assert items[i] == last || Chain(items[i], last, rest[j], before);
    }
    forall j | 0 <= j < |rest| ensures Follows(rest[j], after, before) {
      assert Follows(items[0], after, before);
      assert after.Some? ==> Chain(after.value, items[0], rest[j], before);
    }
  }

  /** A walk that reached its end returned every row that was there at each of its pages; one that did not was stopped
      by its consumer. */
  lemma {:induction false} NoRowLost<K(!new)>(tables: seq<seq<K>>, after: Option<K>, limit: nat, before: (K, K) -> bool,
                                              read: K -> Option<K>, x: K)
    requires limit >= 1 && StrictTotal(before) && Walkable(tables, before, read)
    ensures var w := Walk(tables, after, limit, before, read);
      && w.calls <= |tables|
      && (!w.finished ==> w.calls == |tables|)
      && (w.finished && Follows(x, after, before) && (forall c :: 0 <= c < w.calls ==> x in tables[c]) ==> x in w.items)
    decreases |tables|
  {
    if tables != [] {
      var page := GetPage(tables[0], after, limit, before);
      if x in tables[0] {
        PageHasRow(tables[0], after, limit, before, x);
      }
      if page.next.Some? {
        var last := page.next.value;
        assert last in tables[0] by {
          var k := CutExists(tables[0], after, before);
          PageIsCut(tables[0], k, after, limit, before);
        }
        NoRowLost(tables[1..], Some(last), limit, before, read, x);
        var rest := Walk(tables[1..], Some(last), limit, before, read);
        var w := Walk(tables, after, limit, before, read);
        if forall c :: 0 <= c < w.calls ==> x in tables[c] {
          assert forall c :: 0 <= c < rest.calls ==> tables[1..][c] == tables[c + 1];
          assert x in tables[0];
        }
      }
    }
  }
}
