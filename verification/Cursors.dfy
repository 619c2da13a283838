/** The cursors of the activity feeds (`apps/studio/src/lib/queries.ts`): the date and the id of a row in one text, read
    back at the first underscore, and the feeds walked with them. */
module Cursors {
  import opened Wrappers
  import opened Moments
  import opened Paging
  import opened StaticPaging
  import opened Strings
  import Schemas

  datatype Row = Row(createdAt: int, id: string)

  const MAX_CURSOR_LENGTH: nat := 256
  const ACTIVITY_PAGE_SIZE: nat := 50
  const ORG_ACTIVITY_PAGE_SIZE: nat := 25

  /** The instants a `Date` can hold: 100 million days either side of 1970, here counted from the year 0. */
  const DAYS_TO_1970: int := 719528

  predicate IsDate(ms: int) {
    -100000000 * MS_PER_DAY <= ms - DAYS_TO_1970 * MS_PER_DAY <= 100000000 * MS_PER_DAY
  }

  function EncodeCursor(r: Row): string {
    IsoText(r.createdAt) + "_" + r.id
  }

  /** The shape with a signed year of six digits, otherwise as the plain one. */
  function ReadSigned(s: string): Option<Stamp> {
    if |s| < 7 || (s[0] != '+' && s[0] != '-') then None
    else match (NumberAt(s, 1, 6), ReadStamp("0000" + s[7..]))
      case (Some(year), Some(t)) => Some(t.(day := t.day.(year := if s[0] == '-' then -year else year)))
      case _ => None
  }

  /** `new Date(text)`; for any other text, or a moment that does not exist, it is what `lenient` says. */
  function ReadDate(s: string, lenient: string -> Option<int>): Option<int> {
    var t := if ReadStamp(s).Some? then ReadStamp(s) else ReadSigned(s);
    if t.Some? && Exists(t.value.day) && TimeExists(t.value) then Some(Instant(t.value)) else lenient(s)
  }

  function DecodeCursor(cursor: string, lenient: string -> Option<int>): Option<Row> {
    var separator := IndexOf(cursor, '_');
    if separator == -1 then None
    else
      var createdAt := ReadDate(cursor[..separator], lenient);
      var id := cursor[separator + 1..];
      if createdAt.None? || id == "" then None else Some(Row(createdAt.value, id))
  }

  // ----- the round trip

  lemma YearInRange(ms: int)
    requires IsDate(ms)
    ensures -999999 <= DayOf(ms / MS_PER_DAY).year <= 999999
  {
    DayOfNumber(ms / MS_PER_DAY);
  }

  lemma {:induction false} PaddedDigits(v: int, n: nat, c: char)
    requires v >= 0 && !Digit(c)
    ensures c !in Padded(v, n)
  {
    if n > 0 {
      PaddedDigits(v / 10, n - 1, c);
    }
  }

  lemma NoUnderscoreInYear(y: int)
    ensures '_' !in YearText(y)
  {
    PaddedDigits(if y < 0 then -y else y, if 0 <= y <= 9999 then 4 else 6, '_');
  }

  lemma NoUnderscoreInDate(d: Day)
    requires d.month >= 0 && d.day >= 0
    ensures '_' !in DateText(d)
  {
    NoUnderscoreInYear(d.year);
    PaddedDigits(d.month, 2, '_');
    PaddedDigits(d.day, 2, '_');
    NotBetween('_', YearText(d.year), Padded(d.month, 2), Padded(d.day, 2));
  }

  lemma NotBetween(c: char, a: string, b: string, d: string)
    requires c != '-' && c !in a && c !in b && c !in d
    ensures c !in a + "-" + b + "-" + d
  {
  }

  lemma NoUnderscoreInTime(ms: int)
    requires ms >= 0
    ensures '_' !in TimeText(ms)
  {
    PaddedDigits(ms / 3600000, 2, '_');
    PaddedDigits(ms / 60000 % 60, 2, '_');
    PaddedDigits(ms / 1000 % 60, 2, '_');
    PaddedDigits(ms % 1000, 3, '_');
  }

  lemma NoUnderscore(ms: int)
    ensures '_' !in IsoText(ms)
  {
    DayOfNumber(ms / MS_PER_DAY);
    NoUnderscoreInDate(DayOf(ms / MS_PER_DAY));
    NoUnderscoreInTime(ms % MS_PER_DAY);
  }

  /** Everything after the year. */
  function AfterYear(d: Day, left: int): string
    requires d.month >= 0 && d.day >= 0 && left >= 0
  {
    "-" + Padded(d.month, 2) + "-" + Padded(d.day, 2) + "T" + TimeText(left)
  }

  lemma Regroup(year: string, month: string, day: string, time: string)
    ensures year + ("-" + month + "-" + day + "T" + time) == year + "-" + month + "-" + day + "T" + time
  {
  }

  lemma SplitAtYear(d: Day, left: int)
    requires d.month >= 0 && d.day >= 0 && left >= 0
    ensures DateText(d) + "T" + TimeText(left) == YearText(d.year) + AfterYear(d, left)
  {
    Regroup(YearText(d.year), Padded(d.month, 2), Padded(d.day, 2), TimeText(left));
  }

  lemma ZeroYear()
    ensures YearText(0) == "0000"
  {
    assert Padded(0, 1) == "0" && Padded(0, 2) == "00" && Padded(0, 3) == "000";
  }

  lemma ReadAfterYear(d: Day, left: int)
    requires 0 <= d.month < 100 && 0 <= d.day < 100 && 0 <= left < MS_PER_DAY
    ensures ReadStamp("0000" + AfterYear(d, left)) == Some(StampOf(d.(year := 0), left))
  {
    ReadDayAndTime(d.(year := 0), left);
    SplitAtYear(d.(year := 0), left);
    ZeroYear();
  }

  lemma ReadSignedText(year: int, rest: string)
    requires -999999 <= year <= 999999 && !(0 <= year <= 9999)
    ensures var s := YearText(year) + rest;
      |s| >= 7 && s[0] == (if year < 0 then '-' else '+') && s[7..] == rest
      && NumberAt(s, 1, 6) == Some(if year < 0 then -year else year)
  {
    var size := if year < 0 then -year else year;
    var s := YearText(year) + rest;
    PaddedLength(size, 6);
    assert s[1..7] == Padded(size, 6);
    assert Power10(6) == 1000000;
    NumberAtSlice(s, 1, size, 6);
  }

  lemma ReadSignedPieces(year: int, rest: string, t: Stamp)
    requires -999999 <= year <= 999999 && !(0 <= year <= 9999)
    requires ReadStamp("0000" + rest) == Some(t)
    ensures ReadSigned(YearText(year) + rest) == Some(t.(day := t.day.(year := year)))
  {
    ReadSignedText(year, rest);
  }

  lemma ReadSignedDay(d: Day, left: int)
    requires -999999 <= d.year <= 999999 && !(0 <= d.year <= 9999)
    requires 0 <= d.month < 100 && 0 <= d.day < 100 && 0 <= left < MS_PER_DAY
    ensures ReadSigned(DateText(d) + "T" + TimeText(left)) == Some(StampOf(d, left))
  {
    SplitAtYear(d, left);
    ReadAfterYear(d, left);
    ReadSignedPieces(d.year, AfterYear(d, left), StampOf(d.(year := 0), left));
  }

  /** A date outside the years 0 to 9999 is read back through its six-digit year. */
  lemma SignedYearReadsBack(ms: int)
    requires IsDate(ms) && !FourDigitYear(ms)
    ensures ReadSigned(IsoText(ms)) == Some(StampOf(DayOf(ms / MS_PER_DAY), ms % MS_PER_DAY))
  {
    YearInRange(ms);
    DayOfNumber(ms / MS_PER_DAY);
    ReadSignedDay(DayOf(ms / MS_PER_DAY), ms % MS_PER_DAY);
  }

  lemma DateReadsBack(ms: int, lenient: string -> Option<int>)
    requires IsDate(ms)
    ensures ReadDate(IsoText(ms), lenient) == Some(ms)
  {
    if FourDigitYear(ms) {
      IsoTextReadsBack(ms);
    } else {
      SignedYearIsRefused(ms);
      SignedYearReadsBack(ms);
      InstantOfStamp(ms);
    }
  }

  lemma FirstUnderscore(date: string, id: string)
    requires '_' !in date
    ensures var cursor := date + "_" + id;
      IndexOf(cursor, '_') == |date| && cursor[..|date|] == date && cursor[|date| + 1..] == id
  {
    IndexOfFirst(date, '_', id);
    assert date + "_" + id == date + ['_'] + id;
  }

  /** A cursor decodes to the row it was made from, underscores in the id included, exactly when the row has an id. */
  lemma CursorReadsBack(r: Row, lenient: string -> Option<int>)
    requires IsDate(r.createdAt)
    ensures DecodeCursor(EncodeCursor(r), lenient) == if r.id == "" then None else Some(r)
  {
    NoUnderscore(r.createdAt);
    FirstUnderscore(IsoText(r.createdAt), r.id);
    DateReadsBack(r.createdAt, lenient);
  }

  // ----- newest first, ids the other way round for rows of the same moment

  /** The UTF-16 code units of a character; `<` on JavaScript strings compares these. */
  function FirstUnit(c: char): int {
    var n := c as int;
    if n < 0x10000 then n else 0xD800 + (n - 0x10000) / 0x400
  }

  function SecondUnit(c: char): int {
    var n := c as int;
    if n < 0x10000 then 0 else 0xDC00 + (n - 0x10000) % 0x400
  }

  predicate CharBefore(a: char, b: char) {
    FirstUnit(a) < FirstUnit(b) || (FirstUnit(a) == FirstUnit(b) && SecondUnit(a) < SecondUnit(b))
  }

  lemma UnitsDiffer(a: char, b: char)
    ensures FirstUnit(a) == FirstUnit(b) && SecondUnit(a) == SecondUnit(b) ==> a == b
  {
  }

  predicate TextBefore(a: string, b: string) {
    b != "" && (a == "" || CharBefore(a[0], b[0]) || (a[0] == b[0] && TextBefore(a[1..], b[1..])))
  }

  predicate Newer(a: Row, b: Row) {
    a.createdAt > b.createdAt || (a.createdAt == b.createdAt && TextBefore(b.id, a.id))
  }

  lemma {:induction false} TextIrreflexive(a: string)
    ensures !TextBefore(a, a)
  {
    if a != "" {
      TextIrreflexive(a[1..]);
    }
  }

  lemma {:induction false} TextTransitive(a: string, b: string, c: string)
    requires TextBefore(a, b) && TextBefore(b, c)
    ensures TextBefore(a, c)
  {
    if a != "" && a[0] == b[0] == c[0] {
      TextTransitive(a[1..], b[1..], c[1..]);
    }
  }

  lemma {:induction false} TextTotal(a: string, b: string)
    ensures TextBefore(a, b) || a == b || TextBefore(b, a)
  {
    if a != "" && b != "" {
      UnitsDiffer(a[0], b[0]);
      if a[0] == b[0] {
        TextTotal(a[1..], b[1..]);
        assert a == [a[0]] + a[1..] && b == [b[0]] + b[1..];
      }
    }
  }

  lemma NewerIsStrictTotal()
    ensures StrictTotal(Newer)
  {
    forall a: Row ensures !Newer(a, a) {
      TextIrreflexive(a.id);
    }
    forall a, b, c | Chain(a, b, c, Newer) ensures Newer(a, c) {
      if a.createdAt == b.createdAt == c.createdAt {
        TextTransitive(c.id, b.id, a.id);
      }
    }
    forall a, b ensures Related(a, b, Newer) {
      TextTotal(a.id, b.id);
    }
  }

  // ----- the feeds

  /** What `getActivityPage` makes of the cursor of a row: an empty cursor would be the first page. */
  function ActivityReads(lenient: string -> Option<int>): Row -> Option<Row> {
    r => if EncodeCursor(r) == "" then None else DecodeCursor(EncodeCursor(r), lenient)
  }

  /** `getOrgActivityPage` also takes a cursor that is too long for none at all. */
  function OrgActivityReads(lenient: string -> Option<int>): Row -> Option<Row> {
    r =>
      var cursor := EncodeCursor(r);
      if cursor == "" || Schemas.Length(cursor) > MAX_CURSOR_LENGTH then None else DecodeCursor(cursor, lenient)
  }

  ghost predicate Stored(table: seq<Row>) {
    Ordered(table, Newer) && forall r :: r in table ==> IsDate(r.createdAt) && r.id != ""
  }

  /** Whatever is recorded or removed between its pages, the activity feed shows no entry twice and misses none that
      stayed. */
  lemma ActivityFeedIsExact(tables: seq<seq<Row>>, lenient: string -> Option<int>, r: Row)
    requires forall c :: 0 <= c < |tables| ==> Stored(tables[c])
    ensures var w := Walk(tables, None, ACTIVITY_PAGE_SIZE, Newer, ActivityReads(lenient));
      && Ordered(w.items, Newer)
      && (w.finished && (forall c :: 0 <= c < w.calls ==> c < |tables| && r in tables[c]) ==> r in w.items)
      && (w.finished || w.calls == |tables|)
  {
    NewerIsStrictTotal();
    var read := ActivityReads(lenient);
    forall c, x | 0 <= c < |tables| && x in tables[c] ensures read(x) == Some(x) {
      CursorReadsBack(x, lenient);
    }
    assert Walkable(tables, Newer, read);
    NoRowTwice(tables, None, ACTIVITY_PAGE_SIZE, Newer, read);
    NoRowLost(tables, None, ACTIVITY_PAGE_SIZE, Newer, read, r);
  }

  lemma {:induction false} LengthOfConcat(a: string, b: string)
    ensures Schemas.Length(a + b) == Schemas.Length(a) + Schemas.Length(b)
  {
    if a == "" {
      assert a + b == b;
    } else {
      LengthOfConcat(a[1..], b);
      assert (a + b)[1..] == a[1..] + b;
    }
  }

  /** The cursor made from this row is longer than `getOrgActivityPage` reads. */
  predicate CursorTooLong(r: Row) {
    Schemas.Length(IsoText(r.createdAt)) + 1 + Schemas.Length(r.id) > MAX_CURSOR_LENGTH
  }

  lemma OrgReads(r: Row, lenient: string -> Option<int>)
    requires IsDate(r.createdAt) && r.id != ""
    ensures OrgActivityReads(lenient)(r) == if CursorTooLong(r) then None else Some(r)
  {
    CursorReadsBack(r, lenient);
    LengthOfConcat(IsoText(r.createdAt) + "_", r.id);
    LengthOfConcat(IsoText(r.createdAt), "_");
    assert Schemas.Length("_") == 1;
  }

  /** A page ends after the first `p` rows, others follow, and the cursor it hands out is too long. */
  ghost predicate StuckAt(table: seq<Row>, p: nat) {
    0 < p < |table| && p % ORG_ACTIVITY_PAGE_SIZE == 0 && CursorTooLong(table[p - 1])
  }

  lemma OrgCursors(table: seq<Row>, lenient: string -> Option<int>)
    requires Stored(table)
    ensures TrueOrLost(table, OrgActivityReads(lenient))
    ensures forall p: nat :: LostAt(table, ORG_ACTIVITY_PAGE_SIZE, OrgActivityReads(lenient), p) <==> StuckAt(table, p)
  {
    var read := OrgActivityReads(lenient);
    forall r | r in table ensures read(r) == if CursorTooLong(r) then None else Some(r) {
      OrgReads(r, lenient);
    }
    forall p: nat ensures LostAt(table, ORG_ACTIVITY_PAGE_SIZE, read, p) <==> StuckAt(table, p) {
      assert 0 < p < |table| ==> table[p - 1] in table;
    }
  }

  /** The organization's feed, read to its end while nothing changes, ends exactly when no page but the last stops at a
      row whose cursor is too long; otherwise it goes back to the first page each time. */
  lemma OrgFeedEndsIff(table: seq<Row>, lenient: string -> Option<int>)
    requires Stored(table)
    ensures (exists n: nat :: WalkOf(table, n, ORG_ACTIVITY_PAGE_SIZE, Newer, OrgActivityReads(lenient)).finished)
      <==> forall p: nat :: !StuckAt(table, p)
  {
    NewerIsStrictTotal();
    OrgCursors(table, lenient);
    WalkEndsIffCursorsAreRead(table, ORG_ACTIVITY_PAGE_SIZE, Newer, OrgActivityReads(lenient));
  }

  lemma {:induction false} LengthAtLeast(s: string)
    ensures Schemas.Length(s) >= |s|
  {
    if s != "" {
      LengthAtLeast(s[1..]);
    }
  }

  /** Such a feed: 26 entries, a page and one more, with ids of 256 characters. */
  lemma OrgFeedCanRepeatForever(lenient: string -> Option<int>) returns (table: seq<Row>)
    ensures Stored(table) && |table| == ORG_ACTIVITY_PAGE_SIZE + 1
    ensures forall n: nat :: !WalkOf(table, n, ORG_ACTIVITY_PAGE_SIZE, Newer, OrgActivityReads(lenient)).finished
  {
    var id := seq(256, _ => 'a');
    table := seq(26, i => Row(DAYS_TO_1970 * MS_PER_DAY - i, id));
    LengthAtLeast(id);
    assert StuckAt(table, 25);
    OrgFeedEndsIff(table, lenient);
  }

  // ----- the other lists: the cursor is the id or key of a row as it is

  /** What a list makes of such a cursor: `cleanCursor` drops an empty one and one that is too long. */
  function KeyReads(key: string): Option<string> {
    if key == "" || Schemas.Length(key) > MAX_CURSOR_LENGTH then None else Some(key)
  }

  ghost predicate KeyStuckAt(table: seq<string>, limit: nat, p: nat)
    requires limit >= 1
  {
    0 < p < |table| && p % limit == 0 && (table[p - 1] == "" || Schemas.Length(table[p - 1]) > 256)
  }

  /** Whatever its page size and order, a list read to its end while nothing changes ends, with every row once, exactly
      when no page but the last stops at a key that is empty or longer than 256. */
  lemma KeyListEndsIff(table: seq<string>, limit: nat, before: (string, string) -> bool)
    requires limit >= 1 && StrictTotal(before) && Ordered(table, before)
    ensures (exists n: nat :: WalkOf(table, n, limit, before, KeyReads).finished)
      <==> forall p: nat :: !KeyStuckAt(table, limit, p)
    ensures forall n: nat :: WalkOf(table, n, limit, before, KeyReads).finished ==>
      WalkOf(table, n, limit, before, KeyReads).items == table
  {
    WalkEndsIffCursorsAreRead(table, limit, before, KeyReads);
    assert forall p: nat :: LostAt(table, limit, KeyReads, p) <==> KeyStuckAt(table, limit, p);
  }
}
