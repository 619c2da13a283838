/** RFC 3339 moments as `packages/server/src/schema.ts` reads and writes them: the text form, the check that the moment
    exists, `Date.parse` and `toISOString`. Instants are milliseconds since the start of year 0. */
module Moments {
  import opened Wrappers

  // ----- the calendar

  predicate IsLeap(y: int) { y % 4 == 0 && (y % 100 != 0 || y % 400 == 0) }

  /** Days from the start of year 0 to the start of year `y`. */
  function DaysBeforeYear(y: int): int { 365 * y + (y + 3) / 4 - (y + 99) / 100 + (y + 399) / 400 }

  function DaysInYear(y: int): int { if IsLeap(y) then 366 else 365 }

  function DaysInMonth(y: int, m: int): int {
    if m == 2 then (if IsLeap(y) then 29 else 28)
    else if m == 4 || m == 6 || m == 9 || m == 11 then 30 else 31
  }

  function DaysBeforeMonth(y: int, m: int): int
    decreases if m > 1 then m else 0
  {
    if m <= 1 then 0 else DaysBeforeMonth(y, m - 1) + DaysInMonth(y, m - 1)
  }

  datatype Day = Day(year: int, month: int, day: int)

  predicate Exists(d: Day) { 1 <= d.month <= 12 && 1 <= d.day <= DaysInMonth(d.year, d.month) }

  function DayNumber(d: Day): int { DaysBeforeYear(d.year) + DaysBeforeMonth(d.year, d.month) + d.day - 1 }

  lemma Fourths(y: int)
    ensures (y + 4) / 4 == (y + 3) / 4 + (if y % 4 == 0 then 1 else 0)
  {
  }

  lemma Hundredths(y: int)
    ensures (y + 100) / 100 == (y + 99) / 100 + (if y % 100 == 0 then 1 else 0)
    ensures y % 100 == 0 ==> y % 4 == 0
  {
    var q, r := y / 100, y % 100;
    assert y == 100 * q + r;
    assert (y + 100) / 100 == q + 1;
    assert (y + 99) / 100 == if r == 0 then q else q + 1;
  }

  lemma FourHundredths(y: int)
    ensures (y + 400) / 400 == (y + 399) / 400 + (if y % 400 == 0 then 1 else 0)
    ensures y % 400 == 0 ==> y % 100 == 0
  {
    var q, r := y / 400, y % 400;
    assert y == 400 * q + r;
    assert (y + 400) / 400 == q + 1;
    assert (y + 399) / 400 == if r == 0 then q else q + 1;
  }

  lemma YearLength(y: int)
    ensures DaysBeforeYear(y + 1) == DaysBeforeYear(y) + DaysInYear(y)
  {
    Fourths(y);
    Hundredths(y);
    FourHundredths(y);
  }

  lemma MonthsFillYear(y: int)
    ensures DaysBeforeMonth(y, 13) == DaysInYear(y)
  {
    assert DaysBeforeMonth(y, 4) == DaysBeforeMonth(y, 1) + 31 + DaysInMonth(y, 2) + 31;
    assert DaysBeforeMonth(y, 7) == DaysBeforeMonth(y, 4) + 91;
    assert DaysBeforeMonth(y, 10) == DaysBeforeMonth(y, 7) + 92;
    assert DaysBeforeMonth(y, 13) == DaysBeforeMonth(y, 10) + 92;
  }

  /** The year a day falls in: the largest one that starts no later. */
  function YearUp(days: int, y: int): int
    requires DaysBeforeYear(y) <= days
    decreases days - DaysBeforeYear(y)
  {
    YearLength(y);
    if days < DaysBeforeYear(y + 1) then y else YearUp(days, y + 1)
  }

  function YearDown(days: int, y: int): int
    requires days < DaysBeforeYear(y)
    decreases DaysBeforeYear(y) - days
  {
    YearLength(y - 1);
    if DaysBeforeYear(y - 1) <= days then y - 1 else YearDown(days, y - 1)
  }

  function YearOf(days: int): int {
    if days >= 0 then YearUp(days, 0) else YearDown(days, 0)
  }

  function MonthUp(y: int, left: int, m: int): int
    requires 1 <= m <= 12 && DaysBeforeMonth(y, m) <= left < DaysInYear(y)
    decreases 12 - m
  {
    MonthsFillYear(y);
    if m == 12 || left < DaysBeforeMonth(y, m + 1) then m else MonthUp(y, left, m + 1)
  }

  lemma {:induction false} YearUpFits(days: int, y: int)
    requires DaysBeforeYear(y) <= days
    ensures DaysBeforeYear(YearUp(days, y)) <= days < DaysBeforeYear(YearUp(days, y) + 1)
    decreases days - DaysBeforeYear(y)
  {
    YearLength(y);
    if days >= DaysBeforeYear(y + 1) { YearUpFits(days, y + 1); }
  }

  lemma {:induction false} YearDownFits(days: int, y: int)
    requires days < DaysBeforeYear(y)
    ensures DaysBeforeYear(YearDown(days, y)) <= days < DaysBeforeYear(YearDown(days, y) + 1)
    decreases DaysBeforeYear(y) - days
  {
    YearLength(y - 1);
    if days < DaysBeforeYear(y - 1) { YearDownFits(days, y - 1); }
  }

  lemma YearFits(days: int)
    ensures DaysBeforeYear(YearOf(days)) <= days < DaysBeforeYear(YearOf(days)) + DaysInYear(YearOf(days))
  {
    if days >= 0 { YearUpFits(days, 0); } else { YearDownFits(days, 0); }
    YearLength(YearOf(days));
  }

  lemma {:induction false} MonthUpFits(y: int, left: int, m: int)
    requires 1 <= m <= 12 && DaysBeforeMonth(y, m) <= left < DaysInYear(y)
    ensures m <= MonthUp(y, left, m) <= 12
    ensures DaysBeforeMonth(y, MonthUp(y, left, m)) <= left < DaysBeforeMonth(y, MonthUp(y, left, m) + 1)
    decreases 12 - m
  {
    MonthsFillYear(y);
    if m < 12 && left >= DaysBeforeMonth(y, m + 1) { MonthUpFits(y, left, m + 1); }
  }

  /** The calendar day of a day number. */
  function DayOf(days: int): Day {
    YearFits(days);
    var y := YearOf(days);
    var left := days - DaysBeforeYear(y);
    var m := MonthUp(y, left, 1);
    Day(y, m, left - DaysBeforeMonth(y, m) + 1)
  }

  lemma DayOfNumber(days: int)
    ensures Exists(DayOf(days)) && DayNumber(DayOf(days)) == days
  {
    YearFits(days);
    MonthUpFits(YearOf(days), days - DaysBeforeYear(YearOf(days)), 1);
  }

  lemma {:induction false} YearsApart(a: int, b: int)
    requires a < b
    ensures DaysBeforeYear(a) + DaysInYear(a) <= DaysBeforeYear(b)
    decreases b - a
  {
    YearLength(b - 1);
    if a < b - 1 { YearsApart(a, b - 1); }
  }

  lemma {:induction false} MonthsApart(y: int, m: int, n: int)
    requires 1 <= m < n
    ensures DaysBeforeMonth(y, m) + DaysInMonth(y, m) <= DaysBeforeMonth(y, n)
    decreases n - m
  {
    if m < n - 1 { MonthsApart(y, m, n - 1); }
  }

  lemma DayWithinYear(d: Day)
    requires Exists(d)
    ensures DaysBeforeYear(d.year) <= DayNumber(d) < DaysBeforeYear(d.year) + DaysInYear(d.year)
  {
    MonthsApart(d.year, d.month, 13);
    MonthsFillYear(d.year);
    if d.month > 1 { MonthsApart(d.year, 1, d.month); }
  }

  /** No two calendar days have the same number. */
  lemma DaysDiffer(d: Day, e: Day)
    requires Exists(d) && Exists(e) && DayNumber(d) == DayNumber(e)
    ensures d == e
  {
    DayWithinYear(d);
    DayWithinYear(e);
    if d.year < e.year { YearsApart(d.year, e.year); }
    if e.year < d.year { YearsApart(e.year, d.year); }
    if d.month < e.month { MonthsApart(d.year, d.month, e.month); }
    if e.month < d.month { MonthsApart(d.year, e.month, d.month); }
  }

  /** Day numbers and calendar days are one to one. */
  lemma DayOfNumberExact(d: Day, days: int)
    ensures Exists(d) && DayNumber(d) == days <==> d == DayOf(days)
  {
    DayOfNumber(days);
    if Exists(d) && DayNumber(d) == days { DaysDiffer(d, DayOf(days)); }
  }

  // ----- digits

  predicate Digit(c: char) { '0' <= c <= '9' }

  function DigitValue(c: char): int
    requires Digit(c)
  {
    c as int - '0' as int
  }

  function DigitChar(n: int): char
    requires 0 <= n <= 9
  {
    (n + '0' as int) as char
  }

  /** The number written in the `n` digits from position `i`. */
  function NumberAt(s: string, i: nat, n: nat): Option<int> {
    if n == 0 then Some(0)
    else if i + n > |s| || !Digit(s[i + n - 1]) then None
    else match NumberAt(s, i, n - 1)
      case None => None
      case Some(high) => Some(high * 10 + DigitValue(s[i + n - 1]))
  }

  /** The last `n` decimal digits of a number. */
  function Padded(v: int, n: nat): string
    requires v >= 0
  {
    if n == 0 then "" else Padded(v / 10, n - 1) + [DigitChar(v % 10)]
  }

  function Power10(n: nat): int { if n == 0 then 1 else 10 * Power10(n - 1) }

  lemma {:induction false} PaddedLength(v: int, n: nat)
    requires v >= 0
    ensures |Padded(v, n)| == n
    ensures forall i :: 0 <= i < n ==> Digit(Padded(v, n)[i])
  {
    if n > 0 { PaddedLength(v / 10, n - 1); }
  }

  /** Digits written are the digits read, wherever they stand. */
  lemma {:induction false} NumberAtPadded(before: string, v: int, n: nat, after: string)
    requires 0 <= v < Power10(n)
    ensures NumberAt(before + Padded(v, n) + after, |before|, n) == Some(v)
  {
    PaddedLength(v, n);
    if n > 0 {
      var last := [DigitChar(v % 10)];
      assert before + Padded(v, n) + after == before + Padded(v / 10, n - 1) + (last + after);
      PaddedLength(v / 10, n - 1);
      NumberAtPadded(before, v / 10, n - 1, last + after);
      assert (before + Padded(v, n) + after)[|before| + n - 1] == last[0];
    }
  }

  // ----- the text form

  datatype Zone = Zulu | Offset(west: bool, hours: int, minutes: int)

  datatype Stamp = Stamp(day: Day, hour: int, minute: int, second: int, millis: int, zone: Zone)

  function DigitRun(s: string, i: nat): nat
    decreases |s| - i
  {
    if i < |s| && Digit(s[i]) then 1 + DigitRun(s, i + 1) else 0
  }

  predicate At(s: string, i: nat, c: char) { i < |s| && s[i] == c }

  function ReadZone(s: string, i: nat): Option<Zone> {
    if At(s, i, 'Z') && |s| == i + 1 then Some(Zulu)
    else if |s| == i + 6 && (s[i] == '+' || s[i] == '-') && s[i + 3] == ':'
         && NumberAt(s, i + 1, 2).Some? && NumberAt(s, i + 4, 2).Some?
    then Some(Offset(s[i] == '-', NumberAt(s, i + 1, 2).value, NumberAt(s, i + 4, 2).value))
    else None
  }

  /** The fraction of a second, to the millisecond: `Date.parse` drops further digits. */
  function MillisAt(s: string, i: nat, digits: nat): int {
    if digits == 1 then NumberAt(s, i, 1).GetOr(0) * 100
    else if digits == 2 then NumberAt(s, i, 2).GetOr(0) * 10
    else NumberAt(s, i, 3).GetOr(0)
  }

  /** The regular expression RFC3339, with its groups. */
  function ReadStamp(s: string): Option<Stamp> {
    var fraction := At(s, 19, '.');
    var digits := if fraction then DigitRun(s, 20) else 0;
    var zone := ReadZone(s, if fraction then 20 + digits else 19);
    if !At(s, 4, '-') || !At(s, 7, '-') || !At(s, 10, 'T') || !At(s, 13, ':') || !At(s, 16, ':') then None
    else if NumberAt(s, 0, 4).None? || NumberAt(s, 5, 2).None? || NumberAt(s, 8, 2).None? then None
    else if NumberAt(s, 11, 2).None? || NumberAt(s, 14, 2).None? || NumberAt(s, 17, 2).None? then None
    else if (fraction && !(1 <= digits <= 9)) || zone.None? then None
    else Some(Stamp(Day(NumberAt(s, 0, 4).value, NumberAt(s, 5, 2).value, NumberAt(s, 8, 2).value),
                    NumberAt(s, 11, 2).value, NumberAt(s, 14, 2).value, NumberAt(s, 17, 2).value,
                    if fraction then MillisAt(s, 20, digits) else 0, zone.value))
  }

  /** `Date.UTC(year, month, 0)` is the last day of the month, but it reads the years 0 to 99 as 1900 to 1999. */
  function LastDayChecked(y: int, m: int): int { DaysInMonth(if 0 <= y <= 99 then y + 1900 else y, m) }

  predicate TimeExists(t: Stamp) {
    && t.hour <= 23 && t.minute <= 59 && t.second <= 59
    && (t.zone.Offset? ==> t.zone.hours <= 23 && t.zone.minutes <= 59)
  }

  predicate IsRealMoment(s: string) {
    match ReadStamp(s)
    case None => false
    case Some(t) =>
      && 1 <= t.day.month <= 12 && 1 <= t.day.day && TimeExists(t)
      && t.day.day <= LastDayChecked(t.day.year, t.day.month)
  }

  /** The check refuses exactly the moments that do not exist, and one that does: 29 February of the year 0. */
  lemma RealMomentsExist(s: string)
    requires ReadStamp(s).Some?
    ensures var t := ReadStamp(s).value;
      IsRealMoment(s) <==> Exists(t.day) && TimeExists(t) && t.day != Day(0, 2, 29)
  {
    var day := ReadStamp(s).value.day;
    NumberRange(s, 0, 4);
    LastDayIsRight(day.year, day.month);
  }

  /** The detour over the years 1900 to 1999 changes the last day of one month alone. */
  lemma LastDayIsRight(y: int, m: int)
    requires y >= 0
    ensures LastDayChecked(y, m) == if y == 0 && m == 2 then 28 else DaysInMonth(y, m)
  {
    if 0 < y <= 99 { SameLeapYears(y); }
  }

  lemma SameLeapYears(y: int)
    requires 0 < y <= 99
    ensures IsLeap(y + 1900) <==> IsLeap(y)
  {
    assert (y + 1900) % 4 == y % 4;
    assert y % 100 == y && (y + 1900) % 100 == y;
  }

  /** The first second of that day: it exists, and the check refuses it. */
  lemma LeapDayOfYearZero()
    ensures var s := "0000-02-29T00:00:00Z";
      && ReadStamp(s) == Some(Stamp(Day(0, 2, 29), 0, 0, 0, 0, Zulu))
      && Exists(Day(0, 2, 29)) && !IsRealMoment(s)
  {
    StampOfDigits("0000-02-29T00:00:00Z");
    RealMomentsExist("0000-02-29T00:00:00Z");
  }

  ghost predicate DigitsAt(s: string, i: nat, n: nat)
    requires i + n <= |s|
  {
    forall j :: i <= j < i + n ==> Digit(s[j])
  }

  function TwoAt(s: string, i: nat): int
    requires i + 2 <= |s| && Digit(s[i]) && Digit(s[i + 1])
  {
    DigitValue(s[i]) * 10 + DigitValue(s[i + 1])
  }

  /** What a text to the second with zone Z reads as. */
  lemma StampOfDigits(s: string)
    requires |s| == 20 && s[4] == s[7] == '-' && s[10] == 'T' && s[13] == s[16] == ':' && s[19] == 'Z'
    requires DigitsAt(s, 0, 4) && DigitsAt(s, 5, 2) && DigitsAt(s, 8, 2)
    requires DigitsAt(s, 11, 2) && DigitsAt(s, 14, 2) && DigitsAt(s, 17, 2)
    ensures ReadStamp(s) == Some(Stamp(Day(TwoAt(s, 0) * 100 + TwoAt(s, 2), TwoAt(s, 5), TwoAt(s, 8)),
                                       TwoAt(s, 11), TwoAt(s, 14), TwoAt(s, 17), 0, Zulu))
  {
    FourDigits(s, 0);
    TwoDigits(s, 5);
    TwoDigits(s, 8);
    TwoDigits(s, 11);
    TwoDigits(s, 14);
    TwoDigits(s, 17);
  }

  lemma TwoDigits(s: string, i: nat)
    requires i + 2 <= |s| && DigitsAt(s, i, 2)
    ensures NumberAt(s, i, 2) == Some(TwoAt(s, i))
  {
    assert NumberAt(s, i, 1) == Some(DigitValue(s[i]));
  }

  lemma FourDigits(s: string, i: nat)
    requires i + 4 <= |s| && DigitsAt(s, i, 4)
    ensures NumberAt(s, i, 4) == Some(TwoAt(s, i) * 100 + TwoAt(s, i + 2))
  {
    TwoDigits(s, i);
    assert NumberAt(s, i, 3) == Some(TwoAt(s, i) * 10 + DigitValue(s[i + 2]));
  }

  lemma {:induction false} NumberRange(s: string, i: nat, n: nat)
    ensures NumberAt(s, i, n).Some? ==> 0 <= NumberAt(s, i, n).value < Power10(n)
  {
    if n > 0 { NumberRange(s, i, n - 1); }
  }

  function OffsetMinutes(z: Zone): int {
    match z
    case Zulu => 0
    case Offset(west, hours, minutes) => if west then -(hours * 60 + minutes) else hours * 60 + minutes
  }

  const MS_PER_DAY: int := 86400000

  function Instant(t: Stamp): int {
    DayNumber(t.day) * MS_PER_DAY + t.hour * 3600000 + (t.minute - OffsetMinutes(t.zone)) * 60000
    + t.second * 1000 + t.millis
  }

  /** `Date.parse` of a text of the right shape: for a day or a time that does not exist it rolls over or gives up,
      which `lenient` stands for. */
  function ParseDate(s: string, lenient: string -> Option<int>): Option<int> {
    match ReadStamp(s)
    case None => None
    case Some(t) => if Exists(t.day) && TimeExists(t) then Some(Instant(t)) else lenient(s)
  }

  // ----- writing

  function YearText(y: int): string {
    if 0 <= y <= 9999 then Padded(y, 4) else if y < 0 then "-" + Padded(-y, 6) else "+" + Padded(y, 6)
  }

  function DateText(d: Day): string
    requires d.month >= 0 && d.day >= 0
  {
    YearText(d.year) + "-" + Padded(d.month, 2) + "-" + Padded(d.day, 2)
  }

  function TimeText(ms: int): string
    requires ms >= 0
  {
    Padded(ms / 3600000, 2) + ":" + Padded(ms / 60000 % 60, 2) + ":"
    + Padded(ms / 1000 % 60, 2) + "." + Padded(ms % 1000, 3) + "Z"
  }

  /** `toISOString`. */
  function IsoText(ms: int): string {
    DayOfNumber(ms / MS_PER_DAY);
    DateText(DayOf(ms / MS_PER_DAY)) + "T" + TimeText(ms % MS_PER_DAY)
  }

  /** The instants whose year is written with four digits. */
  predicate FourDigitYear(ms: int) { 0 <= DayOf(ms / MS_PER_DAY).year <= 9999 }

  lemma NumberAtSlice(s: string, i: nat, v: int, n: nat)
    requires 0 <= v < Power10(n) && i + n <= |s| && s[i..i + n] == Padded(v, n)
    ensures NumberAt(s, i, n) == Some(v)
  {
    assert s == s[..i] + Padded(v, n) + s[i + n..];
    NumberAtPadded(s[..i], v, n, s[i + n..]);
  }

  lemma ReadDateText(d: Day, rest: string)
    requires 0 <= d.year <= 9999 && 0 <= d.month < 100 && 0 <= d.day < 100
    ensures var s := DateText(d) + rest;
      && |DateText(d)| == 10 && At(s, 4, '-') && At(s, 7, '-')
      && NumberAt(s, 0, 4) == Some(d.year) && NumberAt(s, 5, 2) == Some(d.month) && NumberAt(s, 8, 2) == Some(d.day)
  {
    var s := DateText(d) + rest;
    PaddedLength(d.year, 4);
    PaddedLength(d.month, 2);
    PaddedLength(d.day, 2);
    Powers();
    assert s[0..4] == Padded(d.year, 4);
    assert s[5..7] == Padded(d.month, 2);
    assert s[8..10] == Padded(d.day, 2);
    NumberAtSlice(s, 0, d.year, 4);
    NumberAtSlice(s, 5, d.month, 2);
    NumberAtSlice(s, 8, d.day, 2);
  }

  lemma Powers()
    ensures Power10(1) == 10 && Power10(2) == 100 && Power10(3) == 1000 && Power10(4) == 10000
  {
  }

  lemma TimePieces(before: string, h: string, m: string, sec: string, f: string)
    requires |before| == 11 && |h| == |m| == |sec| == 2 && |f| == 3
    ensures var s := before + (h + ":" + m + ":" + sec + "." + f + "Z");
      && |s| == 24 && At(s, 13, ':') && At(s, 16, ':') && At(s, 19, '.') && At(s, 23, 'Z')
      && s[11..13] == h && s[14..16] == m && s[17..19] == sec && s[20..23] == f
  {
  }

  lemma ReadTimeText(before: string, ms: int)
    requires |before| == 11 && 0 <= ms < MS_PER_DAY
    ensures var s := before + TimeText(ms);
      && |s| == 24 && At(s, 13, ':') && At(s, 16, ':') && At(s, 19, '.') && At(s, 23, 'Z')
      && NumberAt(s, 11, 2) == Some(ms / 3600000) && NumberAt(s, 14, 2) == Some(ms / 60000 % 60)
      && NumberAt(s, 17, 2) == Some(ms / 1000 % 60) && NumberAt(s, 20, 3) == Some(ms % 1000)
  {
    var s := before + TimeText(ms);
    var h, m, sec, f := ms / 3600000, ms / 60000 % 60, ms / 1000 % 60, ms % 1000;
    PaddedLength(h, 2);
    PaddedLength(m, 2);
    PaddedLength(sec, 2);
    PaddedLength(f, 3);
    TimePieces(before, Padded(h, 2), Padded(m, 2), Padded(sec, 2), Padded(f, 3));
    Powers();
    NumberAtSlice(s, 11, h, 2);
    NumberAtSlice(s, 14, m, 2);
    NumberAtSlice(s, 17, sec, 2);
    NumberAtSlice(s, 20, f, 3);
  }

  lemma DigitsOfFraction(s: string)
    requires |s| == 24 && s[23] == 'Z' && NumberAt(s, 20, 3).Some?
    ensures DigitRun(s, 20) == 3
  {
    assert NumberAt(s, 20, 3).Some? ==> NumberAt(s, 20, 2).Some?;
    assert NumberAt(s, 20, 2).Some? ==> NumberAt(s, 20, 1).Some?;
    assert Digit(s[20]) && Digit(s[21]) && Digit(s[22]) && !Digit(s[23]);
    assert DigitRun(s, 23) == 0;
    assert DigitRun(s, 22) == 1 + DigitRun(s, 23);
    assert DigitRun(s, 21) == 1 + DigitRun(s, 22);
  }

  lemma TimeParts(ms: int)
    requires 0 <= ms < MS_PER_DAY
    ensures ms / 3600000 * 3600000 + ms / 60000 % 60 * 60000 + ms / 1000 % 60 * 1000 + ms % 1000 == ms
    ensures 0 <= ms / 3600000 <= 23
  {
    var sec := ms / 1000;
    assert ms == sec * 1000 + ms % 1000;
    var min := sec / 60;
    assert min == ms / 60000 && sec == min * 60 + sec % 60;
    assert min / 60 == ms / 3600000 && min == min / 60 * 60 + min % 60;
  }

  function StampOf(d: Day, left: int): Stamp {
    Stamp(d, left / 3600000, left / 60000 % 60, left / 1000 % 60, left % 1000, Zulu)
  }

  lemma ReadDayAndTime(d: Day, left: int)
    requires 0 <= d.year <= 9999 && 0 <= d.month < 100 && 0 <= d.day < 100 && 0 <= left < MS_PER_DAY
    ensures ReadStamp(DateText(d) + "T" + TimeText(left)) == Some(StampOf(d, left))
  {
    var s := DateText(d) + "T" + TimeText(left);
    ReadDateText(d, "T" + TimeText(left));
    assert s == DateText(d) + ("T" + TimeText(left));
    ReadTimeText(DateText(d) + "T", left);
    StampFrom(s, StampOf(d, left));
  }

  /** A text of 24 characters that has its parts in their places. */
  lemma StampFrom(s: string, t: Stamp)
    requires |s| == 24 && s[4] == s[7] == '-' && s[10] == 'T' && s[13] == s[16] == ':' && s[19] == '.' && s[23] == 'Z'
    requires NumberAt(s, 0, 4) == Some(t.day.year) && NumberAt(s, 5, 2) == Some(t.day.month)
    requires NumberAt(s, 8, 2) == Some(t.day.day) && NumberAt(s, 11, 2) == Some(t.hour)
    requires NumberAt(s, 14, 2) == Some(t.minute) && NumberAt(s, 17, 2) == Some(t.second)
    requires NumberAt(s, 20, 3) == Some(t.millis) && t.zone == Zulu
    ensures ReadStamp(s) == Some(t)
  {
    DigitsOfFraction(s);
    assert ReadZone(s, 23) == Some(Zulu);
  }

  lemma InstantOfStamp(ms: int)
    ensures var t := StampOf(DayOf(ms / MS_PER_DAY), ms % MS_PER_DAY);
      Exists(t.day) && TimeExists(t) && Instant(t) == ms
  {
    DayOfNumber(ms / MS_PER_DAY);
    TimeParts(ms % MS_PER_DAY);
  }

  /** Reading back what `toISOString` wrote gives the same instant. */
  lemma IsoTextReadsBack(ms: int)
    requires FourDigitYear(ms)
    ensures var t := ReadStamp(IsoText(ms));
      t.Some? && Exists(t.value.day) && TimeExists(t.value) && Instant(t.value) == ms
  {
    DayOfNumber(ms / MS_PER_DAY);
    ReadDayAndTime(DayOf(ms / MS_PER_DAY), ms % MS_PER_DAY);
    InstantOfStamp(ms);
  }

  /** Outside those years the text starts with a sign, which the shape does not allow. */
  lemma SignedYearIsRefused(ms: int)
    requires !FourDigitYear(ms)
    ensures ReadStamp(IsoText(ms)).None?
  {
    var s := IsoText(ms);
    assert !Digit(s[0]);
    assert NumberAt(s, 0, 1).None?;
    assert NumberAt(s, 0, 2).None?;
    assert NumberAt(s, 0, 3).None?;
    assert NumberAt(s, 0, 4).None?;
  }
}
