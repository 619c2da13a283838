/** What an accepted moment means, told by its text alone: the date and time it shows are those of its instant, seen
    with the offset it states. */
module MomentTexts {
  import opened Wrappers
  import opened Moments
  import Schemas

  // ----- the calendar once more

  /** The number of a day counted in years that begin in March, so that a leap day ends its year (the months of
      Appendix B of RFC 3339). */
  function MarchDayNumber(d: Day): int {
    var y := if d.month <= 2 then d.year - 1 else d.year;
    var m := if d.month <= 2 then d.month + 9 else d.month - 3;
    365 * y + y / 4 - y / 100 + y / 400 + (153 * m + 2) / 5 + d.day - 1 + 60
  }

  lemma ByFour(y: int)
    ensures (y + 3) / 4 == (y - 1) / 4 + 1 && y / 4 == (y - 1) / 4 + (if y % 4 == 0 then 1 else 0)
  {
  }

  lemma ByHundred(y: int)
    ensures (y + 99) / 100 == (y - 1) / 100 + 1 && y / 100 == (y - 1) / 100 + (if y % 100 == 0 then 1 else 0)
  {
    var q, r := y / 100, y % 100;
    assert y == 100 * q + r;
    assert (y - 1) / 100 == if r == 0 then q - 1 else q;
    assert (y + 99) / 100 == if r == 0 then q else q + 1;
  }

  lemma ByFourHundred(y: int)
    ensures (y + 399) / 400 == (y - 1) / 400 + 1 && y / 400 == (y - 1) / 400 + (if y % 400 == 0 then 1 else 0)
  {
    var q, r := y / 400, y % 400;
    assert y == 400 * q + r;
    assert (y - 1) / 400 == if r == 0 then q - 1 else q;
    assert (y + 399) / 400 == if r == 0 then q else q + 1;
  }

  /** Days before a year, and a leap day more when the year is one. */
  lemma LeapDays(y: int)
    ensures DaysBeforeYear(y) == 365 * y + (y - 1) / 4 - (y - 1) / 100 + (y - 1) / 400 + 1
    ensures DaysBeforeYear(y) + (if IsLeap(y) then 1 else 0) == 365 * y + y / 4 - y / 100 + y / 400 + 1
  {
    ByFour(y);
    ByHundred(y);
    ByFourHundred(y);
    Hundredths(y);
    FourHundredths(y);
  }

  lemma MonthStarts(y: int, m: int)
    requires 1 <= m <= 12
    ensures DaysBeforeMonth(y, m) ==
      if m == 1 then 0 else if m == 2 then 31
      else (153 * (m - 3) + 2) / 5 + 59 + (if IsLeap(y) then 1 else 0)
  {
    assert DaysBeforeMonth(y, 3) == 31 + DaysInMonth(y, 2);
    assert m >= 4 ==> DaysBeforeMonth(y, 4) == DaysBeforeMonth(y, 3) + 31;
    assert m >= 5 ==> DaysBeforeMonth(y, 5) == DaysBeforeMonth(y, 4) + 30;
    assert m >= 6 ==> DaysBeforeMonth(y, 6) == DaysBeforeMonth(y, 5) + 31;
    assert m >= 7 ==> DaysBeforeMonth(y, 7) == DaysBeforeMonth(y, 6) + 30;
    assert m >= 8 ==> DaysBeforeMonth(y, 8) == DaysBeforeMonth(y, 7) + 31;
    assert m >= 9 ==> DaysBeforeMonth(y, 9) == DaysBeforeMonth(y, 8) + 31;
    assert m >= 10 ==> DaysBeforeMonth(y, 10) == DaysBeforeMonth(y, 9) + 30;
    assert m >= 11 ==> DaysBeforeMonth(y, 11) == DaysBeforeMonth(y, 10) + 31;
    assert m == 12 ==> DaysBeforeMonth(y, 12) == DaysBeforeMonth(y, 11) + 30;
  }

  /** Both ways of counting agree on every day. */
  lemma DayNumberByMarch(d: Day)
    requires Exists(d)
    ensures DayNumber(d) == MarchDayNumber(d)
  {
    LeapDays(d.year);
    MonthStarts(d.year, d.month);
  }

  /** The lengths of the months, by the knuckles of a hand: they follow from where the months begin. */
  lemma MonthLengths(y: int, m: int)
    requires 1 <= m <= 12
    ensures DaysInMonth(y, m) == if m == 2 then (if IsLeap(y) then 29 else 28) else 30 + (m + m / 8) % 2
  {
  }

  // ----- digits back to text

  lemma {:induction false} PaddedOfNumber(s: string, i: nat, n: nat)
    requires NumberAt(s, i, n).Some? && i + n <= |s|
    ensures NumberAt(s, i, n).value >= 0 && Padded(NumberAt(s, i, n).value, n) == s[i..i + n]
  {
    if n > 0 {
      PaddedOfNumber(s, i, n - 1);
      assert s[i..i + n] == s[i..i + n - 1] + [s[i + n - 1]];
    }
  }

  // ----- the parts of a text

  /** Where the zone begins: a final `Z`, or the six characters of an offset. */
  function ZoneStart(s: string): int { if s != "" && s[|s| - 1] == 'Z' then |s| - 1 else |s| - 6 }

  ghost predicate TwoDigitsAt(s: string, i: int) {
    0 <= i && i + 2 <= |s| && Digit(s[i]) && Digit(s[i + 1])
  }

  /** The zone is written as `Z` or as a sign, hours, a colon and minutes. */
  ghost predicate ZoneWritten(s: string) {
    var z := ZoneStart(s);
    && z >= 19
    && ((s[z] == 'Z' && z == |s| - 1)
        || ((s[z] == '+' || s[z] == '-') && TwoDigitsAt(s, z + 1) && s[z + 3] == ':' && TwoDigitsAt(s, z + 4)))
  }

  /** By how many minutes the time in the text is ahead of UTC. */
  ghost function MinutesAhead(s: string): int
    requires |s| >= 1 && ZoneWritten(s)
  {
    var z := ZoneStart(s);
    if s[z] == 'Z' then 0
    else if s[z] == '+' then 60 * TwoAt(s, z + 1) + TwoAt(s, z + 4)
    else -(60 * TwoAt(s, z + 1) + TwoAt(s, z + 4))
  }

  /** What the parts of a text of the right shape are, and where its zone stands. */
  lemma Layout(s: string) returns (t: Stamp, z: nat)
    requires ReadStamp(s).Some?
    ensures ReadStamp(s) == Some(t) && |s| >= 20 && z == ZoneStart(s)
    ensures z == (if s[19] == '.' then 20 + DigitRun(s, 20) else 19) && z < |s|
    ensures s[19] == '.' ==> 1 <= DigitRun(s, 20) <= 9
    ensures t.millis == FractionMillis(s)
    ensures s[4] == s[7] == '-' && s[10] == 'T' && s[13] == s[16] == ':'
    ensures NumberAt(s, 0, 4) == Some(t.day.year) && NumberAt(s, 5, 2) == Some(t.day.month)
    ensures NumberAt(s, 8, 2) == Some(t.day.day) && NumberAt(s, 11, 2) == Some(t.hour)
    ensures NumberAt(s, 14, 2) == Some(t.minute) && NumberAt(s, 17, 2) == Some(t.second)
    ensures ZoneWritten(s) && OffsetMinutes(t.zone) == MinutesAhead(s)
  {
    t := ReadStamp(s).value;
    z := if At(s, 19, '.') then 20 + DigitRun(s, 20) else 19;
    ZoneIsWritten(s, z);
  }

  lemma ZoneIsWritten(s: string, z: nat)
    requires z >= 19 && ReadZone(s, z).Some?
    ensures z < |s| && ZoneStart(s) == z && ZoneWritten(s) && OffsetMinutes(ReadZone(s, z).value) == MinutesAhead(s)
  {
    if !(At(s, z, 'Z') && |s| == z + 1) {
      PairIsWritten(s, z + 1);
      PairIsWritten(s, z + 4);
    }
  }

  lemma PairIsWritten(s: string, i: nat)
    requires NumberAt(s, i, 2).Some?
    ensures TwoDigitsAt(s, i) && NumberAt(s, i, 2) == Some(TwoAt(s, i))
  {
    assert NumberAt(s, i, 1).Some?;
    TwoDigits(s, i);
  }

  // ----- the instant, seen from its own zone

  /** The milliseconds into its day that a stamp shows. */
  function TimeShown(t: Stamp): int { t.hour * 3600000 + t.minute * 60000 + t.second * 1000 + t.millis }

  lemma LocalTime(t: Stamp)
    requires 0 <= t.hour <= 23 && 0 <= t.minute <= 59 && 0 <= t.second <= 59 && 0 <= t.millis <= 999
    ensures var left := TimeShown(t);
      && 0 <= left < MS_PER_DAY && left / 3600000 == t.hour && left / 60000 % 60 == t.minute
      && left / 1000 % 60 == t.second && left % 1000 == t.millis
  {
    var left := TimeShown(t);
    assert left / 1000 == t.hour * 3600 + t.minute * 60 + t.second;
    assert left / 60000 == t.hour * 60 + t.minute;
  }

  lemma LocalDay(t: Stamp)
    requires Exists(t.day) && 0 <= TimeShown(t) < MS_PER_DAY
    ensures var local := Instant(t) + OffsetMinutes(t.zone) * 60000;
      DayOf(local / MS_PER_DAY) == t.day && local % MS_PER_DAY == TimeShown(t)
  {
    var local := Instant(t) + OffsetMinutes(t.zone) * 60000;
    var n := DayNumber(t.day);
    assert local == n * MS_PER_DAY + TimeShown(t);
    assert local / MS_PER_DAY == n;
    DayOfNumberExact(t.day, n);
  }

  lemma {:induction false} RunOfDigits(s: string, i: nat, k: nat)
    requires k < DigitRun(s, i)
    ensures i + k < |s| && Digit(s[i + k])
    decreases k
  {
    if k > 0 { RunOfDigits(s, i + 1, k - 1); }
  }

  /** The date, the time and three digits of the fraction that a text shows, without its zone. */
  function ShownText(s: string): string
    requires |s| >= 20
  {
    s[..19] + "." + FractionText(s) + "Z"
  }

  /** Three digits of the fraction: those of the text, cut after the third or filled up with zeros. */
  function FractionText(s: string): string
    requires |s| >= 20
  {
    [FractionDigit(s, 20), FractionDigit(s, 21), FractionDigit(s, 22)]
  }

  function FractionDigit(s: string, i: nat): char
    requires |s| >= 20
  {
    if s[19] == '.' && i < ZoneStart(s) then s[i] else '0'
  }

  /** The fraction a stamp reads. */
  function FractionMillis(s: string): int
    requires |s| >= 20
  {
    if s[19] == '.' then MillisAt(s, 20, DigitRun(s, 20)) else 0
  }

  lemma FractionRead(s: string)
    requires |s| >= 20 && (s[19] == '.' ==> 1 <= DigitRun(s, 20) && ZoneStart(s) == 20 + DigitRun(s, 20))
    ensures 0 <= FractionMillis(s) <= 999 && Padded(FractionMillis(s), 3) == FractionText(s)
  {
    if s[19] == '.' { DigitsOfRun(s, DigitRun(s, 20)); }
    MillisRead(s);
    ThreeDigits(FractionText(s), FractionMillis(s));
  }

  lemma DigitsOfRun(s: string, digits: nat)
    requires 1 <= digits == DigitRun(s, 20)
    ensures 20 + digits <= |s| && Digit(s[20]) && (digits >= 2 ==> Digit(s[21])) && (digits >= 3 ==> Digit(s[22]))
  {
    RunOfDigits(s, 20, digits - 1);
    RunOfDigits(s, 20, 0);
    if digits >= 2 { RunOfDigits(s, 20, 1); }
    if digits >= 3 { RunOfDigits(s, 20, 2); }
  }

  lemma MillisRead(s: string)
    requires |s| >= 20
    requires s[19] == '.' ==>
      var digits := DigitRun(s, 20);
      && 1 <= digits && ZoneStart(s) == 20 + digits && 20 + digits <= |s|
      && Digit(s[20]) && (digits >= 2 ==> Digit(s[21])) && (digits >= 3 ==> Digit(s[22]))
    ensures IsNumber(FractionText(s), FractionMillis(s))
  {
    if s[19] == '.' {
      var digits := DigitRun(s, 20);
      assert NumberAt(s, 20, 1) == Some(DigitValue(s[20]));
      if digits >= 2 { assert NumberAt(s, 20, 2) == Some(DigitValue(s[20]) * 10 + DigitValue(s[21])); }
      if digits >= 3 {
        assert NumberAt(s, 20, 3) == Some((DigitValue(s[20]) * 10 + DigitValue(s[21])) * 10 + DigitValue(s[22]));
      }
    }
  }

  /** Three digits that write `v`. */
  predicate IsNumber(f: string, v: int) {
    && |f| == 3 && Digit(f[0]) && Digit(f[1]) && Digit(f[2])
    && v == (DigitValue(f[0]) * 10 + DigitValue(f[1])) * 10 + DigitValue(f[2])
  }

  lemma ThreeDigits(f: string, v: int)
    requires IsNumber(f, v)
    ensures 0 <= v <= 999 && Padded(v, 3) == f
  {
    assert NumberAt(f, 0, 1) == Some(DigitValue(f[0]));
    assert NumberAt(f, 0, 2) == Some(DigitValue(f[0]) * 10 + DigitValue(f[1]));
    assert NumberAt(f, 0, 3) == Some(v);
    PaddedOfNumber(f, 0, 3);
    assert f[0..3] == f;
  }

  lemma SameDate(s: string, d: Day)
    requires |s| >= 11 && s[4] == s[7] == '-' && 0 <= d.year && d.month >= 0 && d.day >= 0
    requires NumberAt(s, 0, 4) == Some(d.year) && NumberAt(s, 5, 2) == Some(d.month)
    requires NumberAt(s, 8, 2) == Some(d.day)
    ensures DateText(d) == s[..10]
  {
    NumberRange(s, 0, 4);
    Powers();
    PaddedOfNumber(s, 0, 4);
    PaddedOfNumber(s, 5, 2);
    PaddedOfNumber(s, 8, 2);
    assert s[..10] == s[0..4] + "-" + s[5..7] + "-" + s[8..10];
  }

  lemma SameTime(s: string, t: Stamp)
    requires |s| >= 20 && s[13] == s[16] == ':' && 0 <= TimeShown(t) < MS_PER_DAY
    requires NumberAt(s, 11, 2) == Some(TimeShown(t) / 3600000)
    requires NumberAt(s, 14, 2) == Some(TimeShown(t) / 60000 % 60)
    requires NumberAt(s, 17, 2) == Some(TimeShown(t) / 1000 % 60)
    ensures TimeText(TimeShown(t)) == s[11..19] + "." + Padded(TimeShown(t) % 1000, 3) + "Z"
  {
    PaddedOfNumber(s, 11, 2);
    PaddedOfNumber(s, 14, 2);
    PaddedOfNumber(s, 17, 2);
    assert s[11..19] == s[11..13] + ":" + s[14..16] + ":" + s[17..19];
  }

  lemma LocalText(s: string, t: Stamp)
    requires |s| >= 20 && s[4] == s[7] == '-' && s[10] == 'T' && s[13] == s[16] == ':' && Exists(t.day)
    requires NumberAt(s, 0, 4) == Some(t.day.year) && NumberAt(s, 5, 2) == Some(t.day.month)
    requires NumberAt(s, 8, 2) == Some(t.day.day) && 0 <= TimeShown(t) < MS_PER_DAY
    requires TimeText(TimeShown(t)) == s[11..19] + "." + FractionText(s) + "Z"
    ensures DateText(t.day) + "T" + TimeText(TimeShown(t)) == ShownText(s)
  {
    NumberRange(s, 0, 4);
    SameDate(s, t.day);
    assert s[..19] == s[..10] + "T" + s[11..19];
    Joined(s[..10], s[11..19], FractionText(s));
  }

  lemma Joined(date: string, time: string, fraction: string)
    ensures date + "T" + (time + "." + fraction + "Z") == date + "T" + time + "." + fraction + "Z"
  {
  }

  lemma InRange(s: string, t: Stamp)
    requires NumberAt(s, 11, 2) == Some(t.hour) && NumberAt(s, 14, 2) == Some(t.minute)
    requires NumberAt(s, 17, 2) == Some(t.second) && TimeExists(t)
    ensures 0 <= t.hour <= 23 && 0 <= t.minute <= 59 && 0 <= t.second <= 59
  {
    NumberRange(s, 11, 2);
    NumberRange(s, 14, 2);
    NumberRange(s, 17, 2);
  }

  /** An instant seen from its own zone is written as the date and the time of its stamp. */
  lemma LocalIso(t: Stamp, text: string)
    requires Exists(t.day) && 0 <= TimeShown(t) < MS_PER_DAY
    requires DateText(t.day) + "T" + TimeText(TimeShown(t)) == text
    ensures IsoText(Instant(t) + OffsetMinutes(t.zone) * 60000) == text
  {
    LocalDay(t);
    IsoOfLocal(Instant(t) + OffsetMinutes(t.zone) * 60000, t.day, TimeShown(t));
  }

  lemma IsoOfLocal(ms: int, d: Day, left: int)
    requires DayOf(ms / MS_PER_DAY) == d && ms % MS_PER_DAY == left && Exists(d) && left >= 0
    ensures IsoText(ms) == DateText(d) + "T" + TimeText(left)
  {
  }

  /** The instant of a text, moved by the offset the text states, is written as the date and time the text shows. */
  ghost predicate ShowsAt(s: string, ms: int)
    requires |s| >= 20 && ZoneWritten(s)
  {
    IsoText(ms + MinutesAhead(s) * 60000) == ShownText(s)
  }

  /** The offset of a stamp is the one its text states. */
  lemma ShownAhead(s: string, t: Stamp)
    requires |s| >= 20 && ZoneWritten(s) && OffsetMinutes(t.zone) == MinutesAhead(s)
    requires IsoText(Instant(t) + OffsetMinutes(t.zone) * 60000) == ShownText(s)
    ensures ShowsAt(s, Instant(t))
  {
  }

  lemma LayoutShows(s: string, t: Stamp)
    requires |s| >= 20 && s[4] == s[7] == '-' && s[10] == 'T' && s[13] == s[16] == ':' && Exists(t.day)
    requires NumberAt(s, 0, 4) == Some(t.day.year) && NumberAt(s, 5, 2) == Some(t.day.month)
    requires NumberAt(s, 8, 2) == Some(t.day.day) && NumberAt(s, 11, 2) == Some(t.hour)
    requires NumberAt(s, 14, 2) == Some(t.minute) && NumberAt(s, 17, 2) == Some(t.second)
    requires 0 <= t.millis <= 999 && Padded(t.millis, 3) == FractionText(s) && TimeExists(t)
    ensures IsoText(Instant(t) + OffsetMinutes(t.zone) * 60000) == ShownText(s)
  {
    InRange(s, t);
    LocalTime(t);
    SameTime(s, t);
    LocalText(s, t);
    LocalIso(t, ShownText(s));
  }

  lemma StampShowsText(s: string)
    requires ReadStamp(s).Some? && Exists(ReadStamp(s).value.day) && TimeExists(ReadStamp(s).value)
    ensures |s| >= 20 && ZoneWritten(s) && ShowsAt(s, Instant(ReadStamp(s).value))
  {
    var t, z := Layout(s);
    FractionRead(s);
    LayoutShows(s, t);
    ShownAhead(s, t);
  }

  /** So it is for every text that shows a day and a time that exist. */
  lemma InstantShowsText(s: string, lenient: string -> Option<int>)
    requires ReadStamp(s).Some? && Exists(ReadStamp(s).value.day) && TimeExists(ReadStamp(s).value)
    ensures |s| >= 20 && ZoneWritten(s) && ParseDate(s, lenient).Some? && ShowsAt(s, ParseDate(s, lenient).value)
  {
    StampShowsText(s);
  }

  /** And so for every date the parser accepts: what it makes of the text is the instant the text shows. */
  lemma AcceptedDateShowsText(s: string)
    requires Schemas.Accepts(Schemas.DateOf, Schemas.Str(s))
    ensures |s| >= 20 && ZoneWritten(s)
    ensures var d := Schemas.Parsed(Schemas.DateOf, Schemas.Str(s));
      d.Date? && ShowsAt(s, d.ms)
  {
    RealMomentsExist(s);
    StampShowsText(s);
  }

  // ----- which texts are accepted

  /** The text has the shape of a moment: digits and separators where they belong, up to nine digits of a fraction, and
      a zone. */
  ghost predicate Shaped(s: string) {
    && |s| >= 20
    && TwoDigitsAt(s, 0) && TwoDigitsAt(s, 2) && s[4] == '-' && TwoDigitsAt(s, 5) && s[7] == '-' && TwoDigitsAt(s, 8)
    && s[10] == 'T' && TwoDigitsAt(s, 11) && s[13] == ':' && TwoDigitsAt(s, 14) && s[16] == ':' && TwoDigitsAt(s, 17)
    && ZoneWritten(s)
    && (ZoneStart(s) == 19
        || (s[19] == '.' && 21 <= ZoneStart(s) <= 29 && forall i :: 20 <= i < ZoneStart(s) ==> Digit(s[i])))
  }

  /** The day, the time and the offset it shows exist, and it is not the one leap day the check gets wrong. */
  ghost predicate NamesMoment(s: string)
    requires Shaped(s)
  {
    var day := Day(TwoAt(s, 0) * 100 + TwoAt(s, 2), TwoAt(s, 5), TwoAt(s, 8));
    var z := ZoneStart(s);
    && Exists(day) && day != Day(0, 2, 29)
    && TwoAt(s, 11) < 24 && TwoAt(s, 14) < 60 && TwoAt(s, 17) < 60
    && (s[z] != 'Z' ==> TwoAt(s, z + 1) < 24 && TwoAt(s, z + 4) < 60)
  }

  lemma {:induction false} DigitsRun(s: string, i: nat, end: nat)
    requires i <= end < |s| && !Digit(s[end]) && forall j :: i <= j < end ==> Digit(s[j])
    ensures DigitRun(s, i) == end - i
    decreases end - i
  {
    if i < end { DigitsRun(s, i + 1, end); }
  }

  lemma ZoneReads(s: string)
    requires |s| >= 20 && ZoneWritten(s)
    ensures var z := ZoneStart(s);
      ReadZone(s, z) == if s[z] == 'Z' then Some(Zulu)
                        else Some(Offset(s[z] == '-', TwoAt(s, z + 1), TwoAt(s, z + 4)))
  {
    var z := ZoneStart(s);
    if s[z] != 'Z' {
      TwoDigits(s, z + 1);
      TwoDigits(s, z + 4);
    }
  }

  lemma ShapedReads(s: string)
    requires Shaped(s)
    ensures ReadStamp(s).Some?
    ensures var t := ReadStamp(s).value;
      && t.day == Day(TwoAt(s, 0) * 100 + TwoAt(s, 2), TwoAt(s, 5), TwoAt(s, 8))
      && t.hour == TwoAt(s, 11) && t.minute == TwoAt(s, 14) && t.second == TwoAt(s, 17)
      && Some(t.zone) == ReadZone(s, ZoneStart(s))
  {
    ZoneReads(s);
    if ZoneStart(s) > 19 { DigitsRun(s, 20, ZoneStart(s)); }
    FourDigits(s, 0);
    TwoDigits(s, 5);
    TwoDigits(s, 8);
    TwoDigits(s, 11);
    TwoDigits(s, 14);
    TwoDigits(s, 17);
  }

  lemma FourAreWritten(s: string, i: nat)
    requires NumberAt(s, i, 4).Some?
    ensures TwoDigitsAt(s, i) && TwoDigitsAt(s, i + 2)
  {
    assert NumberAt(s, i, 3).Some? && NumberAt(s, i, 2).Some? && NumberAt(s, i, 1).Some?;
  }

  lemma ReadIsShaped(s: string)
    requires ReadStamp(s).Some?
    ensures Shaped(s)
  {
    var t, z := Layout(s);
    FourAreWritten(s, 0);
    PairIsWritten(s, 5);
    PairIsWritten(s, 8);
    PairIsWritten(s, 11);
    PairIsWritten(s, 14);
    PairIsWritten(s, 17);
    if s[19] == '.' {
      forall i | 20 <= i < z ensures Digit(s[i]) { RunOfDigits(s, 20, i - 20); }
    }
  }

  /** The check accepts exactly the texts of that shape that name a moment. */
  lemma AcceptedTexts(s: string)
    ensures IsRealMoment(s) <==> Shaped(s) && NamesMoment(s)
  {
    if ReadStamp(s).Some? {
      ReadIsShaped(s);
      ShapedReads(s);
      ZoneReads(s);
      RealMomentsExist(s);
    } else if Shaped(s) {
      ShapedReads(s);
    }
  }
}
