/** `encodeURIComponent` and `decodeURIComponent`: percent-encoding (section 2.1 of RFC 3986) of UTF-8 (RFC 3629).
    A string is a sequence of Unicode scalar values; a JavaScript string with a lone surrogate, which
    `encodeURIComponent` refuses, is not one. */
module PercentEncoding {
  import opened Wrappers

  type Byte = b: int | 0 <= b < 256

  predicate Unreserved(c: char) {
    'A' <= c <= 'Z' || 'a' <= c <= 'z' || '0' <= c <= '9'
    || c == '-' || c == '_' || c == '.' || c == '!' || c == '~' || c == '*' || c == '\'' || c == '(' || c == ')'
  }

  /** The six-bit groups of a code point that follow the leading byte of its UTF-8 form. */
  function Tail(n: int): seq<int> {
    if n < 0x80 then []
    else if n < 0x800 then [n % 64]
    else if n < 0x10000 then [n / 64 % 64, n % 64]
    else [n / 4096 % 64, n / 64 % 64, n % 64]
  }

  /** The leading byte: its high bits say how many bytes follow. */
  function Lead(n: int): Byte
    requires 0 <= n < 0x110000
  {
    if n < 0x80 then n
    else if n < 0x800 then 0xC0 + n / 64
    else if n < 0x10000 then 0xE0 + n / 4096
    else 0xF0 + n / 262144
  }

  function HexDigit(n: int): char
    requires 0 <= n < 16
  {
    if n < 10 then ('0' as int + n) as char else ('A' as int + n - 10) as char
  }

  function HexValue(c: char): Option<int> {
    if '0' <= c <= '9' then Some(c as int - '0' as int)
    else if 'A' <= c <= 'F' then Some(c as int - 'A' as int + 10)
    else if 'a' <= c <= 'f' then Some(c as int - 'a' as int + 10)
    else None
  }

  function Escape(b: Byte): string { ['%', HexDigit(b / 16), HexDigit(b % 16)] }

  function EscapeTail(tail: seq<int>): string
    requires forall i :: 0 <= i < |tail| ==> 0 <= tail[i] < 64
  {
    if tail == [] then "" else Escape(0x80 + tail[0]) + EscapeTail(tail[1..])
  }

  function EncodeChar(c: char): string {
    if Unreserved(c) then [c] else Escape(Lead(c as int)) + EscapeTail(Tail(c as int))
  }

  function Encode(s: string): string {
    if s == "" then "" else EncodeChar(s[0]) + Encode(s[1..])
  }

  // ----- decoding

  /** The byte that an escape at the start of `s` stands for. */
  function EscapedByte(s: string): Option<Byte> {
    if |s| < 3 || s[0] != '%' || HexValue(s[1]).None? || HexValue(s[2]).None? then None
    else Some(HexValue(s[1]).value * 16 + HexValue(s[2]).value)
  }

  /** A continuation byte carries six bits. */
  function Continuation(s: string): Option<int> {
    match EscapedByte(s)
    case Some(b) => if 0x80 <= b < 0xC0 then Some(b - 0x80) else None
    case None => None
  }

  function Scalar(n: int): Option<char> {
    if 0 <= n < 0xD800 || 0xE000 <= n < 0x110000 then Some(n as char) else None
  }

  datatype Read = Read(c: char, length: nat)

  /** One character: itself, or the escapes of its UTF-8 form, which must be the shortest one. */
  function ReadChar(s: string): Option<Read>
    requires s != ""
  {
    if s[0] != '%' then Some(Read(s[0], 1))
    else match EscapedByte(s)
      case None => None
      case Some(b) =>
        if b < 0x80 then Some(Read(b as char, 3))
        else if 0xC0 <= b < 0xE0 then ReadLong(s, b - 0xC0, 1, 0x80)
        else if 0xE0 <= b < 0xF0 then ReadLong(s, b - 0xE0, 2, 0x800)
        else if 0xF0 <= b < 0xF8 then ReadLong(s, b - 0xF0, 3, 0x10000)
        else None
  }

  /** The code point built from `lead` and the next `k` continuation escapes after the first three characters. */
  function Point(s: string, lead: int, k: nat): Option<int> {
    if k == 0 then Some(lead)
    else if |s| < 3 then None
    else match Continuation(s[3..])
      case None => None
      case Some(low) => Point(s[3..], lead * 64 + low, k - 1)
  }

  function ReadLong(s: string, lead: int, k: nat, least: int): Option<Read> {
    match Point(s, lead, k)
    case None => None
    case Some(n) =>
      if n < least || Scalar(n).None? then None else Some(Read(Scalar(n).value, 3 * (k + 1)))
  }

  function Decode(s: string): Option<string>
    decreases |s|
  {
    if s == "" then Some("")
    else match ReadChar(s)
      case None => None
      case Some(r) =>
        if r.length == 0 || r.length > |s| then None
        else match Decode(s[r.length..])
          case None => None
          case Some(rest) => Some([r.c] + rest)
  }

  // ----- the round trip

  /** `s` is the escape of `b` and then `rest`. */
  ghost predicate Starts(s: string, b: Byte, rest: string) {
    |s| >= 3 && s[0] == '%' && EscapedByte(s) == Some(b) && s[3..] == rest
  }

  lemma EscapeStarts(b: Byte, rest: string)
    ensures Starts(Escape(b) + rest, b, rest)
  {
    var s := Escape(b) + rest;
    assert s[1] == HexDigit(b / 16) && s[2] == HexDigit(b % 16);
  }

  function Value(lead: int, tail: seq<int>): int
    decreases |tail|
  {
    if tail == [] then lead else Value(lead * 64 + tail[0], tail[1..])
  }

  /** One continuation escape contributes its six bits. */
  lemma PointStep(s: string, b: Byte, t: string, low: int, u: string, lead: int, k: nat)
    requires 0 <= low < 64 && k > 0
    requires Starts(s, b, t) && Starts(t, 0x80 + low, u)
    ensures Point(s, lead, k) == Point(t, lead * 64 + low, k - 1)
  {
  }

  lemma {:induction false} PointOfTail(s: string, b: Byte, lead: int, tail: seq<int>, rest: string)
    requires forall i :: 0 <= i < |tail| ==> 0 <= tail[i] < 64
    requires Starts(s, b, EscapeTail(tail) + rest)
    ensures Point(s, lead, |tail|) == Some(Value(lead, tail))
    decreases |tail|
  {
    if tail != [] {
      var t := EscapeTail(tail) + rest;
      var u := EscapeTail(tail[1..]) + rest;
      assert t == Escape(0x80 + tail[0]) + u;
      EscapeStarts(0x80 + tail[0], u);
      PointStep(s, b, t, tail[0], u, lead, |tail|);
      PointOfTail(t, 0x80 + tail[0], lead * 64 + tail[0], tail[1..], rest);
    }
  }

  lemma ValueStep(lead: int, tail: seq<int>)
    requires tail != []
    ensures Value(lead, tail) == Value(lead * 64 + tail[0], tail[1..])
  {
  }

  lemma ValueOf(a: int, b: int, c: int, d: int)
    ensures Value(a, [b]) == a * 64 + b
    ensures Value(a, [b, c]) == (a * 64 + b) * 64 + c
    ensures Value(a, [b, c, d]) == ((a * 64 + b) * 64 + c) * 64 + d
  {
    var ab := a * 64 + b;
    var abc := ab * 64 + c;
    ValueStep(a, [b, c, d]);
    assert [b, c, d][1..] == [c, d];
    ValueStep(ab, [c, d]);
    assert [c, d][1..] == [d];
    ValueStep(abc, [d]);
    ValueStep(a, [b, c]);
    assert [b, c][1..] == [c];
    ValueStep(ab, [c]);
  }

  lemma Digits64(n: int)
    requires n >= 0
    ensures n / 64 * 64 + n % 64 == n
    ensures n / 4096 * 64 + n / 64 % 64 == n / 64
    ensures n / 262144 * 64 + n / 4096 % 64 == n / 4096
  {
    assert n / 4096 == n / 64 / 64 && n / 262144 == n / 4096 / 64;
  }

  /** The bits of the leading byte. */
  function LeadBits(n: int): int {
    if n < 0x80 then n else if n < 0x800 then n / 64 else if n < 0x10000 then n / 4096 else n / 262144
  }

  lemma ValueOfParts(n: int)
    requires 0 <= n < 0x110000
    ensures Value(LeadBits(n), Tail(n)) == n
  {
    Digits64(n);
    ValueOf(n / 64, n % 64, 0, 0);
    ValueOf(n / 4096, n / 64 % 64, n % 64, 0);
    ValueOf(n / 262144, n / 4096 % 64, n / 64 % 64, n % 64);
  }

  lemma {:induction false} EscapeTailLength(tail: seq<int>)
    requires forall i :: 0 <= i < |tail| ==> 0 <= tail[i] < 64
    ensures |EscapeTail(tail)| == 3 * |tail|
  {
    if tail != [] { EscapeTailLength(tail[1..]); }
  }

  lemma ReadEncodedChar(c: char, rest: string)
    ensures EncodeChar(c) != "" && ReadChar(EncodeChar(c) + rest) == Some(Read(c, |EncodeChar(c)|))
  {
    if !Unreserved(c) {
      var n := c as int;
      var s := EncodeChar(c) + rest;
      EscapeTailLength(Tail(n));
      ValueOfParts(n);
      assert s == Escape(Lead(n)) + (EscapeTail(Tail(n)) + rest);
      EscapeStarts(Lead(n), EscapeTail(Tail(n)) + rest);
      PointOfTail(s, Lead(n), LeadBits(n), Tail(n), rest);
      ReadScalar(c, s);
    }
  }

  lemma ReadScalar(c: char, s: string)
    requires s != "" && s[0] == '%' && EscapedByte(s) == Some(Lead(c as int))
    requires Point(s, LeadBits(c as int), |Tail(c as int)|) == Some(c as int)
    ensures ReadChar(s) == Some(Read(c, 3 * (1 + |Tail(c as int)|)))
  {
  }

  /** Decoding gives back every string that was encoded. */
  lemma {:induction false} DecodeEncode(s: string)
    ensures Decode(Encode(s)) == Some(s)
  {
    if s != "" {
      var e := EncodeChar(s[0]);
      ReadEncodedChar(s[0], Encode(s[1..]));
      assert (e + Encode(s[1..]))[|e|..] == Encode(s[1..]);
      DecodeEncode(s[1..]);
      assert [s[0]] + s[1..] == s;
    }
  }

  // ----- what an encoded string is made of

  predicate Tame(c: char) { Unreserved(c) || c == '%' }

  ghost predicate AllTame(s: string) {
    forall i :: 0 <= i < |s| ==> Tame(s[i])
  }

  lemma EscapeIsTame(b: Byte)
    ensures AllTame(Escape(b))
  {
  }

  lemma {:induction false} EscapeTailIsTame(tail: seq<int>)
    requires forall i :: 0 <= i < |tail| ==> 0 <= tail[i] < 64
    ensures AllTame(EscapeTail(tail))
  {
    if tail != [] {
      EscapeIsTame(0x80 + tail[0]);
      EscapeTailIsTame(tail[1..]);
    }
  }

  lemma EncodeCharIsTame(c: char)
    ensures AllTame(EncodeChar(c))
  {
    if !Unreserved(c) {
      EscapeIsTame(Lead(c as int));
      EscapeTailIsTame(Tail(c as int));
    }
  }

  lemma {:induction false} EncodeAllTame(s: string)
    ensures AllTame(Encode(s))
  {
    if s != "" {
      EncodeCharIsTame(s[0]);
      EncodeAllTame(s[1..]);
    }
  }

  /** Nothing in an encoded value means anything to a path, a template, a query or a replacement. */
  lemma EncodeIsTame(s: string)
    ensures '/' !in Encode(s) && ':' !in Encode(s) && '$' !in Encode(s)
    ensures '?' !in Encode(s) && '#' !in Encode(s) && '\\' !in Encode(s)
    ensures s != "" ==> Encode(s) != ""
  {
    EncodeAllTame(s);
    TameLacks(Encode(s), '/');
    TameLacks(Encode(s), ':');
    TameLacks(Encode(s), '$');
    TameLacks(Encode(s), '?');
    TameLacks(Encode(s), '#');
    TameLacks(Encode(s), '\\');
    EncodeNotEmpty(s);
  }

  lemma TameLacks(s: string, c: char)
    requires AllTame(s) && !Tame(c)
    ensures c !in s
  {
  }

  lemma EncodeNotEmpty(s: string)
    ensures s != "" ==> Encode(s) != ""
  {
    if s != "" {
      ReadEncodedChar(s[0], "");
    }
  }

  // ----- escapes a second parser could read as a dot or a backslash

  /** `%2e` or `%5c` in either case. */
  predicate BadEscapeAt(s: string, i: int) {
    && 0 <= i && i + 2 < |s| && s[i] == '%'
    && ((s[i + 1] == '2' && (s[i + 2] == 'e' || s[i + 2] == 'E'))
        || (s[i + 1] == '5' && (s[i + 2] == 'c' || s[i + 2] == 'C')))
  }

  ghost predicate HasBadEscape(s: string) {
    exists i :: BadEscapeAt(s, i)
  }

  /** Escapes do not straddle two encoded characters: every `%` starts one of its own. */
  ghost predicate WholeEscapes(s: string) {
    forall i :: 0 <= i < |s| && s[i] == '%' ==> i + 2 < |s|
  }

  lemma BadEscapeAppend(a: string, b: string)
    requires WholeEscapes(a)
    ensures HasBadEscape(a + b) <==> HasBadEscape(a) || HasBadEscape(b)
    ensures WholeEscapes(b) ==> WholeEscapes(a + b)
  {
    var s := a + b;
    if HasBadEscape(s) {
      var i :| BadEscapeAt(s, i);
      if i < |a| {
        assert a[i] == '%';
        assert BadEscapeAt(a, i);
      } else {
        assert BadEscapeAt(b, i - |a|);
      }
    }
    if HasBadEscape(a) {
      var i :| BadEscapeAt(a, i);
      assert BadEscapeAt(s, i);
    }
    if HasBadEscape(b) {
      var i :| BadEscapeAt(b, i);
      assert BadEscapeAt(s, i + |a|);
    }
  }

  lemma EscapeBad(b: Byte)
    ensures WholeEscapes(Escape(b))
    ensures HasBadEscape(Escape(b)) <==> b == 0x2E || b == 0x5C
  {
    var e := Escape(b);
    assert HasBadEscape(e) <==> BadEscapeAt(e, 0);
    assert e[1] == HexDigit(b / 16) && e[2] == HexDigit(b % 16);
  }

  lemma {:induction false} EscapeTailNotBad(tail: seq<int>)
    requires forall i :: 0 <= i < |tail| ==> 0 <= tail[i] < 64
    ensures WholeEscapes(EscapeTail(tail)) && !HasBadEscape(EscapeTail(tail))
  {
    if tail != [] {
      EscapeBad(0x80 + tail[0]);
      EscapeTailNotBad(tail[1..]);
      BadEscapeAppend(Escape(0x80 + tail[0]), EscapeTail(tail[1..]));
    }
  }

  lemma EncodeCharBad(c: char)
    ensures WholeEscapes(EncodeChar(c))
    ensures HasBadEscape(EncodeChar(c)) <==> c == '\\'
  {
    if !Unreserved(c) {
      EscapeBad(Lead(c as int));
      EscapeTailNotBad(Tail(c as int));
      BadEscapeAppend(Escape(Lead(c as int)), EscapeTail(Tail(c as int)));
    }
  }

  /** An encoded value carries such an escape exactly when the value carries a backslash. */
  lemma {:induction false} EncodeBad(s: string)
    ensures HasBadEscape(Encode(s)) <==> '\\' in s
    ensures WholeEscapes(Encode(s))
  {
    if s != "" {
      EncodeCharBad(s[0]);
      EncodeBad(s[1..]);
      BadEscapeAppend(EncodeChar(s[0]), Encode(s[1..]));
      assert s == [s[0]] + s[1..];
    }
  }
}
