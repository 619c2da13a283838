/** `decodeURIComponent`, exactly: which texts decode, and to what. A text decodes if and only if it is a writing of the
    result: each character stands for itself, or for the escapes of its UTF-8 form (RFC 3629), in either case of hex. */
module PercentDecoding {
  import opened Wrappers
  import opened Strings
  import opened PercentEncoding

  /** A lower-case letter counts as its upper case. */
  function UpperHex(c: char): char { if 'a' <= c <= 'f' then (c as int - 32) as char else c }

  /** The escape of this byte stands at position `i`. */
  predicate ByteAt(s: string, i: nat, b: int)
    requires 0 <= b < 256
  {
    i + 3 <= |s| && s[i] == '%' && UpperHex(s[i + 1]) == HexDigit(b / 16) && UpperHex(s[i + 2]) == HexDigit(b % 16)
  }

  /** The continuation bytes that carry these groups of six bits stand from position `i` on. */
  ghost predicate TailAt(s: string, i: nat, tail: seq<int>)
    decreases |tail|
  {
    (forall j :: 0 <= j < |tail| ==> 0 <= tail[j] < 64)
    && (tail == [] || (0 <= tail[0] < 64 && ByteAt(s, i, 0x80 + tail[0]) && TailAt(s, i + 3, tail[1..])))
  }

  /** How many characters a writing of `c` has in escapes. */
  function EscapesLength(c: char): nat { 3 * (1 + |Tail(c as int)|) }

  /** The first `n` characters of `s` are a writing of `c`. */
  ghost predicate WritesChar(s: string, n: nat, c: char) {
    || (n == 1 && s != "" && s[0] == c && c != '%')
    || (n == EscapesLength(c) && ByteAt(s, 0, Lead(c as int)) && TailAt(s, 3, Tail(c as int)))
  }

  ghost predicate Writes(s: string, t: string)
    decreases |t|
  {
    if t == "" then s == ""
    else exists n: nat :: 1 <= n <= |s| && WritesChar(s, n, t[0]) && Writes(s[n..], t[1..])
  }

  // ----- one byte

  lemma ByteAtExact(s: string, i: nat, b: int)
    requires 0 <= b < 256 && i <= |s|
    ensures ByteAt(s, i, b) <==> EscapedByte(s[i..]) == Some(b)
  {
    if i + 3 <= |s| {
      assert s[i..][0] == s[i] && s[i..][1] == s[i + 1] && s[i..][2] == s[i + 2];
      HexExact(s[i + 1], b / 16);
      HexExact(s[i + 2], b % 16);
    }
  }

  lemma HexExact(c: char, n: int)
    requires 0 <= n < 16
    ensures UpperHex(c) == HexDigit(n) <==> HexValue(c) == Some(n)
  {
  }

  // ----- the bytes that follow

  lemma {:induction false} PointOfTailAt(s: string, lead: int, tail: seq<int>)
    requires |s| >= 3 && TailAt(s, 3, tail)
    ensures Point(s, lead, |tail|) == Some(Value(lead, tail))
    decreases |tail|
  {
    if tail != [] {
      ByteAtExact(s, 3, 0x80 + tail[0]);
      Shifted(s, 3, tail[1..]);
      PointOfTailAt(s[3..], lead * 64 + tail[0], tail[1..]);
    }
  }

  /** Positions count from three characters further on. */
  lemma {:induction false} Shifted(s: string, i: nat, tail: seq<int>)
    requires |s| >= 3
    ensures TailAt(s, i + 3, tail) <==> TailAt(s[3..], i, tail)
    decreases |tail|
  {
    if tail != [] {
      Shifted(s, i + 3, tail[1..]);
    }
  }

  lemma {:induction false} TailOfPoint(s: string, lead: int, k: nat) returns (tail: seq<int>)
    requires |s| >= 3 && Point(s, lead, k).Some?
    ensures |tail| == k && TailAt(s, 3, tail) && Point(s, lead, k) == Some(Value(lead, tail))
    ensures |s| >= 3 * (k + 1)
    decreases k
  {
    if k == 0 {
      tail := [];
    } else {
      var low := Continuation(s[3..]).value;
      var more := TailOfPoint(s[3..], lead * 64 + low, k - 1);
      tail := [low] + more;
      assert tail[1..] == more;
      ByteAtExact(s, 3, 0x80 + low);
      Shifted(s, 3, more);
    }
  }

  // ----- one character

  lemma TwoBytes(lead: int, a: int)
    requires 0 <= lead < 32 && 0 <= a < 64 && lead * 64 + a >= 0x80
    ensures Tail(lead * 64 + a) == [a] && Lead(lead * 64 + a) == 0xC0 + lead
  {
  }

  lemma ThreeBytes(lead: int, a: int, b: int)
    requires 0 <= lead < 16 && 0 <= a < 64 && 0 <= b < 64 && (lead * 64 + a) * 64 + b >= 0x800
    ensures var n := (lead * 64 + a) * 64 + b;
      Tail(n) == [a, b] && Lead(n) == 0xE0 + lead
  {
    var n := (lead * 64 + a) * 64 + b;
    assert n / 64 == lead * 64 + a && n / 4096 == lead;
  }

  lemma FourBytes(lead: int, a: int, b: int, c: int)
    requires 0 <= lead < 8 && 0 <= a < 64 && 0 <= b < 64 && 0 <= c < 64
    requires 0x10000 <= ((lead * 64 + a) * 64 + b) * 64 + c < 0x110000
    ensures var n := ((lead * 64 + a) * 64 + b) * 64 + c;
      Tail(n) == [a, b, c] && Lead(n) == 0xF0 + lead
  {
    var n := ((lead * 64 + a) * 64 + b) * 64 + c;
    assert n / 64 == (lead * 64 + a) * 64 + b && n / 4096 == lead * 64 + a && n / 262144 == lead;
  }

  /** A code point that was not written too long has these bytes and no others. */
  lemma BytesOf(lead: int, tail: seq<int>, n: int, marker: int)
    requires 1 <= |tail| <= 3 && n == Value(lead, tail) && forall j :: 0 <= j < |tail| ==> 0 <= tail[j] < 64
    requires |tail| == 1 ==> 0 <= lead < 32 && marker == 0xC0 && n >= 0x80
    requires |tail| == 2 ==> 0 <= lead < 16 && marker == 0xE0 && n >= 0x800
    requires |tail| == 3 ==> 0 <= lead < 8 && marker == 0xF0 && 0x10000 <= n < 0x110000
    ensures 0 <= n < 0x110000 && Tail(n) == tail && Lead(n) == marker + lead
  {
    if |tail| == 1 {
      assert tail == [tail[0]];
      ValueOf(lead, tail[0], 0, 0);
      TwoBytes(lead, tail[0]);
    } else if |tail| == 2 {
      assert tail == [tail[0], tail[1]];
      ValueOf(lead, tail[0], tail[1], 0);
      ThreeBytes(lead, tail[0], tail[1]);
    } else {
      assert tail == [tail[0], tail[1], tail[2]];
      ValueOf(lead, tail[0], tail[1], tail[2]);
      FourBytes(lead, tail[0], tail[1], tail[2]);
    }
  }

  lemma LongIsWriting(s: string, lead: int, k: nat, least: int, marker: int, r: Read)
    requires |s| >= 3 && 1 <= k <= 3 && ReadLong(s, lead, k, least) == Some(r)
    requires k == 1 ==> 0 <= lead < 32 && marker == 0xC0 && least == 0x80
    requires k == 2 ==> 0 <= lead < 16 && marker == 0xE0 && least == 0x800
    requires k == 3 ==> 0 <= lead < 8 && marker == 0xF0 && least == 0x10000
    requires EscapedByte(s) == Some(marker + lead)
    ensures 1 <= r.length <= |s| && WritesChar(s, r.length, r.c)
  {
    var tail := TailOfPoint(s, lead, k);
    BytesOf(lead, tail, r.c as int, marker);
    ByteAtExact(s, 0, marker + lead);
    assert s[0..] == s;
  }

  /** What is read is written. */
  lemma ReadIsWriting(s: string, r: Read)
    requires s != "" && ReadChar(s) == Some(r)
    ensures 1 <= r.length <= |s| && WritesChar(s, r.length, r.c)
  {
    if s[0] == '%' {
      var b := EscapedByte(s).value;
      if b < 0x80 {
        ByteAtExact(s, 0, b);
        assert s[0..] == s;
      } else if b < 0xE0 {
        LongIsWriting(s, b - 0xC0, 1, 0x80, 0xC0, r);
      } else if b < 0xF0 {
        LongIsWriting(s, b - 0xE0, 2, 0x800, 0xE0, r);
      } else {
        LongIsWriting(s, b - 0xF0, 3, 0x10000, 0xF0, r);
      }
    }
  }

  /** What is written is read. */
  lemma WritingIsRead(s: string, n: nat, c: char)
    requires s != "" && WritesChar(s, n, c)
    ensures ReadChar(s) == Some(Read(c, n))
  {
    if !(n == 1 && s[0] == c && c != '%') {
      ByteAtExact(s, 0, Lead(c as int));
      assert s[0..] == s;
      ValueOfParts(c as int);
      PointOfTailAt(s, LeadBits(c as int), Tail(c as int));
      ReadScalar(c, s);
    }
  }

  // ----- whole texts

  /** The first character written, and what is left. */
  lemma DecodedFirst(s: string, t: string) returns (n: nat)
    requires s != "" && Decode(s) == Some(t)
    ensures t != "" && 1 <= n <= |s| && WritesChar(s, n, t[0]) && Decode(s[n..]) == Some(t[1..])
    ensures ReadChar(s) == Some(Read(t[0], n))
  {
    var r := ReadChar(s).value;
    ReadIsWriting(s, r);
    n := r.length;
  }

  lemma WrittenFirst(s: string, n: nat, t: string)
    requires t != "" && 1 <= n <= |s| && WritesChar(s, n, t[0]) && Decode(s[n..]) == Some(t[1..])
    ensures Decode(s) == Some(t)
  {
    WritingIsRead(s, n, t[0]);
    assert t == [t[0]] + t[1..];
  }

  lemma {:induction false} DecodedIsWritten(s: string, t: string)
    requires Decode(s) == Some(t)
    ensures Writes(s, t)
    decreases |s|
  {
    if s != "" {
      var n := DecodedFirst(s, t);
      DecodedIsWritten(s[n..], t[1..]);
    }
  }

  lemma {:induction false} WrittenDecodes(s: string, t: string)
    requires Writes(s, t)
    ensures Decode(s) == Some(t)
    decreases |t|
  {
    if t != "" {
      var n: nat :| 1 <= n <= |s| && WritesChar(s, n, t[0]) && Writes(s[n..], t[1..]);
      WrittenDecodes(s[n..], t[1..]);
      WrittenFirst(s, n, t);
    }
  }

  /** A text decodes to another exactly when it is a writing of it; in particular a text that is a writing of nothing is
      refused. */
  lemma DecodeExact(s: string, t: string)
    ensures Decode(s) == Some(t) <==> Writes(s, t)
  {
    if Decode(s) == Some(t) { DecodedIsWritten(s, t); }
    if Writes(s, t) { WrittenDecodes(s, t); }
  }

  // ----- what an escape cannot hide

  /** Without an escape the target check refuses, a dot or a backslash that is read is one that stands there. */
  lemma ReadsItself(s: string, r: Read)
    requires s != "" && ReadChar(s) == Some(r) && (r.c == '.' || r.c == '\\') && !BadEscapeAt(s, 0)
    ensures r.length == 1 && s[0] == r.c
  {
    ReadIsWriting(s, r);
  }

  ghost predicate OnlyDots(t: string) {
    forall i :: 0 <= i < |t| ==> t[i] == '.'
  }

  lemma BadEscapeTail(s: string, n: nat)
    requires n <= |s| && !HasBadEscape(s)
    ensures !HasBadEscape(s[n..])
  {
    if HasBadEscape(s[n..]) {
      var i :| BadEscapeAt(s[n..], i);
      assert BadEscapeAt(s, i + n);
    }
  }

  /** A text without such escapes decodes to a backslash or to nothing but dots only when it is written with them. */
  lemma {:induction false} NothingHidden(s: string, t: string)
    requires !HasBadEscape(s) && Decode(s) == Some(t)
    ensures '\\' in t ==> '\\' in s
    ensures OnlyDots(t) ==> s == t
    decreases |s|
  {
    if s != "" {
      var n := DecodedFirst(s, t);
      BadEscapeTail(s, n);
      NothingHidden(s[n..], t[1..]);
      assert !BadEscapeAt(s, 0);
      if t[0] == '.' || t[0] == '\\' { ReadsItself(s, Read(t[0], n)); }
      if OnlyDots(t) {
        assert OnlyDots(t[1..]);
        assert s == [s[0]] + s[1..];
      }
    }
  }
}
