/** The block a failed authentication is counted against (`packages/server/src/server.ts`, `throttleKey`): the IPv4
    address, or the top 64 bits of an IPv6 address in any of its hexadecimal text forms (section 2.2 of RFC 4291). */
module SourceBlocks {
  import opened Strings

  // ----- JavaScript strings

  /** `s.split(separator)` for a separator that is not empty. */
  function Split(s: string, separator: string): (parts: seq<string>)
    requires separator != ""
    ensures parts != []
    decreases |s|
  {
    if |s| < |separator| then [s]
    else if s[..|separator|] == separator then [""] + Split(s[|separator|..], separator)
    else
      var rest := Split(s[1..], separator);
      [[s[0]] + rest[0]] + rest[1..]
  }

  /** `parts.join(":")` */
  function Join(parts: seq<string>): string {
    if parts == [] then ""
    else if |parts| == 1 then parts[0]
    else parts[0] + ":" + Join(parts[1..])
  }

  /** `group.replace(/^0+(?=.)/, "")`: leading zeros go, but never the last character. */
  function Stripped(group: string): string {
    if |group| > 1 && group[0] == '0' then Stripped(group[1..]) else group
  }

  // ----- the source

  /** The groups of a text Node takes for an IPv6 address, with the gap of a `::` filled by zeros. */
  function Groups(bare: string): seq<string> {
    var parts := Split(bare, "::");
    var head := parts[0];
    var front := if head == "" then [] else Split(head, ":");
    var back := if |parts| == 1 || parts[1] == "" then [] else Split(parts[1], ":");
    if |parts| == 1 then front
    else front + seq(if |front| + |back| < 8 then 8 - |front| - |back| else 0, _ => "0") + back
  }

  function Canonical(groups: seq<string>): seq<string> {
    seq(|groups|, i requires 0 <= i < |groups| => Stripped(Lower(groups[i])))
  }

  /** `isIPv6` stands for Node's own test of an address text. */
  function ThrottleKey(address: string, isIPv6: string -> bool): string {
    var bare := if StartsWith(address, "::ffff:") && '.' in address then address[7..] else address;
    if !isIPv6(bare) then bare
    else
      var groups := Groups(bare);
      Join(Canonical(if |groups| < 4 then groups else groups[..4])) + "::/64"
  }

  // ----- addresses and their texts

  predicate IsHex(c: char) {
    '0' <= c <= '9' || 'a' <= c <= 'f' || 'A' <= c <= 'F'
  }

  function DigitOf(c: char): (d: nat)
    requires IsHex(c)
    ensures d < 16
  {
    if c <= '9' then c as int - '0' as int
    else if c <= 'F' then c as int - 'A' as int + 10
    else c as int - 'a' as int + 10
  }

  predicate AllHex(s: string) {
    forall i :: 0 <= i < |s| ==> IsHex(s[i])
  }

  /** The number a hexadecimal text stands for. */
  function Hex(s: string): nat
    requires AllHex(s)
  {
    if s == "" then 0 else 16 * Hex(s[..|s| - 1]) + DigitOf(s[|s| - 1])
  }

  predicate Group(g: string) {
    1 <= |g| <= 4 && AllHex(g)
  }

  predicate AllGroups(groups: seq<string>) {
    forall i :: 0 <= i < |groups| ==> Group(groups[i])
  }

  /** Eight groups, or fewer around a `::` that stands for at least one group of zeros. */
  datatype Form = Full(groups: seq<string>) | Compressed(front: seq<string>, back: seq<string>)

  predicate ValidForm(f: Form) {
    match f
    case Full(groups) => |groups| == 8 && AllGroups(groups)
    case Compressed(front, back) => |front| + |back| <= 7 && AllGroups(front) && AllGroups(back)
  }

  function Print(f: Form): string {
    match f
    case Full(groups) => Join(groups)
    case Compressed(front, back) => Join(front) + "::" + Join(back)
  }

  function Filled(f: Form): (groups: seq<string>)
    requires ValidForm(f)
    ensures |groups| == 8 && AllGroups(groups)
  {
    match f
    case Full(groups) => groups
    case Compressed(front, back) => front + seq(8 - |front| - |back|, _ => "0") + back
  }

  function Values(groups: seq<string>): (vs: seq<nat>)
    requires AllGroups(groups)
    ensures |vs| == |groups|
    ensures forall i :: 0 <= i < |vs| ==> vs[i] == Hex(groups[i])
  {
    seq(|groups|, i requires 0 <= i < |groups| => Hex(groups[i]))
  }

  function Number(vs: seq<nat>): nat {
    if vs == [] then 0 else 65536 * Number(vs[..|vs| - 1]) + vs[|vs| - 1]
  }

  /** The 128-bit address a text stands for. */
  function Address(f: Form): nat
    requires ValidForm(f)
  {
    Number(Values(Filled(f)))
  }

  // ----- splitting what was joined

  predicate Clean(parts: seq<string>) {
    forall i :: 0 <= i < |parts| ==> parts[i] != "" && ':' !in parts[i]
  }

  lemma {:induction false} SplitPart(p: string, rest: string)
    requires ':' !in p
    ensures Split(p, ":") == [p]
    ensures Split(p + ":" + rest, ":") == [p] + Split(rest, ":")
    decreases |p|
  {
    var s := p + ":" + rest;
    if p == "" {
      assert s[..1] == ":" && s[1..] == rest;
    } else {
      SplitPart(p[1..], rest);
      assert s[..1] == [p[0]] && s[1..] == p[1..] + ":" + rest;
      assert p[..1] == [p[0]] && p == [p[0]] + p[1..];
    }
  }

  lemma {:induction false} SplitJoin(parts: seq<string>)
    requires parts != [] && Clean(parts)
    ensures Split(Join(parts), ":") == parts
    decreases |parts|
  {
    if |parts| == 1 {
      SplitPart(parts[0], "");
    } else {
      SplitJoin(parts[1..]);
      SplitPart(parts[0], Join(parts[1..]));
      assert parts == [parts[0]] + parts[1..];
    }
  }

  predicate NoGap(s: string) {
    forall i :: 0 < i < |s| ==> s[i - 1] != ':' || s[i] != ':'
  }

  predicate Framed(s: string) {
    NoGap(s) && (s != "" ==> s[0] != ':' && s[|s| - 1] != ':')
  }

  lemma {:induction false} JoinFramed(parts: seq<string>)
    requires Clean(parts)
    ensures Framed(Join(parts)) && (Join(parts) == "" <==> parts == [])
    decreases |parts|
  {
    if parts != [] {
      assert parts[0][0] in parts[0] && parts[0][|parts[0]| - 1] in parts[0];
      forall i | 0 < i < |parts[0]| ensures parts[0][i] != ':' { assert parts[0][i] in parts[0]; }
      JoinFramed(parts[1..]);
    }
  }

  lemma {:induction false} SplitNoGap(s: string)
    requires NoGap(s)
    ensures Split(s, "::") == [s]
    decreases |s|
  {
    if |s| >= 2 {
      assert s[..2] == [s[0], s[1]];
      assert s[0] != ':' || s[1] != ':';
      forall i | 0 < i < |s[1..]| ensures s[1..][i - 1] != ':' || s[1..][i] != ':' {
        assert s[1..][i - 1] == s[i];
      }
      SplitNoGap(s[1..]);
      assert s == [s[0]] + s[1..];
    }
  }

  lemma {:induction false} SplitGap(head: string, tail: string)
    requires NoGap(head) && (head != "" ==> head[|head| - 1] != ':') && NoGap(tail)
    ensures Split(head + "::" + tail, "::") == [head, tail]
    decreases |head|
  {
    var s := head + "::" + tail;
    if head == "" {
      assert s[..2] == "::" && s[2..] == tail;
      SplitNoGap(tail);
    } else {
      var rest := head[1..];
      assert s[..2] == [s[0], s[1]];
      if |head| >= 2 {
        assert s[0] == head[0] && s[1] == head[1];
        assert head[1 - 1] != ':' || head[1] != ':';
      } else {
        assert s[0] == head[0] != ':';
      }
      forall i | 0 < i < |rest| ensures rest[i - 1] != ':' || rest[i] != ':' {
        assert rest[i - 1] == head[i];
      }
      SplitGap(rest, tail);
      assert s[1..] == rest + "::" + tail;
      assert head == [head[0]] + rest;
    }
  }

  lemma GroupsClean(groups: seq<string>)
    requires AllGroups(groups)
    ensures Clean(groups)
  {
    forall i | 0 <= i < |groups| ensures groups[i] != "" && ':' !in groups[i] {
      assert Group(groups[i]);
    }
  }

  /** Reading a text finds the eight groups it was written with, zeros included. */
  lemma GroupsOfPrint(f: Form)
    requires ValidForm(f)
    ensures Groups(Print(f)) == Filled(f)
  {
    match f
    case Full(groups) =>
      PartsOfJoin(groups);
      SplitNoGap(Join(groups));
      assert Join(groups) != "";
    case Compressed(front, back) =>
      PartsOfJoin(front);
      PartsOfJoin(back);
      SplitGap(Join(front), Join(back));
      GroupsAroundGap(Print(f), Join(front), Join(back), front, back);
  }

  lemma GroupsAroundGap(text: string, head: string, tail: string, front: seq<string>, back: seq<string>)
    requires Split(text, "::") == [head, tail]
    requires front == if head == "" then [] else Split(head, ":")
    requires back == if tail == "" then [] else Split(tail, ":")
    requires |front| + |back| <= 7
    ensures Groups(text) == front + seq(8 - |front| - |back|, _ => "0") + back
  {
  }

  lemma PartsOfJoin(groups: seq<string>)
    requires AllGroups(groups)
    ensures Framed(Join(groups)) && groups == if Join(groups) == "" then [] else Split(Join(groups), ":")
  {
    GroupsClean(groups);
    JoinFramed(groups);
    if groups != [] { SplitJoin(groups); }
  }

  // ----- one canonical text for each number

  function Digit(d: nat): char
    requires d < 16
  {
    if d < 10 then ('0' as int + d) as char else ('a' as int + d - 10) as char
  }

  function ToHex(n: nat): (s: string)
    ensures s != "" && AllHex(s)
  {
    if n < 16 then [Digit(n)] else ToHex(n / 16) + [Digit(n % 16)]
  }

  lemma {:induction false} HexOfToHex(n: nat)
    ensures Hex(ToHex(n)) == n && ':' !in ToHex(n)
    decreases n
  {
    var s := ToHex(n);
    if n < 16 {
      assert s[..|s| - 1] == "";
    } else {
      HexOfToHex(n / 16);
      assert s[..|s| - 1] == ToHex(n / 16);
    }
  }

  lemma LowerDigit(c: char)
    requires IsHex(c)
    ensures IsHex(LowerChar(c)) && DigitOf(LowerChar(c)) == DigitOf(c) && LowerChar(c) == Digit(DigitOf(c))
  {
  }

  /** Hexadecimal digits as `ToHex` writes them. */
  predicate LowerHex(s: string) {
    forall i :: 0 <= i < |s| ==> IsHex(s[i]) && s[i] == Digit(DigitOf(s[i]))
  }

  lemma HexOfLower(s: string)
    requires AllHex(s)
    ensures LowerHex(Lower(s)) && Hex(Lower(s)) == Hex(s)
  {
    forall i | 0 <= i < |s|
      ensures IsHex(Lower(s)[i]) && DigitOf(Lower(s)[i]) == DigitOf(s[i]) && Lower(s)[i] == Digit(DigitOf(s[i]))
    {
      LowerDigit(s[i]);
    }
    SameDigitsSameHex(s, Lower(s));
  }

  lemma {:induction false} HexPositive(s: string)
    requires LowerHex(s) && s != "" && s[0] != '0'
    ensures Hex(s) > 0
    decreases |s|
  {
    if |s| > 1 {
      HexPositive(s[..|s| - 1]);
    }
  }

  lemma ToHexGrows(n: nat, d: nat)
    requires n > 0 && d < 16
    ensures ToHex(16 * n + d) == ToHex(n) + [Digit(d)]
  {
    assert (16 * n + d) / 16 == n && (16 * n + d) % 16 == d;
  }

  lemma {:induction false} ShortestIsToHex(s: string)
    requires LowerHex(s) && s != "" && (|s| > 1 ==> s[0] != '0')
    ensures ToHex(Hex(s)) == s
    decreases |s|
  {
    var init := s[..|s| - 1];
    var d := LastDigit(s);
    if |s| > 1 {
      HexPositive(init);
      ShortestIsToHex(init);
      ToHexGrows(Hex(init), d);
    }
  }

  lemma LastDigit(s: string) returns (d: nat)
    requires LowerHex(s) && s != ""
    ensures var init := s[..|s| - 1];
      LowerHex(init) && d < 16 && s == init + [Digit(d)] && Hex(s) == 16 * Hex(init) + d
      && (init == "" ==> Hex(init) == 0)
  {
    d := DigitOf(s[|s| - 1]);
    assert s == s[..|s| - 1] + [s[|s| - 1]];
  }

  lemma {:induction false} LeadingZero(s: string)
    requires LowerHex(s) && s != "" && s[0] == '0'
    ensures LowerHex(s[1..]) && Hex(s) == Hex(s[1..])
    decreases |s|
  {
    forall i | 0 <= i < |s[1..]| ensures IsHex(s[1..][i]) && s[1..][i] == Digit(DigitOf(s[1..][i])) {
      assert s[1..][i] == s[i + 1];
    }
    if |s| > 1 {
      var init := s[..|s| - 1];
      LeadingZero(init);
      assert init[1..] == s[1..][..|s| - 2];
    } else {
      assert s[..0] == "";
    }
  }

  lemma {:induction false} StrippedIsToHex(s: string)
    requires LowerHex(s) && s != ""
    ensures Stripped(s) == ToHex(Hex(s))
    decreases |s|
  {
    if |s| > 1 && s[0] == '0' {
      LeadingZero(s);
      StrippedIsToHex(s[1..]);
    } else {
      ShortestIsToHex(s);
    }
  }

  lemma {:induction false} SameDigitsSameHex(s: string, t: string)
    requires AllHex(s) && AllHex(t)
    requires |s| == |t| && forall i :: 0 <= i < |s| ==> DigitOf(s[i]) == DigitOf(t[i])
    ensures Hex(s) == Hex(t)
    decreases |s|
  {
    if s != "" {
      SameDigitsSameHex(s[..|s| - 1], t[..|t| - 1]);
    }
  }

  /** Case and leading zeros do not matter: the canonical group is the shortest lower-case text of the group's
      number. */
  lemma CanonicalGroup(g: string)
    requires g != "" && AllHex(g)
    ensures Stripped(Lower(g)) == ToHex(Hex(g))
  {
    HexOfLower(g);
    StrippedIsToHex(Lower(g));
  }

  // ----- the key names the block

  function KeyOf(vs: seq<nat>): string {
    Join(seq(|vs|, i requires 0 <= i < |vs| => ToHex(vs[i]))) + "::/64"
  }

  lemma KeyOfInjective(a: seq<nat>, b: seq<nat>)
    requires |a| == |b| > 0
    requires KeyOf(a) == KeyOf(b)
    ensures a == b
  {
    var s := seq(|a|, i requires 0 <= i < |a| => ToHex(a[i]));
    var t := seq(|b|, i requires 0 <= i < |b| => ToHex(b[i]));
    forall i | 0 <= i < |a|
      ensures Hex(s[i]) == a[i] && Hex(t[i]) == b[i] && ':' !in s[i] && ':' !in t[i]
    {
      HexOfToHex(a[i]);
      HexOfToHex(b[i]);
    }
    var keyA, keyB := KeyOf(a), KeyOf(b);
    assert keyA[..|keyA| - 5] == Join(s) && keyB[..|keyB| - 5] == Join(t);
    SplitJoin(s);
    SplitJoin(t);
    forall i | 0 <= i < |a| ensures a[i] == b[i] {
      assert s[i] == t[i];
    }
  }

  lemma NoDot(f: Form)
    requires ValidForm(f)
    ensures '.' !in Print(f) && '/' !in Print(f)
  {
    match f
    case Full(groups) => JoinPlain(groups);
    case Compressed(front, back) =>
      JoinPlain(front);
      JoinPlain(back);
  }

  lemma {:induction false} JoinPlain(groups: seq<string>)
    requires AllGroups(groups)
    ensures '.' !in Join(groups) && '/' !in Join(groups)
    decreases |groups|
  {
    if groups != [] {
      assert Group(groups[0]);
      JoinPlain(groups[1..]);
    }
  }

  /** The key of an IPv6 text is made of the numbers of its first four groups and of nothing else. */
  lemma KeyOfForm(f: Form, isIPv6: string -> bool)
    requires ValidForm(f) && isIPv6(Print(f))
    ensures ThrottleKey(Print(f), isIPv6) == KeyOf(Values(Filled(f))[..4])
  {
    NoDot(f);
    GroupsOfPrint(f);
    var groups := Filled(f)[..4];
    var vs := Values(Filled(f))[..4];
    forall i | 0 <= i < 4 ensures Stripped(Lower(groups[i])) == ToHex(vs[i]) {
      assert Group(Filled(f)[i]);
      CanonicalGroup(groups[i]);
    }
    assert Canonical(groups) == seq(|vs|, i requires 0 <= i < |vs| => ToHex(vs[i]));
  }

  lemma {:induction false} HexBound(s: string)
    requires AllHex(s)
    requires |s| <= 4
    ensures Hex(s) < (match |s| case 0 => 1 case 1 => 16 case 2 => 256 case 3 => 4096 case _ => 65536)
    decreases |s|
  {
    if s != "" {
      HexBound(s[..|s| - 1]);
    }
  }

  lemma {:induction false} NumberInjective(a: seq<nat>, b: seq<nat>)
    requires |a| == |b| && forall i :: 0 <= i < |a| ==> a[i] < 65536 && b[i] < 65536
    requires Number(a) == Number(b)
    ensures a == b
    decreases |a|
  {
    if a != [] {
      var n := |a| - 1;
      NumberInjective(a[..n], b[..n]);
      assert a == a[..n] + [a[n]] && b == b[..n] + [b[n]];
    }
  }

  /** The top 64 bits of eight groups are the number of the first four. */
  lemma TopIsFirstFour(vs: seq<nat>)
    requires |vs| == 8 && (forall i :: 0 <= i < 8 ==> vs[i] < 65536)
    ensures Number(vs) / 0x1_0000_0000_0000_0000 == Number(vs[..4])
  {
    assert vs[..8] == vs;
    assert vs[..8][..7] == vs[..7] && vs[..7][..6] == vs[..6] && vs[..6][..5] == vs[..5] && vs[..5][..4] == vs[..4];
    assert Number(vs[..7]) == 65536 * Number(vs[..6]) + vs[6];
    assert Number(vs[..5]) == 65536 * Number(vs[..4]) + vs[4];
  }

  lemma BlockOfForm(f: Form)
    requires ValidForm(f)
    ensures Address(f) / 0x1_0000_0000_0000_0000 == Number(Values(Filled(f))[..4])
    ensures forall i :: 0 <= i < 8 ==> Values(Filled(f))[i] < 65536
  {
    forall i | 0 <= i < 8 ensures Values(Filled(f))[i] < 65536 {
      assert Group(Filled(f)[i]);
      HexBound(Filled(f)[i]);
    }
    TopIsFirstFour(Values(Filled(f)));
  }

  /** Two texts of IPv6 addresses are counted together exactly when the addresses share their top 64 bits, however they
      are written. */
  lemma SameKeyIffSameBlock(f: Form, g: Form, isIPv6: string -> bool)
    requires ValidForm(f) && isIPv6(Print(f))
    requires ValidForm(g) && isIPv6(Print(g))
    ensures ThrottleKey(Print(f), isIPv6) == ThrottleKey(Print(g), isIPv6)
      <==> Address(f) / 0x1_0000_0000_0000_0000 == Address(g) / 0x1_0000_0000_0000_0000
  {
    KeyOfForm(f, isIPv6);
    KeyOfForm(g, isIPv6);
    BlockOfForm(f);
    BlockOfForm(g);
    var a, b := Values(Filled(f))[..4], Values(Filled(g))[..4];
    if KeyOf(a) == KeyOf(b) {
      KeyOfInjective(a, b);
    }
    if Number(a) == Number(b) {
      NumberInjective(a, b);
    }
  }

  /** An IPv4 text as Node hands it over: dotted, and not an IPv6 text. */
  predicate Dotted(text: string) {
    '.' in text && ':' !in text && '/' !in text
  }

  /** An IPv4 source counts by its whole address, the same when it arrives mapped into IPv6, and never together with an
      IPv6 block. */
  lemma Ipv4CountsByAddress(text: string, other: string, f: Form, isIPv6: string -> bool)
    requires Dotted(text) && !isIPv6(text) && Dotted(other) && !isIPv6(other)
    requires ValidForm(f) && isIPv6(Print(f))
    ensures ThrottleKey("::ffff:" + text, isIPv6) == ThrottleKey(text, isIPv6)
    ensures ThrottleKey(text, isIPv6) == ThrottleKey(other, isIPv6) <==> text == other
    ensures ThrottleKey(text, isIPv6) != ThrottleKey(Print(f), isIPv6)
  {
    MappedKey(text, isIPv6);
    DottedKey(text, isIPv6);
    DottedKey(other, isIPv6);
    BlockKeyHasSlash(f, isIPv6);
  }

  lemma DottedKey(text: string, isIPv6: string -> bool)
    requires Dotted(text) && !isIPv6(text)
    ensures ThrottleKey(text, isIPv6) == text
  {
    assert text[0] in text && !StartsWith(text, "::ffff:");
  }

  lemma MappedKey(text: string, isIPv6: string -> bool)
    requires Dotted(text) && !isIPv6(text)
    ensures ThrottleKey("::ffff:" + text, isIPv6) == text
  {
    var mapped := "::ffff:" + text;
    assert mapped[7..] == text;
    var dot :| 0 <= dot < |text| && text[dot] == '.';
    assert mapped[7 + dot] == '.';
  }

  lemma BlockKeyHasSlash(f: Form, isIPv6: string -> bool)
    requires ValidForm(f) && isIPv6(Print(f))
    ensures '/' in ThrottleKey(Print(f), isIPv6)
  {
    KeyOfForm(f, isIPv6);
    var key := KeyOf(Values(Filled(f))[..4]);
    assert key[|key| - 1 - 2] == '/';
  }
}
