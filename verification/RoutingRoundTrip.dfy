/** The path the client prints for an operation of the table is routed to that operation and decodes to the values that
    were printed; and which values the server's target check turns away (`packages/server/src/server.ts`). */
module RoutingRoundTrip {
  import opened Wrappers
  import opened PercentEncoding
  import opened PercentDecoding
  import opened Routing
  import opened OperationTable

  // ----- no path belongs to two operations

  lemma WordIsCapture(s: string, last: bool)
    requires LiteralText(s, last)
    ensures Capture(s)
  {
  }

  /** In a clear tree, two ways that match the same path are the same way. */
  lemma {:induction false} OnePathOneOperation(t: Tree, va: Method, a: seq<Segment>, vb: Method, b: seq<Segment>,
                                               path: string)
    requires Clear(t) && Lists(t, va, a) && Lists(t, vb, b)
    requires Exec(a, path).Some? && Exec(b, path).Some?
    ensures a == b
    decreases |a|
  {
    if a == [] || b == [] {
      ExecEmpty(a, path);
      ExecEmpty(b, path);
    } else {
      var i, rest := SameEdge(t, va, a, vb, b, path);
      assert a == [a[0]] + a[1..] && b == [b[0]] + b[1..];
      OnePathOneOperation(t.edges[i].tree, va, a[1..], vb, b[1..], rest);
    }
  }

  /** Both ways take the same edge first. */
  lemma SameEdge(t: Tree, va: Method, a: seq<Segment>, vb: Method, b: seq<Segment>, path: string)
    returns (i: nat, rest: string)
    requires Clear(t) && Lists(t, va, a) && Lists(t, vb, b) && a != [] && b != []
    requires Exec(a, path).Some? && Exec(b, path).Some?
    ensures i < |t.edges| && t.edges[i].segment == a[0] == b[0] && Clear(t.edges[i].tree)
    ensures Lists(t.edges[i].tree, va, a[1..]) && Lists(t.edges[i].tree, vb, b[1..])
    ensures Exec(a[1..], rest).Some? && Exec(b[1..], rest).Some?
  {
    i :| 0 <= i < |t.edges| && t.edges[i].segment == a[0] && Lists(t.edges[i].tree, va, a[1..]);
    var j :| 0 <= j < |t.edges| && t.edges[j].segment == b[0] && Lists(t.edges[j].tree, vb, b[1..]);
    var ha, ta := ExecFirst(a, path);
    var hb, tb := ExecFirst(b, path);
    ExecTailStarts(a[1..], ta);
    ExecTailStarts(b[1..], tb);
    SameHead(t, i, j, ha, ta, hb, tb, path);
    rest := ta;
  }

  lemma ExecEmpty(s: seq<Segment>, path: string)
    requires Exec(s, path).Some?
    ensures s == [] <==> path == ""
  {
  }

  lemma ExecTailStarts(s: seq<Segment>, path: string)
    requires Exec(s, path).Some?
    ensures path == "" || path[0] == '/'
  {
  }

  /** Two edges of a clear tree that read the same path read the same head, so they are one edge. */
  lemma SameHead(t: Tree, i: nat, j: nat, ha: string, ta: string, hb: string, tb: string, path: string)
    requires Clear(t) && i < |t.edges| && j < |t.edges|
    requires path == "/" + ha + ta && path == "/" + hb + tb
    requires (ta == "" || ta[0] == '/') && (tb == "" || tb[0] == '/')
    requires t.edges[i].segment.Literal? ==> ha == t.edges[i].segment.text
    requires t.edges[j].segment.Literal? ==> hb == t.edges[j].segment.text
    requires (t.edges[i].segment.Param? ==> Capture(ha)) && (t.edges[j].segment.Param? ==> Capture(hb))
    ensures i == j && ha == hb && ta == tb
  {
    if t.edges[i].segment.Literal? { WordIsCapture(ha, t.edges[i].tree.edges == []); }
    if t.edges[j].segment.Literal? { WordIsCapture(hb, t.edges[j].tree.edges == []); }
    assert path[1..] == ha + ta && path[1..] == hb + tb;
    UpToSlashOf(ha, ta);
    UpToSlashOf(hb, tb);
    assert (ha + ta)[|ha|..] == ta && (hb + tb)[|hb|..] == tb;
  }

  lemma {:induction false} ListedIsPrintable(t: Tree, verb: Method, segments: seq<Segment>)
    requires Clear(t) && Lists(t, verb, segments)
    ensures Printable(segments)
    ensures LiteralsAreWords(segments)
    decreases |segments|
  {
    if segments != [] {
      var i :| 0 <= i < |t.edges| && t.edges[i].segment == segments[0] && Lists(t.edges[i].tree, verb, segments[1..]);
      ListedIsPrintable(t.edges[i].tree, verb, segments[1..]);
      if segments[0].Literal? { HeadIsPlain(t, i, verb, segments); }
      assert forall k :: 0 < k < |segments| ==> segments[k] == segments[1..][k - 1];
    }
  }

  lemma HeadIsPlain(t: Tree, i: nat, verb: Method, segments: seq<Segment>)
    requires Clear(t) && segments != [] && i < |t.edges| && t.edges[i].segment == segments[0]
    requires Lists(t.edges[i].tree, verb, segments[1..]) && segments[0].Literal?
    ensures LiteralText(segments[0].text, true) && (|segments| > 1 ==> ':' !in segments[0].text)
  {
    if |segments| > 1 {
      assert segments[1..] != [];
      assert t.edges[i].tree.edges != [];
    }
  }

  // ----- the server's target check

  predicate AtBreak(p: string, k: int) { k == |p| || (0 <= k < |p| && p[k] == '/') }

  /** A segment that is `.` or `..` starts here. */
  predicate DotSegmentAt(p: string, i: int) {
    && 0 <= i < |p| && (i == 0 || p[i - 1] == '/') && p[i] == '.'
    && (AtBreak(p, i + 1) || (i + 1 < |p| && p[i + 1] == '.' && AtBreak(p, i + 2)))
  }

  /** Where a second parser could read the path differently. */
  predicate AmbiguousAt(p: string, i: int) {
    0 <= i < |p| &&
    (p[i] == '\\' || p[i] == '#' || (i + 1 < |p| && p[i] == '/' && p[i + 1] == '/')
     || BadEscapeAt(p, i) || DotSegmentAt(p, i))
  }

  ghost predicate Ambiguous(p: string) {
    exists i :: AmbiguousAt(p, i)
  }

  const MAX_URL_LENGTH := 2048

  /** The target is turned away before anything looks at it: 404. */
  ghost predicate TargetRefused(target: string) {
    target == "" || target[0] != '/' || |target| > MAX_URL_LENGTH
    || Ambiguous(Pathname(target)) || '#' in Search(target)
  }

  function UpToQuery(s: string): string {
    if s == "" || s[0] == '?' then "" else [s[0]] + UpToQuery(s[1..])
  }

  function Pathname(target: string): string { UpToQuery(target) }

  function Search(target: string): string {
    var n := |UpToQuery(target)|;
    if n < |target| then target[n + 1..] else ""
  }

  lemma {:induction false} UpToQueryOf(path: string, search: string)
    requires '?' !in path && (search == "" || search[0] == '?')
    ensures UpToQuery(path + search) == path
  {
    if path == "" {
      assert path + search == search;
    } else {
      assert (path + search)[1..] == path[1..] + search;
      UpToQueryOf(path[1..], search);
    }
  }

  ghost predicate SegmentAmbiguous(a: string) {
    a == "." || a == ".." || '\\' in a || '#' in a || HasBadEscape(a)
  }

  ghost predicate Regular(a: string) { Capture(a) && WholeEscapes(a) }

  /** Inside the first segment the check sees the segment. */
  lemma FirstSegment(a: string, rest: string, i: int)
    requires Regular(a) && (rest == "" || rest[0] == '/') && 0 <= i < |a|
    ensures AmbiguousAt("/" + a + rest, i + 1) <==>
      a[i] == '\\' || a[i] == '#' || BadEscapeAt(a, i) || (i == 0 && (a == "." || a == ".."))
  {
    var p := "/" + a + rest;
    assert forall k :: 0 <= k < |a| ==> p[k + 1] == a[k];
    assert forall k :: 0 <= k < |rest| ==> p[k + 1 + |a|] == rest[k];
    assert AtBreak(p, |a| + 1);
    assert forall k :: 1 <= k <= |a| ==> !AtBreak(p, k);
    assert p[i + 1] == a[i];
    if i > 0 { assert p[i] == a[i - 1]; }
    if a[i] == '%' {
      assert p[i + 2] == a[i + 1] && p[i + 3] == a[i + 2];
    }
    DotHere(a, rest, i);
  }

  lemma DotHere(a: string, rest: string, i: int)
    requires Capture(a) && (rest == "" || rest[0] == '/') && 0 <= i < |a|
    ensures DotSegmentAt("/" + a + rest, i + 1) <==> i == 0 && (a == "." || a == "..")
  {
    var p := "/" + a + rest;
    assert p[i + 1] == a[i];
    assert i > 0 ==> p[i] == a[i - 1];
    assert |a| > 1 ==> p[2] == a[1];
    assert |a| > 2 ==> p[3] == a[2];
    assert rest != "" ==> p[|a| + 1] == rest[0];
    assert |p| == 1 + |a| + |rest|;
  }

  /** Behind it the check sees the rest. */
  lemma RestOfPath(a: string, rest: string, i: int)
    requires Capture(a) && rest != "" && rest[0] == '/' && 0 <= i < |rest|
    ensures AmbiguousAt("/" + a + rest, i + 1 + |a|) <==> AmbiguousAt(rest, i)
  {
    var p := "/" + a + rest;
    var n := 1 + |a|;
    assert p[i + n] == rest[i] && |p| == n + |rest|;
    assert i + 1 < |rest| ==> p[i + 1 + n] == rest[i + 1];
    assert i + 2 < |rest| ==> p[i + 2 + n] == rest[i + 2];
    assert i > 0 ==> p[i - 1 + n] == rest[i - 1];
  }

  lemma AmbiguousCons(a: string, rest: string)
    requires Regular(a) && (rest == "" || rest[0] == '/')
    ensures Ambiguous("/" + a + rest) <==> SegmentAmbiguous(a) || Ambiguous(rest)
  {
    var p := "/" + a + rest;
    assert p[0] == '/' && p[1] == a[0];
    if Ambiguous(p) {
      var i :| AmbiguousAt(p, i);
      if i > |a| {
        RestOfPath(a, rest, i - 1 - |a|);
      } else if i > 0 {
        FirstSegment(a, rest, i - 1);
      }
    }
    if SegmentAmbiguous(a) {
      var i :|
        0 <= i < |a| && (a[i] == '\\' || a[i] == '#' || BadEscapeAt(a, i) || (i == 0 && (a == "." || a == "..")));
      FirstSegment(a, rest, i);
    }
    if Ambiguous(rest) {
      var i :| AmbiguousAt(rest, i);
      RestOfPath(a, rest, i);
    }
  }

  lemma {:induction false} PathAmbiguous(parts: seq<string>)
    requires AllRegular(parts)
    ensures Ambiguous(Path(parts)) <==> SomeAmbiguous(parts)
  {
    if parts != [] {
      PathStart(parts[1..]);
      AmbiguousCons(parts[0], Path(parts[1..]));
      PathAmbiguous(parts[1..]);
      PartsCons(parts[0], parts[1..]);
      assert [parts[0]] + parts[1..] == parts;
    }
  }

  /** What the check lets through cannot turn into a dot segment or a backslash by decoding. */
  lemma AcceptedSegmentDecodes(a: string, t: string)
    requires !SegmentAmbiguous(a) && Decode(a) == Some(t)
    ensures t != "." && t != ".." && '\\' !in t
  {
    NothingHidden(a, t);
  }

  // ----- the path of an operation

  lemma EncodedSegment(value: string)
    requires Usable(value)
    ensures Regular(Encode(value))
    ensures SegmentAmbiguous(Encode(value)) <==> '\\' in value
  {
    EncodeIsTame(value);
    EncodeBad(value);
    DecodeEncode(value);
    DecodeEncode(".");
    DecodeEncode("..");
    DotsEncoded();
  }

  lemma DotsEncoded()
    ensures Encode(".") == "." && Encode("..") == ".."
  {
    assert ".."[1..] == ".";
    assert "."[1..] == "";
  }

  lemma LiteralSegment(text: string)
    requires LiteralText(text, true)
    ensures Regular(text) && !SegmentAmbiguous(text)
  {
    assert LiteralChar(text[0]) || text[0] == ':';
    assert forall i :: 0 <= i < |text| ==> text[i] != '%' && text[i] != '\\' && text[i] != '#';
    assert forall i :: !BadEscapeAt(text, i);
  }

  ghost predicate SomeAmbiguous(parts: seq<string>) {
    exists k :: 0 <= k < |parts| && SegmentAmbiguous(parts[k])
  }

  ghost predicate AllRegular(parts: seq<string>) {
    forall k :: 0 <= k < |parts| ==> Regular(parts[k])
  }

  ghost predicate SomeBackslash(values: seq<string>) {
    exists i :: 0 <= i < |values| && '\\' in values[i]
  }

  ghost predicate AllUsable(values: seq<string>) {
    forall i :: 0 <= i < |values| ==> Usable(values[i])
  }

  ghost predicate LiteralsAreWords(segments: seq<Segment>) {
    forall i :: 0 <= i < |segments| && segments[i].Literal? ==> LiteralText(segments[i].text, true)
  }

  /** The segments of a printed path are its literals and its encoded values. */
  lemma {:induction false} FilledSegments(segments: seq<Segment>, values: seq<string>)
    requires |values| == |Names(segments)| && LiteralsAreWords(segments) && AllUsable(values)
    ensures AllRegular(Filled(segments, EncodedAll(values)))
    ensures SomeAmbiguous(Filled(segments, EncodedAll(values))) <==> SomeBackslash(values)
    decreases |segments|
  {
    if segments != [] {
      var rest := segments[1..];
      if segments[0].Literal? {
        LiteralSegment(segments[0].text);
        FilledSegments(rest, values);
        PartsCons(segments[0].text, Filled(rest, EncodedAll(values)));
      } else {
        EncodedSegment(values[0]);
        FilledSegments(rest, values[1..]);
        assert EncodedAll(values)[1..] == EncodedAll(values[1..]);
        PartsCons(Encode(values[0]), Filled(rest, EncodedAll(values[1..])));
        BackslashCons(values);
      }
    }
  }

  lemma BackslashCons(values: seq<string>)
    requires values != []
    ensures SomeBackslash(values) <==> '\\' in values[0] || SomeBackslash(values[1..])
  {
    assert forall i :: 0 < i < |values| ==> values[i] == values[1..][i - 1];
    assert forall i :: 0 <= i < |values| - 1 ==> values[1..][i] == values[i + 1];
  }

  lemma PartsCons(head: string, rest: seq<string>)
    ensures SomeAmbiguous([head] + rest) <==> SegmentAmbiguous(head) || SomeAmbiguous(rest)
    ensures AllRegular([head] + rest) <==> Regular(head) && AllRegular(rest)
  {
    var parts := [head] + rest;
    assert parts[0] == head;
    assert forall k :: 0 < k < |parts| ==> parts[k] == rest[k - 1];
    assert forall k :: 0 <= k < |rest| ==> rest[k] == parts[k + 1];
  }

  /** The target check refuses exactly the printed paths of values with a backslash, besides targets that are too long
      or have a fragment in their query. */
  lemma RefusedIffBackslash(verb: Method, segments: seq<Segment>, values: seq<string>, search: string)
    requires Lists(OPERATIONS, verb, segments) && |values| == |Names(segments)| && AllUsable(values)
    requires search == "" || search[0] == '?'
    ensures var path := Path(Filled(segments, EncodedAll(values)));
      && Pathname(path + search) == path
      && (TargetRefused(path + search) <==> SomeBackslash(values) || |path + search| > 2048 || '#' in search)
  {
    OperationsClear();
    ListedIsPrintable(OPERATIONS, verb, segments);
    FilledSegments(segments, values);
    var parts := Filled(segments, EncodedAll(values));
    PathAmbiguous(parts);
    NoQueryInPath(segments, values);
    UpToQueryOf(Path(parts), search);
    SearchOf(Path(parts), search);
    PathStart(parts);
    NotEmpty(verb, segments, values);
  }

  lemma SearchOf(path: string, search: string)
    requires UpToQuery(path + search) == path && (search == "" || search[0] == '?')
    ensures '#' in Search(path + search) <==> '#' in search
  {
    var target := path + search;
    if search != "" {
      assert target[|path| + 1..] == search[1..];
      assert search == [search[0]] + search[1..];
    }
  }

  lemma NotEmpty(verb: Method, segments: seq<Segment>, values: seq<string>)
    requires Lists(OPERATIONS, verb, segments) && |values| == |Names(segments)|
    ensures Path(Filled(segments, EncodedAll(values))) != ""
  {
    assert segments != [];
  }

  lemma {:induction false} NoQueryInPath(segments: seq<Segment>, values: seq<string>)
    requires |values| == |Names(segments)| && LiteralsAreWords(segments)
    ensures '?' !in Path(Filled(segments, EncodedAll(values)))
    decreases |segments|
  {
    if segments != [] {
      if segments[0].Literal? {
        NoQueryInPath(segments[1..], values);
        PathCons(segments[0].text, Filled(segments[1..], EncodedAll(values)));
      } else {
        EncodeIsTame(values[0]);
        NoQueryInPath(segments[1..], values[1..]);
        assert EncodedAll(values)[1..] == EncodedAll(values[1..]);
        PathCons(Encode(values[0]), Filled(segments[1..], EncodedAll(values[1..])));
      }
    }
  }

  // ----- the round trip

  ghost predicate DecodesTo(caps: seq<string>, values: seq<string>) {
    |caps| == |values| && forall i :: 0 <= i < |values| ==> Decode(caps[i]) == Some(values[i])
  }

  lemma EncodedValues(values: seq<string>)
    requires AllUsable(values)
    ensures DecodesTo(EncodedAll(values), values)
    ensures forall i :: 0 <= i < |values| ==> Capture(EncodedAll(values)[i])
  {
    forall i | 0 <= i < |values| ensures Capture(Encode(values[i])) && Decode(Encode(values[i])) == Some(values[i]) {
      EncodedSegment(values[i]);
      DecodeEncode(values[i]);
    }
  }

  /** Whatever order the routes are in, the printed path reaches the operation it was printed for, under its method, and
      its captures decode to the values; no route of another operation matches it under any method. */
  lemma PrintedPathReachesItsOperation(routes: seq<Route>, op: Route, values: seq<string>)
    requires op in routes
    requires forall r :: r in routes ==> Lists(OPERATIONS, r.verb, r.segments)
    requires |values| == |Names(op.segments)| && AllUsable(values)
    ensures var path := Path(Filled(op.segments, EncodedAll(values)));
      && Exec(op.segments, path) == Some(EncodedAll(values))
      && DecodesTo(EncodedAll(values), values)
      && forall r :: r in routes && Exec(r.segments, path).Some? ==> r.segments == op.segments
  {
    var path := Path(Filled(op.segments, EncodedAll(values)));
    OperationsClear();
    EncodedValues(values);
    ExecComplete(op.segments, path, EncodedAll(values));
    forall r | r in routes && Exec(r.segments, path).Some? ensures r.segments == op.segments {
      OnePathOneOperation(OPERATIONS, r.verb, r.segments, op.verb, op.segments, path);
    }
  }

  /** Client and server together, as they run: print, route, decode. */
  method Deliver(routes: seq<Route>, op: Route, values: seq<string>) returns (m: RouteMatch)
    requires op in routes
    requires forall r :: r in routes ==> Lists(OPERATIONS, r.verb, r.segments)
    requires |values| == |Names(op.segments)| && AllUsable(values)
    ensures m.Match? && m.index < |routes| && routes[m.index] == op && DecodesTo(m.caps, values)
  {
    OperationsClear();
    ListedIsPrintable(OPERATIONS, op.verb, op.segments);
    PrintedPathReachesItsOperation(routes, op, values);
    var printed := PrintPath(op.segments, values);
    m := MatchRoute(routes, op.verb, printed.path);
  }
}
