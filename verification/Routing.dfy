/** How the client prints the path of an operation (`packages/client/src/client.ts`) and how the server reads it back
    (`packages/server/src/route.ts`, `packages/server/src/server.ts`). */
module Routing {
  import opened Wrappers
  import opened PercentEncoding
  import opened Sequences

  datatype Method = GET | POST | PUT | PATCH | DELETE

  datatype Segment = Literal(text: string) | Param(name: string)

  datatype Route = Route(verb: Method, segments: seq<Segment>)

  function Text(s: Segment): string {
    match s
    case Literal(text) => text
    case Param(name) => ":" + name
  }

  /** A path is its segments, each after a slash. */
  function Path(parts: seq<string>): string {
    if parts == [] then "" else "/" + parts[0] + Path(parts[1..])
  }

  function Texts(segments: seq<Segment>): seq<string> {
    if segments == [] then [] else [Text(segments[0])] + Texts(segments[1..])
  }

  /** The template as it is written: `/v1/organizations/:organizationId`. */
  function Template(segments: seq<Segment>): string { Path(Texts(segments)) }

  function Names(segments: seq<Segment>): seq<string> {
    if segments == [] then []
    else (if segments[0].Param? then [segments[0].name] else []) + Names(segments[1..])
  }

  /** The segments of a path in which the parameters have values. */
  function Filled(segments: seq<Segment>, caps: seq<string>): seq<string>
    requires |caps| == |Names(segments)|
  {
    if segments == [] then []
    else match segments[0]
      case Literal(text) => [text] + Filled(segments[1..], caps)
      case Param(_) => [caps[0]] + Filled(segments[1..], caps[1..])
  }

  // ----- the server: patterns

  /** What `[^/]+` matches. */
  predicate Capture(s: string) { s != "" && '/' !in s }

  /** The meaning of a route's regular expression: literals as they are, a nonempty slash-free text for each
      parameter. */
  ghost predicate Matches(segments: seq<Segment>, path: string, caps: seq<string>) {
    && |caps| == |Names(segments)|
    && (forall i :: 0 <= i < |caps| ==> Capture(caps[i]))
    && path == Path(Filled(segments, caps))
  }

  function UpToSlash(s: string): string {
    if s == "" || s[0] == '/' then "" else [s[0]] + UpToSlash(s[1..])
  }

  /** `pattern.exec`: the captures, or no match. */
  function Exec(segments: seq<Segment>, path: string): Option<seq<string>>
    decreases |segments|
  {
    if segments == [] then if path == "" then Some([]) else None
    else if path == "" || path[0] != '/' then None
    else match segments[0]
      case Literal(text) => if text <= path[1..] then Exec(segments[1..], path[1..][|text|..]) else None
      case Param(_) =>
        var cap := UpToSlash(path[1..]);
        if cap == "" then None
        else if |cap| > |path[1..]| then None
        else match Exec(segments[1..], path[1..][|cap|..])
          case None => None
          case Some(caps) => Some([cap] + caps)
  }

  lemma {:induction false} UpToSlashPrefix(s: string)
    ensures UpToSlash(s) <= s && '/' !in UpToSlash(s)
    ensures UpToSlash(s) == s || s[|UpToSlash(s)|] == '/'
  {
    if s != "" && s[0] != '/' {
      UpToSlashPrefix(s[1..]);
      assert s == [s[0]] + s[1..];
    }
  }

  lemma {:induction false} UpToSlashOf(cap: string, rest: string)
    requires '/' !in cap && (rest == "" || rest[0] == '/')
    ensures UpToSlash(cap + rest) == cap
  {
    if cap == "" {
      assert cap + rest == rest;
    } else {
      assert (cap + rest)[1..] == cap[1..] + rest;
      UpToSlashOf(cap[1..], rest);
    }
  }

  lemma PathStart(parts: seq<string>)
    ensures Path(parts) == "" || Path(parts)[0] == '/'
    ensures Path(parts) == "" <==> parts == []
  {
  }

  lemma PathCons(head: string, parts: seq<string>)
    ensures Path([head] + parts) == "/" + head + Path(parts)
  {
    assert ([head] + parts)[1..] == parts;
  }

  /** One literal of a pattern against the path. */
  lemma ExecLiteral(segments: seq<Segment>, path: string, tail: string)
    requires segments != [] && segments[0].Literal? && path == "/" + segments[0].text + tail
    ensures Exec(segments, path) == Exec(segments[1..], tail)
  {
    assert path[1..] == segments[0].text + tail;
  }

  /** One parameter of a pattern against the path. */
  lemma ExecParam(segments: seq<Segment>, path: string, cap: string, tail: string)
    requires segments != [] && segments[0].Param? && path == "/" + cap + tail
    requires Capture(cap) && (tail == "" || tail[0] == '/')
    ensures Exec(segments, path)
      == match Exec(segments[1..], tail) case None => None case Some(caps) => Some([cap] + caps)
  {
    assert path[1..] == cap + tail;
    UpToSlashOf(cap, tail);
    assert path[1..][|cap|..] == tail;
  }

  /** Every match is found, with the captures that make it one. */
  lemma {:induction false} ExecComplete(segments: seq<Segment>, path: string, caps: seq<string>)
    requires Matches(segments, path, caps)
    ensures Exec(segments, path) == Some(caps)
    decreases |segments|
  {
    if segments != [] {
      var rest := segments[1..];
      if segments[0].Literal? {
        var parts := Filled(rest, caps);
        PathCons(segments[0].text, parts);
        ExecLiteral(segments, path, Path(parts));
        ExecComplete(rest, Path(parts), caps);
      } else {
        var parts := Filled(rest, caps[1..]);
        PathCons(caps[0], parts);
        PathStart(parts);
        ExecParam(segments, path, caps[0], Path(parts));
        ExecComplete(rest, Path(parts), caps[1..]);
        assert [caps[0]] + caps[1..] == caps;
      }
    }
  }

  /** The first step of a successful `exec`. */
  lemma ExecFirst(segments: seq<Segment>, path: string) returns (head: string, tail: string)
    requires segments != [] && Exec(segments, path).Some?
    ensures path == "/" + head + tail && Exec(segments[1..], tail).Some?
    ensures segments[0].Literal? ==> head == segments[0].text && Exec(segments, path) == Exec(segments[1..], tail)
    ensures segments[0].Param? ==>
      && Capture(head) && (tail == "" || tail[0] == '/')
      && Exec(segments, path) == Some([head] + Exec(segments[1..], tail).value)
  {
    head := if segments[0].Literal? then segments[0].text else UpToSlash(path[1..]);
    if segments[0].Param? { UpToSlashPrefix(path[1..]); }
    tail := path[1..][|head|..];
    assert head == path[1..][..|head|];
    Pieces(path, |head|);
  }

  /** What is found is a match. */
  lemma {:induction false} ExecSound(segments: seq<Segment>, path: string)
    requires Exec(segments, path).Some?
    ensures Matches(segments, path, Exec(segments, path).value)
    decreases |segments|
  {
    if segments != [] {
      var head, tail := ExecFirst(segments, path);
      ExecSound(segments[1..], tail);
      MatchesCons(segments, head, tail, Exec(segments[1..], tail).value);
    }
  }

  lemma MatchesCons(segments: seq<Segment>, head: string, tail: string, caps: seq<string>)
    requires segments != [] && Matches(segments[1..], tail, caps)
    ensures segments[0].Literal? && head == segments[0].text ==> Matches(segments, "/" + head + tail, caps)
    ensures segments[0].Param? && Capture(head) ==> Matches(segments, "/" + head + tail, [head] + caps)
  {
    PathCons(head, Filled(segments[1..], caps));
    assert ([head] + caps)[1..] == caps;
  }

  // ----- the server: choosing a route

  datatype RouteMatch =
    | Match(index: nat, caps: seq<string>)
    | OtherMethods(allow: seq<Method>)
    | NoMatch

  /** The methods of the first `n` routes whose pattern matches. */
  function AllowedBy(routes: seq<Route>, n: nat, path: string): seq<Method>
    requires n <= |routes|
  {
    if n == 0 then []
    else AllowedBy(routes, n - 1, path)
         + (if Exec(routes[n - 1].segments, path).Some? then [routes[n - 1].verb] else [])
  }

  /** None of the first `n` routes answers this method on this path. */
  ghost predicate NoneOf(routes: seq<Route>, n: nat, verb: Method, path: string)
    requires n <= |routes|
  {
    forall i :: 0 <= i < n && routes[i].verb == verb ==> Exec(routes[i].segments, path).None?
  }

  /** The first route that matches both; failing that, the methods under which the path exists. */
  method MatchRoute(routes: seq<Route>, verb: Method, path: string) returns (m: RouteMatch)
    ensures m.Match? ==>
      && m.index < |routes| && routes[m.index].verb == verb && Exec(routes[m.index].segments, path) == Some(m.caps)
      && NoneOf(routes, m.index, verb, path)
    ensures !m.Match? ==> NoneOf(routes, |routes|, verb, path)
    ensures m.OtherMethods? ==> m.allow != [] && m.allow == AllowedBy(routes, |routes|, path)
    ensures m.NoMatch? ==> AllowedBy(routes, |routes|, path) == []
  {
    var allow: seq<Method> := [];
    for i := 0 to |routes|
      invariant allow == AllowedBy(routes, i, path)
      invariant NoneOf(routes, i, verb, path)
    {
      var found := Exec(routes[i].segments, path);
      if found.Some? && routes[i].verb == verb {
        return Match(i, found.value);
      }
      if found.Some? {
        allow := allow + [routes[i].verb];
      }
    }
    if allow == [] {
      return NoMatch;
    }
    return OtherMethods(allow);
  }

  // ----- the client: printing

  /** JavaScript's `replace` of a text: its first occurrence. The replacement carries no `$`, which would be special. */
  function ReplaceFirst(s: string, pattern: string, fill: string): string
    requires pattern != "" && '$' !in fill
  {
    if pattern <= s then fill + s[|pattern|..]
    else if s == "" then ""
    else [s[0]] + ReplaceFirst(s[1..], pattern, fill)
  }

  /** The template after its first parameter was replaced. */
  function FillFirst(segments: seq<Segment>, fill: string): seq<Segment> {
    if segments == [] then []
    else if segments[0].Param? then [Literal(fill)] + segments[1..]
    else [segments[0]] + FillFirst(segments[1..], fill)
  }

  function FillAll(segments: seq<Segment>, fills: seq<string>): seq<Segment>
    decreases |fills|
  {
    if fills == [] then segments else FillAll(FillFirst(segments, fills[0]), fills[1..])
  }

  /** Colons start parameters, except in the last segment: so it is in every template of the operation table. */
  ghost predicate Printable(segments: seq<Segment>) {
    forall i :: 0 <= i < |segments| - 1 && segments[i].Literal? ==> ':' !in segments[i].text
  }

  lemma {:induction false} ReplaceSkips(a: string, b: string, name: string, fill: string)
    requires ':' !in a && '$' !in fill
    ensures ReplaceFirst(a + b, ":" + name, fill) == a + ReplaceFirst(b, ":" + name, fill)
  {
    if a == "" {
      assert a + b == b;
    } else {
      assert (a + b)[1..] == a[1..] + b;
      assert (":" + name)[0] == ':';
      ReplaceSkips(a[1..], b, name, fill);
    }
  }

  lemma TemplateCons(s: Segment, rest: seq<Segment>)
    ensures Template([s] + rest) == "/" + Text(s) + Template(rest)
  {
    assert ([s] + rest)[1..] == rest;
    PathCons(Text(s), Texts(rest));
  }

  /** Replacing `:name` in the text of a template replaces its first parameter, when that is the one named. */
  lemma {:induction false} ReplaceFillsFirst(segments: seq<Segment>, fill: string)
    requires Names(segments) != [] && '$' !in fill
    requires Printable(segments)
    ensures ReplaceFirst(Template(segments), ":" + Names(segments)[0], fill) == Template(FillFirst(segments, fill))
  {
    var name, rest := Names(segments)[0], segments[1..];
    assert segments == [segments[0]] + rest;
    TemplateCons(segments[0], rest);
    if segments[0].Literal? {
      var text := segments[0].text;
      ReplaceSkips("/" + text, Template(rest), name, fill);
      ReplaceFillsFirst(rest, fill);
      TemplateCons(segments[0], FillFirst(rest, fill));
    } else {
      ReplaceAtParam(name, Template(rest), fill);
      TemplateCons(Literal(fill), rest);
    }
  }

  lemma ReplaceAtParam(name: string, tail: string, fill: string)
    requires '$' !in fill
    ensures ReplaceFirst("/" + (":" + name) + tail, ":" + name, fill) == "/" + fill + tail
  {
    var s := (":" + name) + tail;
    assert "/" + (":" + name) + tail == "/" + s;
    ReplaceSkips("/", s, name, fill);
    assert s[|":" + name|..] == tail;
  }

  lemma {:induction false} FillFirstNames(segments: seq<Segment>, fill: string)
    requires Names(segments) != []
    ensures Names(FillFirst(segments, fill)) == Names(segments)[1..]
    ensures |FillFirst(segments, fill)| == |segments|
  {
    var rest := segments[1..];
    if segments[0].Param? {
      assert ([Literal(fill)] + rest)[1..] == rest;
    } else {
      FillFirstNames(rest, fill);
      assert FillFirst(segments, fill)[1..] == FillFirst(rest, fill);
    }
  }

  lemma {:induction false} FillFirstFilled(segments: seq<Segment>, fills: seq<string>)
    requires |fills| == |Names(segments)| && fills != []
    ensures |fills[1..]| == |Names(FillFirst(segments, fills[0]))|
    ensures Filled(FillFirst(segments, fills[0]), fills[1..]) == Filled(segments, fills)
  {
    var rest := segments[1..];
    FillFirstNames(segments, fills[0]);
    if segments[0].Param? {
      assert ([Literal(fills[0])] + rest)[1..] == rest;
    } else {
      FillFirstFilled(rest, fills);
      assert FillFirst(segments, fills[0])[1..] == FillFirst(rest, fills[0]);
    }
  }

  lemma {:induction false} FillFirstPrintable(segments: seq<Segment>, fill: string)
    requires Printable(segments) && ':' !in fill
    ensures Printable(FillFirst(segments, fill)) && |FillFirst(segments, fill)| == |segments|
  {
    if segments != [] && segments[0].Literal? {
      FillFirstPrintable(segments[1..], fill);
      var filled := FillFirst(segments[1..], fill);
      assert forall i :: 0 < i < |filled| + 1 ==> ([segments[0]] + filled)[i] == filled[i - 1];
    }
  }

  lemma {:induction false} FilledTexts(segments: seq<Segment>)
    requires Names(segments) == []
    ensures Filled(segments, []) == Texts(segments)
  {
    if segments != [] { FilledTexts(segments[1..]); }
  }

  datatype Printed = Printed(path: string) | BadInput(name: string)

  /** A value that may stand in a path: the URL machinery would fold `.` and `..` away. */
  predicate Usable(value: string) { value != "" && value != "." && value != ".." }

  /** The loop of `call` that puts the values into the template; a missing value is an empty one here. */
  method PrintPath(segments: seq<Segment>, values: seq<string>) returns (p: Printed)
    requires Printable(segments) && |values| == |Names(segments)|
    ensures p.Printed? <==> forall i :: 0 <= i < |values| ==> Usable(values[i])
    ensures p.Printed? ==> p.path == Path(Filled(segments, EncodedAll(values)))
  {
    var names := Names(segments);
    var path := Template(segments);
    ghost var filled := segments;
    for i := 0 to |names|
      invariant path == Template(filled) && Names(filled) == names[i..]
      invariant Printable(filled)
      invariant forall j :: 0 <= j < i ==> Usable(values[j])
      invariant |EncodedAll(values[i..])| == |Names(filled)|
      invariant |EncodedAll(values)| == |names|
      invariant Filled(filled, EncodedAll(values[i..])) == Filled(segments, EncodedAll(values))
    {
      if !Usable(values[i]) {
        return BadInput(names[i]);
      }
      EncodeIsTame(values[i]);
      ReplaceFillsFirst(filled, Encode(values[i]));
      path := ReplaceFirst(path, ":" + names[i], Encode(values[i]));
      FillFirstFilled(filled, EncodedAll(values[i..]));
      FillFirstNames(filled, Encode(values[i]));
      FillFirstPrintable(filled, Encode(values[i]));
      filled := FillFirst(filled, Encode(values[i]));
      assert values[i..][1..] == values[i + 1..];
    }
    FilledTexts(filled);
    return Printed(path);
  }

  function EncodedAll(values: seq<string>): (r: seq<string>)
    ensures |r| == |values|
    ensures forall i :: 0 <= i < |values| ==> r[i] == Encode(values[i])
  {
    if values == [] then [] else [Encode(values[0])] + EncodedAll(values[1..])
  }
}
