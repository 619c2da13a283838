/** What each issue of a refused value means (`packages/server/src/schema.ts`): which part of the value it names and
    what is wrong with it there. */
module IssueMeaning {
  import opened Wrappers
  import opened Moments
  import opened Schemas

  /** A value of another kind than the schema asks for, or none at all. */
  predicate Mistyped(v: Value, path: string, issue: Issue) {
    issue == Issue(path, if v.Undefined? then Required else WrongType)
  }

  predicate TextFault(min: Option<nat>, max: nat, pattern: Option<Pattern>, s: string, code: Code) {
    var short := min.Some? && Length(s) < min.value;
    match code
    case TooLong => Length(s) > max
    case TooShort => Length(s) <= max && short
    case PatternMismatch =>
      Length(s) <= max && !short && (HasControl(s) || (pattern.Some? && !pattern.value.test(s)))
    case _ => false
  }

  predicate NumberFault(low: int, high: int, n: Number, code: Code) {
    match code
    case WrongType => !IsInteger(n)
    case OutOfRange => IsInteger(n) && !(low as real <= n.value <= high as real)
    case _ => false
  }

  predicate CountFault(least: Option<nat>, most: nat, n: nat, code: Code) {
    match code
    case TooMany => n > most
    case TooShort => n <= most && least.Some? && n < least.value
    case _ => false
  }

  /** The issue tells of a fault of this value, or of a part of it. */
  ghost predicate Fault(s: Schema, v: Value, path: string, issue: Issue)
    decreases s, 0
  {
    match s
    case OptionalOf(inner) => !v.Undefined? && Fault(inner, v, path, issue)
    case NullableOf(inner) => !v.Null? && Fault(inner, v, path, issue)
    case StringOf(min, max, pattern) =>
      if v.Str? then issue.path == path && TextFault(min, max, pattern, v.s, issue.code) else Mistyped(v, path, issue)
    case IntOf(low, high) =>
      if v.Num? then issue.path == path && NumberFault(low, high, v.n, issue.code) else Mistyped(v, path, issue)
    case BoolOf => !v.Bool? && Mistyped(v, path, issue)
    case DateOf =>
      if v.Str? then issue == Issue(path, BadDate) && !(Length(v.s) <= 40 && IsRealMoment(v.s))
      else Mistyped(v, path, issue)
    case EnumOf(values) =>
      if v.Str? then issue == Issue(path, NotInEnum) && v.s !in values else Mistyped(v, path, issue)
    case ArrayOf(item, least, most) =>
      if !v.Arr? then Mistyped(v, path, issue)
      else if |v.items| > most || (least.Some? && |v.items| < least.value)
      then issue.path == path && CountFault(least, most, |v.items|, issue.code)
      else exists i :: 0 <= i < |v.items| && Fault(item, v.items[i], Indexed(path, i), issue)
    case ObjectOf(shape) =>
      if !v.Obj? then Mistyped(v, path, issue)
      else
        || (issue.code == UnknownField && exists k :: k in KeysOf(v.fields) && UnknownAt(shape, k, path, issue.path))
        || exists i :: 0 <= i < |shape| && PropFault(shape[i], v.fields, path, issue)
    case RecordOf(value, maxKeys, keyPattern) =>
      if !v.Obj? then Mistyped(v, path, issue)
      else if |v.fields| > maxKeys then issue == Issue(path, TooMany)
      else exists i :: 0 <= i < |v.fields| && EntryFault(value, keyPattern, v.fields[i], path, issue)
    case JsonOf(limits) => issue in JsonIssues(limits, v, 0, 0, path).issues
  }

  ghost predicate PropFault(p: Prop, fields: seq<Field>, path: string, issue: Issue)
    decreases p, 1
  {
    Fault(p.schema, Lookup(fields, p.key), Joined(path, p.key), issue)
  }

  ghost predicate EntryFault(value: Schema, keyPattern: Pattern, f: Field, path: string, issue: Issue)
    decreases value, 1
  {
    if IllegalKey(keyPattern, f.key) then issue == Issue(Joined(path, "<key>"), InvalidKey)
    else Fault(value, f.value, Joined(path, f.key), issue)
  }

  predicate UnknownAt(shape: seq<Prop>, k: string, path: string, at: string) {
    k !in PropKeys(shape) && at == Joined(path, k)
  }

  predicate IllegalKey(keyPattern: Pattern, k: string) { k in FORBIDDEN_KEYS || !keyPattern.test(k) }

  lemma LeafIssues(s: Schema, v: Value, path: string, issue: Issue)
    requires s.StringOf? || s.IntOf? || s.BoolOf? || s.DateOf? || s.EnumOf?
    ensures issue in Issues(s, v, path) <==> Fault(s, v, path, issue)
  {
  }

  /** Every issue tells of a fault, and every fault is told. */
  lemma {:induction false} IssuesExact(s: Schema, v: Value, path: string, issue: Issue)
    ensures issue in Issues(s, v, path) <==> Fault(s, v, path, issue)
    decreases s, 1, 0
  {
    if s.OptionalOf? {
      if !v.Undefined? { IssuesExact(s.inner, v, path, issue); }
    } else if s.NullableOf? {
      if !v.Null? { IssuesExact(s.inner, v, path, issue); }
    } else if s.ArrayOf? {
      if v.Arr? { ItemFaults(s.item, v.items, 0, path, issue); }
    } else if s.ObjectOf? {
      if v.Obj? {
        UnknownFaults(s.shape, v.fields, path, issue);
        ShapeFaults(s.shape, v.fields, path, issue);
      }
    } else if s.RecordOf? {
      if v.Obj? { EntryFaults(s.value, s.keyPattern, v.fields, path, issue); }
    } else if !s.JsonOf? {
      LeafIssues(s, v, path, issue);
    }
  }

  lemma {:induction false} ItemFaults(item: Schema, items: seq<Value>, index: nat, path: string, issue: Issue)
    ensures issue in ItemIssues(item, items, index, path)
      <==> exists i :: 0 <= i < |items| && Fault(item, items[i], Indexed(path, index + i), issue)
    decreases item, 2, |items|
  {
    if items != [] {
      IssuesExact(item, items[0], Indexed(path, index), issue);
      ItemFaults(item, items[1..], index + 1, path, issue);
      assert items == [items[0]] + items[1..];
    }
  }

  lemma {:induction false} UnknownFaults(shape: seq<Prop>, fields: seq<Field>, path: string, issue: Issue)
    ensures issue in UnknownIssues(shape, fields, path)
      <==> issue.code == UnknownField && exists k :: k in KeysOf(fields) && UnknownAt(shape, k, path, issue.path)
  {
    if fields != [] {
      UnknownFaults(shape, fields[1..], path, issue);
      assert KeysOf(fields) == [fields[0].key] + KeysOf(fields[1..]);
      assert fields[0].key in KeysOf(fields);
      assert forall k :: k in KeysOf(fields) <==> k == fields[0].key || k in KeysOf(fields[1..]);
    }
  }

  lemma {:induction false} ShapeFaults(shape: seq<Prop>, fields: seq<Field>, path: string, issue: Issue)
    ensures issue in ShapeIssues(shape, fields, path)
      <==> exists i :: 0 <= i < |shape| && PropFault(shape[i], fields, path, issue)
    decreases shape, 0, 0
  {
    if shape != [] {
      IssuesExact(shape[0].schema, Lookup(fields, shape[0].key), Joined(path, shape[0].key), issue);
      ShapeFaults(shape[1..], fields, path, issue);
      assert shape == [shape[0]] + shape[1..];
    }
  }

  lemma {:induction false} EntryFaults(value: Schema, keyPattern: Pattern, fields: seq<Field>, path: string,
                                       issue: Issue)
    ensures issue in EntryIssues(value, keyPattern, fields, path)
      <==> exists i :: 0 <= i < |fields| && EntryFault(value, keyPattern, fields[i], path, issue)
    decreases value, 2, |fields|
  {
    if fields != [] {
      IssuesExact(value, fields[0].value, Joined(path, fields[0].key), issue);
      EntryFaults(value, keyPattern, fields[1..], path, issue);
      assert fields == [fields[0]] + fields[1..];
    }
  }

  // ----- free-form values

  /** What an issue of a free-form value at this depth can tell: a fault of its own, or of a part. */
  ghost predicate JsonFault(l: JsonLimits, v: Value, depth: nat, path: string, issue: Issue)
    decreases v, 0
  {
    || (issue.path == path && OwnFault(l, v, depth, issue.code))
    || (v.Arr? && exists i :: 0 <= i < |v.items| && JsonFault(l, v.items[i], depth + 1, Indexed(path, i), issue))
    || (v.Obj? && exists i :: 0 <= i < |v.fields| && JsonEntryFault(l, v.fields[i], depth + 1, path, issue))
  }

  ghost predicate JsonEntryFault(l: JsonLimits, f: Field, depth: nat, path: string, issue: Issue)
    decreases f, 1
  {
    if LegalJsonKey(f.key) then JsonFault(l, f.value, depth, Joined(path, f.key), issue)
    else issue == Issue(Joined(path, "<key>"), InvalidKey)
  }

  /** That there are too many values is told of the first one over the limit, whatever it is. */
  predicate OwnFault(l: JsonLimits, v: Value, depth: nat, code: Code) {
    match code
    case TooLarge => true
    case TooDeep => depth > l.maxDepth
    case WrongType => v.Undefined? || v.Date? || v.InvalidDate? || (v.Num? && !v.n.Finite?)
    case TooLong => v.Str? && Length(v.s) > l.maxString
    case TooMany => v.Arr? && |v.items| > l.maxNodes
    case _ => false
  }

  /** Every issue of a free-form value tells of a fault, and that it has too many values only when it has. */
  lemma {:induction false} JsonIssuesTell(l: JsonLimits, v: Value, depth: nat, nodes: nat, path: string, issue: Issue)
    ensures JsonIssues(l, v, depth, nodes, path).nodes <= nodes + Nodes(v)
    ensures issue in JsonIssues(l, v, depth, nodes, path).issues ==>
      JsonFault(l, v, depth, path, issue) && (issue.code == TooLarge ==> nodes + Nodes(v) > l.maxNodes)
    decreases v, 1
  {
    if nodes + 1 <= l.maxNodes && depth <= l.maxDepth {
      if v.Arr? && |v.items| <= l.maxNodes {
        JsonItemsTell(l, v.items, 0, depth + 1, nodes + 1, path, issue);
      } else if v.Obj? {
        JsonFieldsTell(l, v.fields, depth + 1, nodes + 1, path, issue);
      }
    }
  }

  lemma {:induction false} JsonItemsTell(l: JsonLimits, items: seq<Value>, index: nat, depth: nat, nodes: nat,
                                         path: string, issue: Issue)
    ensures JsonItemIssues(l, items, index, depth, nodes, path).nodes <= nodes + NodesOfItems(items)
    ensures issue in JsonItemIssues(l, items, index, depth, nodes, path).issues ==>
      (exists i :: 0 <= i < |items| && JsonFault(l, items[i], depth, Indexed(path, index + i), issue))
      && (issue.code == TooLarge ==> nodes + NodesOfItems(items) > l.maxNodes)
    decreases items, 0
  {
    if items != [] {
      var first := JsonIssues(l, items[0], depth, nodes, Indexed(path, index));
      JsonIssuesTell(l, items[0], depth, nodes, Indexed(path, index), issue);
      JsonItemsTell(l, items[1..], index + 1, depth, first.nodes, path, issue);
      assert items == [items[0]] + items[1..];
    }
  }

  lemma {:induction false} JsonFieldsTell(l: JsonLimits, fields: seq<Field>, depth: nat, nodes: nat, path: string,
                                          issue: Issue)
    ensures JsonFieldIssues(l, fields, depth, nodes, path).nodes <= nodes + NodesOfFields(fields)
    ensures issue in JsonFieldIssues(l, fields, depth, nodes, path).issues ==>
      (exists i :: 0 <= i < |fields| && JsonEntryFault(l, fields[i], depth, path, issue))
      && (issue.code == TooLarge ==> nodes + NodesOfFields(fields) > l.maxNodes)
    decreases fields, 0
  {
    if fields != [] {
      assert fields == [fields[0]] + fields[1..];
      if LegalJsonKey(fields[0].key) {
        var first := JsonIssues(l, fields[0].value, depth, nodes, Joined(path, fields[0].key));
        JsonIssuesTell(l, fields[0].value, depth, nodes, Joined(path, fields[0].key), issue);
        JsonFieldsTell(l, fields[1..], depth, first.nodes, path, issue);
      } else {
        JsonFieldsTell(l, fields[1..], depth, nodes, path, issue);
      }
    }
  }

  // ----- how a part is named

  /** Names follow a dot, positions stand in brackets. */
  lemma PathOfPart()
    ensures Joined(Indexed(Joined("", "roles"), 12), "name") == "roles[12].name"
  {
    assert Digits(1) == "1";
    assert Digits(12) == "12";
  }
}
