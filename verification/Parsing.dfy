/** `parseInput` as it runs (`packages/server/src/schema.ts`): a recursive descent that pushes into one collector, and a
    node budget that one free-form value shares. Each method is proved against its function in `Schemas`. */
module Parsing {
  import opened Wrappers
  import opened Moments
  import opened Schemas

  const MAX_ISSUES: nat := 20

  /** What the collector keeps of a list of issues. */
  function Kept(issues: seq<Issue>): seq<Issue> {
    if |issues| <= MAX_ISSUES then issues else issues[..MAX_ISSUES]
  }

  lemma KeptTwice(a: seq<Issue>, b: seq<Issue>)
    ensures Kept(Kept(a) + b) == Kept(a + b)
  {
    if |a| > MAX_ISSUES {
      assert (Kept(a) + b)[..MAX_ISSUES] == (a + b)[..MAX_ISSUES];
    }
  }

  /** Collecting the first part of what is left, then the rest, is collecting what is left. */
  lemma KeptStep(kept: seq<Issue>, first: seq<Issue>, rest: seq<Issue>)
    ensures Kept(Kept(kept + first) + rest) == Kept(kept + (first + rest))
  {
    KeptTwice(kept + first, rest);
    assert kept + first + rest == kept + (first + rest);
  }

  class Collector {
    var issues: seq<Issue>

    constructor ()
      ensures issues == []
    {
      issues := [];
    }

    method Add(path: string, code: Code)
      requires |issues| <= MAX_ISSUES
      modifies this
      ensures issues == Kept(old(issues) + [Issue(path, code)])
    {
      if |issues| < MAX_ISSUES {
        issues := issues + [Issue(path, code)];
      }
    }
  }

  /** The counter of nodes that the parts of one free-form value share. */
  class Budget {
    var nodes: nat

    constructor ()
      ensures nodes == 0
    {
      nodes := 0;
    }
  }

  /** The value is of the wrong type, or missing. */
  method Mistyped(value: Value, path: string, out: Collector)
    requires |out.issues| <= MAX_ISSUES
    modifies out
    ensures out.issues == Kept(old(out.issues) + TypeIssue(value, path))
  {
    out.Add(path, if value.Undefined? then Required else WrongType);
  }

  // ----- free-form values

  method ParseJson(l: JsonLimits, value: Value, depth: nat, budget: Budget, path: string, out: Collector)
    returns (parsed: Value)
    requires |out.issues| <= MAX_ISSUES
    modifies budget, out
    ensures var r := JsonIssues(l, value, depth, old(budget.nodes), path);
      && out.issues == Kept(old(out.issues) + r.issues) && budget.nodes == r.nodes
      && (r.issues == [] ==> parsed == value)
    decreases value, 1
  {
    budget.nodes := budget.nodes + 1;
    if budget.nodes > l.maxNodes {
      out.Add(path, TooLarge);
      return Undefined;
    }
    if depth > l.maxDepth {
      out.Add(path, TooDeep);
      return Undefined;
    }
    match value {
      case Null => return value;
      case Bool(_) => return value;
      case Num(n) =>
        if n.Finite? { return value; }
        out.Add(path, WrongType);
        return Undefined;
      case Str(s) =>
        if Length(s) <= l.maxString { return value; }
        out.Add(path, TooLong);
        return Undefined;
      case Arr(items) =>
        if |items| > l.maxNodes {
          out.Add(path, TooMany);
          return Undefined;
        }
        parsed := ParseJsonItems(l, items, depth + 1, budget, path, out);
      case Obj(fields) =>
        parsed := ParseJsonFields(l, fields, depth + 1, budget, path, out);
      case _ =>
        out.Add(path, WrongType);
        return Undefined;
    }
  }

  /** What a loop still has to find (`here`) completes what it had to find (`all`) when it began with `before`. */
  ghost predicate Completes(kept: seq<Issue>, here: seq<Issue>, before: seq<Issue>, all: seq<Issue>) {
    |kept| <= MAX_ISSUES && Kept(kept + here) == Kept(before + all) && (all == [] ==> here == [])
  }

  lemma CompletesStep(kept: seq<Issue>, first: seq<Issue>, rest: seq<Issue>, before: seq<Issue>, all: seq<Issue>)
    requires Completes(kept, first + rest, before, all)
    ensures Completes(Kept(kept + first), rest, before, all)
    ensures all == [] ==> first == []
  {
    KeptStep(kept, first, rest);
    assert first + rest == [] ==> |first| == 0 && |rest| == 0;
  }

  /** The same for the results: `done` and what is left make up the whole. */
  ghost predicate Makes<T>(done: seq<T>, left: seq<T>, all: seq<T>) {
    |done| + |left| == |all| && all[..|done|] == done && all[|done|..] == left
  }

  lemma ResultsStart<T>(all: seq<T>)
    ensures Makes([], all, all)
  {
  }

  lemma ResultsStep<T>(done: seq<T>, one: seq<T>, left: seq<T>, all: seq<T>)
    requires Makes(done, one + left, all)
    ensures Makes(done + one, left, all)
  {
    assert all == done + one + left;
  }

  lemma ResultsEnd<T>(done: seq<T>, all: seq<T>)
    requires Makes(done, [], all)
    ensures done == all
  {
    assert all == done + [];
  }

  lemma CompletesEnd(kept: seq<Issue>, before: seq<Issue>, all: seq<Issue>)
    requires Completes(kept, [], before, all)
    ensures kept == Kept(before + all)
  {
    assert kept + [] == kept;
  }

  lemma JsonItemsStep(l: JsonLimits, items: seq<Value>, i: nat, depth: nat, nodes: nat, path: string)
    requires i < |items|
    ensures var first := JsonIssues(l, items[i], depth, nodes, Indexed(path, i));
      var rest := JsonItemIssues(l, items[i + 1..], i + 1, depth, first.nodes, path);
      JsonItemIssues(l, items[i..], i, depth, nodes, path) == Spent(first.issues + rest.issues, rest.nodes)
  {
    assert items[i..][1..] == items[i + 1..];
  }

  method ParseJsonItems(l: JsonLimits, items: seq<Value>, depth: nat, budget: Budget, path: string, out: Collector)
    returns (parsed: Value)
    requires |out.issues| <= MAX_ISSUES
    modifies budget, out
    ensures var r := JsonItemIssues(l, items, 0, depth, old(budget.nodes), path);
      && out.issues == Kept(old(out.issues) + r.issues) && budget.nodes == r.nodes
      && (r.issues == [] ==> parsed == Arr(items))
    decreases items, 0
  {
    var result: seq<Value> := [];
    ghost var all := JsonItemIssues(l, items, 0, depth, budget.nodes, path);
    ghost var here := all;
    assert items[0..] == items;
    for i := 0 to |items|
      invariant here == JsonItemIssues(l, items[i..], i, depth, budget.nodes, path) && here.nodes == all.nodes
      invariant Completes(out.issues, here.issues, old(out.issues), all.issues)
      invariant all.issues == [] ==> result == items[..i]
    {
      JsonItemsStep(l, items, i, depth, budget.nodes, path);
      ghost var first := JsonIssues(l, items[i], depth, budget.nodes, Indexed(path, i));
      ghost var rest := JsonItemIssues(l, items[i + 1..], i + 1, depth, first.nodes, path);
      CompletesStep(out.issues, first.issues, rest.issues, old(out.issues), all.issues);
      var item := ParseJson(l, items[i], depth, budget, Indexed(path, i), out);
      result := result + [item];
      here := rest;
    }
    CompletesEnd(out.issues, old(out.issues), all.issues);
    parsed := Arr(result);
  }

  lemma JsonFieldsStep(l: JsonLimits, fields: seq<Field>, i: nat, depth: nat, nodes: nat, path: string)
    requires i < |fields|
    ensures var first := FieldIssues(l, fields[i], depth, nodes, path);
      var rest := JsonFieldIssues(l, fields[i + 1..], depth, first.nodes, path);
      JsonFieldIssues(l, fields[i..], depth, nodes, path) == Spent(first.issues + rest.issues, rest.nodes)
  {
    assert fields[i..][1..] == fields[i + 1..];
  }

  function FieldIssues(l: JsonLimits, f: Field, depth: nat, nodes: nat, path: string): Spent {
    if LegalJsonKey(f.key) then JsonIssues(l, f.value, depth, nodes, Joined(path, f.key))
    else Spent([Issue(Joined(path, "<key>"), InvalidKey)], nodes)
  }

  /** One key of a free-form object: an illegal one is reported and its value not looked at. */
  method ParseJsonField(l: JsonLimits, f: Field, depth: nat, budget: Budget, path: string, out: Collector)
    returns (parsed: Option<Field>)
    requires |out.issues| <= MAX_ISSUES
    modifies budget, out
    ensures var r := FieldIssues(l, f, depth, old(budget.nodes), path);
      && out.issues == Kept(old(out.issues) + r.issues) && budget.nodes == r.nodes
      && (r.issues == [] ==> parsed == Some(f))
    decreases f, 2
  {
    if !LegalJsonKey(f.key) {
      out.Add(Joined(path, "<key>"), InvalidKey);
      return None;
    }
    var item := ParseJson(l, f.value, depth, budget, Joined(path, f.key), out);
    return Some(Field(f.key, item));
  }

  method ParseJsonFields(l: JsonLimits, fields: seq<Field>, depth: nat, budget: Budget, path: string, out: Collector)
    returns (parsed: Value)
    requires |out.issues| <= MAX_ISSUES
    modifies budget, out
    ensures var r := JsonFieldIssues(l, fields, depth, old(budget.nodes), path);
      && out.issues == Kept(old(out.issues) + r.issues) && budget.nodes == r.nodes
      && (r.issues == [] ==> parsed == Obj(fields))
    decreases fields, 0
  {
    var result: seq<Field> := [];
    ghost var all := JsonFieldIssues(l, fields, depth, budget.nodes, path);
    ghost var here := all;
    assert fields[0..] == fields;
    ResultsStart(fields);
    for i := 0 to |fields|
      invariant here == JsonFieldIssues(l, fields[i..], depth, budget.nodes, path) && here.nodes == all.nodes
      invariant Completes(out.issues, here.issues, old(out.issues), all.issues)
      invariant all.issues == [] ==> Makes(result, fields[i..], fields)
    {
      JsonFieldsStep(l, fields, i, depth, budget.nodes, path);
      ghost var first := FieldIssues(l, fields[i], depth, budget.nodes, path);
      ghost var rest := JsonFieldIssues(l, fields[i + 1..], depth, first.nodes, path);
      CompletesStep(out.issues, first.issues, rest.issues, old(out.issues), all.issues);
      var one := ParseJsonField(l, fields[i], depth, budget, path, out);
      if all.issues == [] {
        assert fields[i..] == [fields[i]] + fields[i + 1..];
        ResultsStep(result, [fields[i]], fields[i + 1..], fields);
      }
      result := if one.Some? then result + [one.value] else result;
      here := rest;
    }
    CompletesEnd(out.issues, old(out.issues), all.issues);
    if all.issues == [] { ResultsEnd(result, fields); }
    parsed := Obj(result);
  }

  // ----- schemas

  method ParseText(min: Option<nat>, max: nat, pattern: Option<Pattern>, s: string, path: string, out: Collector)
    returns (parsed: Value)
    requires |out.issues| <= MAX_ISSUES
    modifies out
    ensures out.issues == Kept(old(out.issues) + TextIssues(min, max, pattern, s, path))
    ensures TextIssues(min, max, pattern, s, path) == [] ==> parsed == Str(s)
  {
    if Length(s) > max {
      out.Add(path, TooLong);
      return Undefined;
    }
    if min.Some? && Length(s) < min.value {
      out.Add(path, TooShort);
      return Undefined;
    }
    if HasControl(s) || (pattern.Some? && !pattern.value.test(s)) {
      out.Add(path, PatternMismatch);
      return Undefined;
    }
    assert Kept(out.issues + []) == out.issues;
    return Str(s);
  }

  method ParseInt(low: int, high: int, n: Number, path: string, out: Collector) returns (parsed: Value)
    requires |out.issues| <= MAX_ISSUES
    modifies out
    ensures out.issues == Kept(old(out.issues) + IntIssues(low, high, n, path))
    ensures IntIssues(low, high, n, path) == [] ==> parsed == Num(n)
  {
    if !IsInteger(n) {
      out.Add(path, WrongType);
      return Undefined;
    }
    if n.value < low as real || n.value > high as real {
      out.Add(path, OutOfRange);
      return Undefined;
    }
    assert Kept(out.issues + []) == out.issues;
    return Num(n);
  }

  /** The kinds of schema without parts. */
  method ParseLeaf(schema: Schema, value: Value, path: string, out: Collector) returns (parsed: Value)
    requires schema.StringOf? || schema.IntOf? || schema.BoolOf? || schema.DateOf? || schema.EnumOf?
    requires |out.issues| <= MAX_ISSUES
    modifies out
    ensures out.issues == Kept(old(out.issues) + Issues(schema, value, path))
    ensures Issues(schema, value, path) == [] ==> parsed == Parsed(schema, value)
  {
    assert Kept(out.issues + []) == out.issues;
    match schema {
      case StringOf(min, max, pattern) =>
        if !value.Str? { Mistyped(value, path, out); return Undefined; }
        parsed := ParseText(min, max, pattern, value.s, path, out);
      case IntOf(low, high) =>
        if !value.Num? { Mistyped(value, path, out); return Undefined; }
        parsed := ParseInt(low, high, value.n, path, out);
      case BoolOf =>
        if !value.Bool? { Mistyped(value, path, out); return Undefined; }
        return value;
      case DateOf =>
        if !value.Str? { Mistyped(value, path, out); return Undefined; }
        if Length(value.s) > 40 || !IsRealMoment(value.s) {
          out.Add(path, BadDate);
          return Undefined;
        }
        return Date(Instant(ReadStamp(value.s).value));
      case EnumOf(values) =>
        if !value.Str? { Mistyped(value, path, out); return Undefined; }
        if value.s !in values {
          out.Add(path, NotInEnum);
          return Undefined;
        }
        return value;
    }
  }

  method Parse(schema: Schema, value: Value, path: string, out: Collector) returns (parsed: Value)
    requires |out.issues| <= MAX_ISSUES
    modifies out
    ensures out.issues == Kept(old(out.issues) + Issues(schema, value, path))
    ensures Issues(schema, value, path) == [] ==> parsed == Parsed(schema, value)
    decreases schema, 1, 0
  {
    if schema.OptionalOf? {
      if value.Undefined? {
        assert Kept(out.issues + []) == out.issues;
        return Undefined;
      }
      parsed := Parse(schema.inner, value, path, out);
    } else if schema.NullableOf? {
      if value.Null? {
        assert Kept(out.issues + []) == out.issues;
        return Null;
      }
      parsed := Parse(schema.inner, value, path, out);
    } else if schema.ArrayOf? {
      if !value.Arr? { Mistyped(value, path, out); return Undefined; }
      if |value.items| > schema.most {
        out.Add(path, TooMany);
        return Undefined;
      }
      if schema.least.Some? && |value.items| < schema.least.value {
        out.Add(path, TooShort);
        return Undefined;
      }
      parsed := ParseItems(schema.item, value.items, path, out);
    } else if schema.ObjectOf? {
      if !value.Obj? { Mistyped(value, path, out); return Undefined; }
      parsed := ParseObject(schema.shape, value.fields, path, out);
    } else if schema.RecordOf? {
      if !value.Obj? { Mistyped(value, path, out); return Undefined; }
      if |value.fields| > schema.maxKeys {
        out.Add(path, TooMany);
        return Undefined;
      }
      parsed := ParseEntries(schema.value, schema.keyPattern, value.fields, path, out);
    } else if schema.JsonOf? {
      var budget := new Budget();
      parsed := ParseJson(schema.limits, value, 0, budget, path, out);
    } else {
      parsed := ParseLeaf(schema, value, path, out);
    }
  }

  lemma ItemsStep(item: Schema, items: seq<Value>, i: nat, path: string)
    requires i < |items|
    ensures ItemIssues(item, items[i..], i, path)
      == Issues(item, items[i], Indexed(path, i)) + ItemIssues(item, items[i + 1..], i + 1, path)
    ensures ParsedItems(item, items[i..]) == [Parsed(item, items[i])] + ParsedItems(item, items[i + 1..])
  {
    assert items[i..][1..] == items[i + 1..];
  }

  method ParseItems(item: Schema, items: seq<Value>, path: string, out: Collector) returns (parsed: Value)
    requires |out.issues| <= MAX_ISSUES
    modifies out
    ensures out.issues == Kept(old(out.issues) + ItemIssues(item, items, 0, path))
    ensures ItemIssues(item, items, 0, path) == [] ==> parsed == Arr(ParsedItems(item, items))
    decreases item, 2, |items|
  {
    var result: seq<Value> := [];
    ghost var all := ItemIssues(item, items, 0, path);
    ghost var whole := ParsedItems(item, items);
    assert items[0..] == items;
    ResultsStart(whole);
    for i := 0 to |items|
      invariant Completes(out.issues, ItemIssues(item, items[i..], i, path), old(out.issues), all)
      invariant all == [] ==> Makes(result, ParsedItems(item, items[i..]), whole)
    {
      ItemsStep(item, items, i, path);
      CompletesStep(out.issues, Issues(item, items[i], Indexed(path, i)),
                    ItemIssues(item, items[i + 1..], i + 1, path), old(out.issues), all);
      var one := Parse(item, items[i], Indexed(path, i), out);
      if all == [] { ResultsStep(result, [one], ParsedItems(item, items[i + 1..]), whole); }
      result := result + [one];
    }
    CompletesEnd(out.issues, old(out.issues), all);
    if all == [] { ResultsEnd(result, whole); }
    parsed := Arr(result);
  }

  lemma UnknownStep(shape: seq<Prop>, fields: seq<Field>, i: nat, path: string, kept: seq<Issue>)
    requires i < |fields|
    ensures var key := fields[i].key;
      var first := if key in PropKeys(shape) then [] else [Issue(Joined(path, key), UnknownField)];
      Kept(Kept(kept + first) + UnknownIssues(shape, fields[i + 1..], path))
        == Kept(kept + UnknownIssues(shape, fields[i..], path))
  {
    assert fields[i..][1..] == fields[i + 1..];
    var first := if fields[i].key in PropKeys(shape) then [] else [Issue(Joined(path, fields[i].key), UnknownField)];
    KeptStep(kept, first, UnknownIssues(shape, fields[i + 1..], path));
  }

  method FindUnknown(shape: seq<Prop>, fields: seq<Field>, path: string, out: Collector)
    requires |out.issues| <= MAX_ISSUES
    modifies out
    ensures out.issues == Kept(old(out.issues) + UnknownIssues(shape, fields, path))
  {
    assert fields[0..] == fields;
    for i := 0 to |fields|
      invariant |out.issues| <= MAX_ISSUES
      invariant Kept(out.issues + UnknownIssues(shape, fields[i..], path))
        == Kept(old(out.issues) + UnknownIssues(shape, fields, path))
    {
      UnknownStep(shape, fields, i, path, out.issues);
      assert Kept(out.issues + []) == out.issues;
      if fields[i].key !in PropKeys(shape) {
        out.Add(Joined(path, fields[i].key), UnknownField);
      }
    }
    assert out.issues + [] == out.issues;
  }

  lemma ShapeStep(shape: seq<Prop>, fields: seq<Field>, i: nat, path: string)
    requires i < |shape|
    ensures var v := Lookup(fields, shape[i].key);
      && ShapeIssues(shape[i..], fields, path)
         == Issues(shape[i].schema, v, Joined(path, shape[i].key)) + ShapeIssues(shape[i + 1..], fields, path)
      && ParsedShape(shape[i..], fields) == ParsedProp(shape[i], v) + ParsedShape(shape[i + 1..], fields)
  {
    assert shape[i..][1..] == shape[i + 1..];
  }

  function ParsedProp(p: Prop, v: Value): seq<Field> {
    if Parsed(p.schema, v).Undefined? then [] else [Field(p.key, Parsed(p.schema, v))]
  }

  method ParseObject(shape: seq<Prop>, fields: seq<Field>, path: string, out: Collector) returns (parsed: Value)
    requires |out.issues| <= MAX_ISSUES
    modifies out
    ensures out.issues
      == Kept(old(out.issues) + (UnknownIssues(shape, fields, path) + ShapeIssues(shape, fields, path)))
    ensures ShapeIssues(shape, fields, path) == [] ==> parsed == Obj(ParsedShape(shape, fields))
    decreases shape, 1, 0
  {
    KeptStep(out.issues, UnknownIssues(shape, fields, path), ShapeIssues(shape, fields, path));
    FindUnknown(shape, fields, path, out);
    parsed := ParseShape(shape, fields, path, out);
  }

  /** The declared fields, in the order of the shape; an absent optional one leaves no field. */
  method ParseShape(shape: seq<Prop>, fields: seq<Field>, path: string, out: Collector) returns (parsed: Value)
    requires |out.issues| <= MAX_ISSUES
    modifies out
    ensures out.issues == Kept(old(out.issues) + ShapeIssues(shape, fields, path))
    ensures ShapeIssues(shape, fields, path) == [] ==> parsed == Obj(ParsedShape(shape, fields))
    decreases shape, 0, 0
  {
    var result: seq<Field> := [];
    ghost var all := ShapeIssues(shape, fields, path);
    ghost var whole := ParsedShape(shape, fields);
    assert shape[0..] == shape;
    ResultsStart(whole);
    for i := 0 to |shape|
      invariant Completes(out.issues, ShapeIssues(shape[i..], fields, path), old(out.issues), all)
      invariant all == [] ==> Makes(result, ParsedShape(shape[i..], fields), whole)
    {
      ghost var v := Lookup(fields, shape[i].key);
      ShapeStep(shape, fields, i, path);
      CompletesStep(out.issues, Issues(shape[i].schema, v, Joined(path, shape[i].key)),
                    ShapeIssues(shape[i + 1..], fields, path), old(out.issues), all);
      var one := Parse(shape[i].schema, Lookup(fields, shape[i].key), Joined(path, shape[i].key), out);
      if all == [] {
        ResultsStep(result, ParsedProp(shape[i], v), ParsedShape(shape[i + 1..], fields), whole);
      }
      result := result + (if one.Undefined? then [] else [Field(shape[i].key, one)]);
    }
    CompletesEnd(out.issues, old(out.issues), all);
    if all == [] { ResultsEnd(result, whole); }
    parsed := Obj(result);
  }

  lemma EntriesStep(value: Schema, keyPattern: Pattern, fields: seq<Field>, i: nat, path: string)
    requires i < |fields|
    ensures EntryIssues(value, keyPattern, fields[i..], path)
      == EntryIssue(value, keyPattern, fields[i], path) + EntryIssues(value, keyPattern, fields[i + 1..], path)
    ensures ParsedEntries(value, fields[i..])
      == [Field(fields[i].key, Parsed(value, fields[i].value))] + ParsedEntries(value, fields[i + 1..])
  {
    assert fields[i..][1..] == fields[i + 1..];
  }

  function EntryIssue(value: Schema, keyPattern: Pattern, f: Field, path: string): seq<Issue> {
    if f.key in FORBIDDEN_KEYS || !keyPattern.test(f.key) then [Issue(Joined(path, "<key>"), InvalidKey)]
    else Issues(value, f.value, Joined(path, f.key))
  }

  /** One entry of a record: a key that is not allowed is reported and its value not looked at. */
  method ParseEntry(value: Schema, keyPattern: Pattern, f: Field, path: string, out: Collector)
    returns (parsed: Option<Field>)
    requires |out.issues| <= MAX_ISSUES
    modifies out
    ensures out.issues == Kept(old(out.issues) + EntryIssue(value, keyPattern, f, path))
    ensures EntryIssue(value, keyPattern, f, path) == [] ==> parsed == Some(Field(f.key, Parsed(value, f.value)))
    decreases value, 2, 0
  {
    if f.key in FORBIDDEN_KEYS || !keyPattern.test(f.key) {
      out.Add(Joined(path, "<key>"), InvalidKey);
      return None;
    }
    var one := Parse(value, f.value, Joined(path, f.key), out);
    return Some(Field(f.key, one));
  }

  method ParseEntries(value: Schema, keyPattern: Pattern, fields: seq<Field>, path: string, out: Collector)
    returns (parsed: Value)
    requires |out.issues| <= MAX_ISSUES
    modifies out
    ensures out.issues == Kept(old(out.issues) + EntryIssues(value, keyPattern, fields, path))
    ensures EntryIssues(value, keyPattern, fields, path) == [] ==> parsed == Obj(ParsedEntries(value, fields))
    decreases value, 3, |fields|
  {
    var result: seq<Field> := [];
    ghost var all := EntryIssues(value, keyPattern, fields, path);
    ghost var whole := ParsedEntries(value, fields);
    assert fields[0..] == fields;
    ResultsStart(whole);
    for i := 0 to |fields|
      invariant Completes(out.issues, EntryIssues(value, keyPattern, fields[i..], path), old(out.issues), all)
      invariant all == [] ==> Makes(result, ParsedEntries(value, fields[i..]), whole)
    {
      EntriesStep(value, keyPattern, fields, i, path);
      CompletesStep(out.issues, EntryIssue(value, keyPattern, fields[i], path),
                    EntryIssues(value, keyPattern, fields[i + 1..], path), old(out.issues), all);
      var one := ParseEntry(value, keyPattern, fields[i], path, out);
      if all == [] {
        ResultsStep(result, [one.value], ParsedEntries(value, fields[i + 1..]), whole);
      }
      result := if one.Some? then result + [one.value] else result;
    }
    CompletesEnd(out.issues, old(out.issues), all);
    if all == [] { ResultsEnd(result, whole); }
    parsed := Obj(result);
  }

  datatype ParseResult = Ok(value: Value) | Refused(issues: seq<Issue>)

  /** Accepted exactly when the schema means the value, although the collector keeps only the first twenty issues. */
  method ParseInput(schema: Schema, value: Value) returns (r: ParseResult)
    ensures r.Ok? <==> Accepts(schema, value)
    ensures r.Ok? ==> r.value == Parsed(schema, value)
    ensures r.Refused? ==> 1 <= |r.issues| <= MAX_ISSUES && r.issues <= Issues(schema, value, "")
    ensures r.Refused? && |Issues(schema, value, "")| <= MAX_ISSUES ==> r.issues == Issues(schema, value, "")
  {
    var collector := new Collector();
    var parsed := Parse(schema, value, "", collector);
    NoIssuesIffAccepted(schema, value, "");
    assert [] + Issues(schema, value, "") == Issues(schema, value, "");
    return if collector.issues == [] then Ok(parsed) else Refused(collector.issues);
  }
}
