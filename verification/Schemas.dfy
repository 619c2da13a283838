/** The schema language of the API (`packages/server/src/schema.ts`): values, schemas, what a schema means, and the
    strict parser as a function: the issues it finds, in order, and the value it returns. */
module Schemas {
  import opened Wrappers
  import opened Moments

  datatype Number = Finite(value: real) | NotFinite

  datatype Value =
    | Undefined | Null
    | Bool(b: bool) | Num(n: Number) | Str(s: string)
    | Arr(items: seq<Value>) | Obj(fields: seq<Field>)
    | Date(ms: int) | InvalidDate

  datatype Field = Field(key: string, value: Value)

  /** A regular expression, known by the texts it accepts: with its flags, and as the bare source that a description
      publishes. */
  datatype Pattern = Pattern(test: string -> bool, published: string -> bool)

  datatype JsonLimits = JsonLimits(maxDepth: nat, maxNodes: nat, maxString: nat)

  datatype Schema =
    | StringOf(min: Option<nat>, max: nat, pattern: Option<Pattern>)
    | IntOf(low: int, high: int)
    | BoolOf
    | DateOf
    | EnumOf(values: seq<string>)
    | ArrayOf(item: Schema, least: Option<nat>, most: nat)
    | ObjectOf(shape: seq<Prop>)
    | RecordOf(value: Schema, maxKeys: nat, keyPattern: Pattern)
    | JsonOf(limits: JsonLimits)
    | OptionalOf(inner: Schema)
    | NullableOf(inner: Schema)

  datatype Prop = Prop(key: string, schema: Schema)

  // ----- strings and objects

  /** `length` counts UTF-16 code units: two for a character beyond the basic plane. */
  function Length(s: string): nat {
    if s == "" then 0 else (if s[0] as int >= 0x10000 then 2 else 1) + Length(s[1..])
  }

  predicate HasControl(s: string) {
    s != "" && (s[0] as int <= 0x1f || s[0] as int == 0x7f || HasControl(s[1..]))
  }

  const FORBIDDEN_KEYS := {"__proto__", "constructor", "prototype"}

  function KeysOf(fields: seq<Field>): seq<string> {
    if fields == [] then [] else [fields[0].key] + KeysOf(fields[1..])
  }

  /** The own property of that name, or `undefined`. */
  function Lookup(fields: seq<Field>, key: string): Value {
    if fields == [] then Undefined
    else if fields[0].key == key then fields[0].value
    else Lookup(fields[1..], key)
  }

  function PropKeys(shape: seq<Prop>): seq<string> {
    if shape == [] then [] else [shape[0].key] + PropKeys(shape[1..])
  }

  predicate Distinct(keys: seq<string>) {
    forall i, j :: 0 <= i < j < |keys| ==> keys[i] != keys[j]
  }

  /** What `JSON.parse` can return: object keys differ, nothing is undefined or a date. */
  predicate IsJson(v: Value) {
    match v
    case Undefined => false
    case Date(_) => false
    case InvalidDate => false
    case Arr(items) => forall i :: 0 <= i < |items| ==> IsJson(items[i])
    case Obj(fields) => Distinct(KeysOf(fields)) && forall i :: 0 <= i < |fields| ==> IsJson(fields[i].value)
    case _ => true
  }

  // ----- what a schema means

  /** Every value inside counts, the value itself included. */
  function Nodes(v: Value): nat {
    match v
    case Arr(items) => 1 + NodesOfItems(items)
    case Obj(fields) => 1 + NodesOfFields(fields)
    case _ => 1
  }

  function NodesOfItems(items: seq<Value>): nat {
    if items == [] then 0 else Nodes(items[0]) + NodesOfItems(items[1..])
  }

  function NodesOfFields(fields: seq<Field>): nat {
    if fields == [] then 0 else Nodes(fields[0].value) + NodesOfFields(fields[1..])
  }

  predicate LegalJsonKey(k: string) { k !in FORBIDDEN_KEYS && Length(k) <= 64 && !HasControl(k) }

  /** Any JSON value no deeper than `depth`, with bounded strings, finite numbers and legal keys. */
  predicate BoundedJson(l: JsonLimits, v: Value, depth: int)
  {
    depth >= 0 &&
    match v
    case Null => true
    case Bool(_) => true
    case Num(n) => n.Finite?
    case Str(s) => Length(s) <= l.maxString
    case Arr(items) => forall i :: 0 <= i < |items| ==> BoundedJson(l, items[i], depth - 1)
    case Obj(fields) =>
      forall i :: 0 <= i < |fields| ==> LegalJsonKey(fields[i].key) && BoundedJson(l, fields[i].value, depth - 1)
    case Undefined => false
    case Date(_) => false
    case InvalidDate => false
  }

  predicate AcceptsText(min: Option<nat>, max: nat, pattern: Option<Pattern>, s: string) {
    && Length(s) <= max && (min.Some? ==> Length(s) >= min.value) && !HasControl(s)
    && (pattern.Some? ==> pattern.value.test(s))
  }

  predicate IsInteger(n: Number) { n.Finite? && n.value == n.value.Floor as real }

  /** The meaning of a schema, without issues, collectors or budgets. */
  ghost predicate Accepts(s: Schema, v: Value) {
    match s
    case OptionalOf(inner) => v.Undefined? || Accepts(inner, v)
    case NullableOf(inner) => v.Null? || Accepts(inner, v)
    case StringOf(min, max, pattern) => v.Str? && AcceptsText(min, max, pattern, v.s)
    case IntOf(low, high) => v.Num? && IsInteger(v.n) && low as real <= v.n.value <= high as real
    case BoolOf => v.Bool?
    case DateOf => v.Str? && Length(v.s) <= 40 && IsRealMoment(v.s)
    case EnumOf(values) => v.Str? && v.s in values
    case ArrayOf(item, least, most) =>
      v.Arr? && |v.items| <= most && (least.Some? ==> |v.items| >= least.value)
      && forall i :: 0 <= i < |v.items| ==> Accepts(item, v.items[i])
    case ObjectOf(shape) =>
      v.Obj? && Declared(shape, v.fields)
      && forall i :: 0 <= i < |shape| ==> Accepts(shape[i].schema, Lookup(v.fields, shape[i].key))
    case RecordOf(value, maxKeys, keyPattern) =>
      v.Obj? && |v.fields| <= maxKeys
      && forall i :: 0 <= i < |v.fields| ==>
        v.fields[i].key !in FORBIDDEN_KEYS && keyPattern.test(v.fields[i].key) && Accepts(value, v.fields[i].value)
    case JsonOf(limits) => BoundedJson(limits, v, limits.maxDepth) && Nodes(v) <= limits.maxNodes
  }

  // ----- the parser, as a function

  datatype Code =
    | Required | UnknownField | WrongType | TooLong | TooShort | OutOfRange | PatternMismatch | NotInEnum
    | TooMany | BadDate | InvalidKey | TooDeep | TooLarge

  datatype Issue = Issue(path: string, code: Code)

  function Joined(path: string, key: string): string { if path == "" then key else path + "." + key }

  function Digits(n: nat): string {
    if n < 10 then [DigitChar(n)] else Digits(n / 10) + [DigitChar(n % 10)]
  }

  function Indexed(path: string, i: nat): string { path + "[" + Digits(i) + "]" }

  function TypeIssue(v: Value, path: string): seq<Issue> {
    [Issue(path, if v.Undefined? then Required else WrongType)]
  }

  function TextIssues(min: Option<nat>, max: nat, pattern: Option<Pattern>, s: string, path: string): seq<Issue> {
    if Length(s) > max then [Issue(path, TooLong)]
    else if min.Some? && Length(s) < min.value then [Issue(path, TooShort)]
    else if HasControl(s) then [Issue(path, PatternMismatch)]
    else if pattern.Some? && !pattern.value.test(s) then [Issue(path, PatternMismatch)]
    else []
  }

  function IntIssues(low: int, high: int, n: Number, path: string): seq<Issue> {
    if !IsInteger(n) then [Issue(path, WrongType)]
    else if n.value < low as real || n.value > high as real then [Issue(path, OutOfRange)]
    else []
  }

  /** The issues of the free-form part, and the node budget after it. */
  datatype Spent = Spent(issues: seq<Issue>, nodes: nat)

  function JsonIssues(l: JsonLimits, v: Value, depth: nat, nodes: nat, path: string): Spent
    decreases v, 1
  {
    var n := nodes + 1;
    if n > l.maxNodes then Spent([Issue(path, TooLarge)], n)
    else if depth > l.maxDepth then Spent([Issue(path, TooDeep)], n)
    else match v
      case Null => Spent([], n)
      case Bool(_) => Spent([], n)
      case Num(number) => Spent(if number.Finite? then [] else [Issue(path, WrongType)], n)
      case Str(s) => Spent(if Length(s) <= l.maxString then [] else [Issue(path, TooLong)], n)
      case Arr(items) =>
        if |items| > l.maxNodes then Spent([Issue(path, TooMany)], n)
        else JsonItemIssues(l, items, 0, depth + 1, n, path)
      case Obj(fields) => JsonFieldIssues(l, fields, depth + 1, n, path)
      case Undefined => Spent([Issue(path, WrongType)], n)
      case Date(_) => Spent([Issue(path, WrongType)], n)
      case InvalidDate => Spent([Issue(path, WrongType)], n)
  }

  function JsonItemIssues(l: JsonLimits, items: seq<Value>, index: nat, depth: nat, nodes: nat, path: string): Spent
    decreases items, 0
  {
    if items == [] then Spent([], nodes)
    else
      var first := JsonIssues(l, items[0], depth, nodes, Indexed(path, index));
      var rest := JsonItemIssues(l, items[1..], index + 1, depth, first.nodes, path);
      Spent(first.issues + rest.issues, rest.nodes)
  }

  function JsonFieldIssues(l: JsonLimits, fields: seq<Field>, depth: nat, nodes: nat, path: string): Spent
    decreases fields, 0
  {
    if fields == [] then Spent([], nodes)
    else
      var first :=
        if LegalJsonKey(fields[0].key) then JsonIssues(l, fields[0].value, depth, nodes, Joined(path, fields[0].key))
                   else Spent([Issue(Joined(path, "<key>"), InvalidKey)], nodes);
      var rest := JsonFieldIssues(l, fields[1..], depth, first.nodes, path);
      Spent(first.issues + rest.issues, rest.nodes)
  }

  function UnknownIssues(shape: seq<Prop>, fields: seq<Field>, path: string): seq<Issue> {
    if fields == [] then []
    else
      (if fields[0].key in PropKeys(shape) then [] else [Issue(Joined(path, fields[0].key), UnknownField)])
      + UnknownIssues(shape, fields[1..], path)
  }

  /** Every issue of a value, before the collector cuts the list. */
  function Issues(s: Schema, v: Value, path: string): seq<Issue>
    decreases s, 1, 0
  {
    match s
    case OptionalOf(inner) => if v.Undefined? then [] else Issues(inner, v, path)
    case NullableOf(inner) => if v.Null? then [] else Issues(inner, v, path)
    case StringOf(min, max, pattern) => if !v.Str? then TypeIssue(v, path) else TextIssues(min, max, pattern, v.s, path)
    case IntOf(low, high) => if !v.Num? then TypeIssue(v, path) else IntIssues(low, high, v.n, path)
    case BoolOf => if !v.Bool? then TypeIssue(v, path) else []
    case DateOf =>
      if !v.Str? then TypeIssue(v, path)
      else if Length(v.s) > 40 || !IsRealMoment(v.s) then [Issue(path, BadDate)] else []
    case EnumOf(values) =>
      if !v.Str? then TypeIssue(v, path) else if v.s !in values then [Issue(path, NotInEnum)] else []
    case ArrayOf(item, least, most) =>
      if !v.Arr? then TypeIssue(v, path)
      else if |v.items| > most then [Issue(path, TooMany)]
      else if least.Some? && |v.items| < least.value then [Issue(path, TooShort)]
      else ItemIssues(item, v.items, 0, path)
    case ObjectOf(shape) =>
      if !v.Obj? then TypeIssue(v, path) else UnknownIssues(shape, v.fields, path) + ShapeIssues(shape, v.fields, path)
    case RecordOf(value, maxKeys, keyPattern) =>
      if !v.Obj? then TypeIssue(v, path)
      else if |v.fields| > maxKeys then [Issue(path, TooMany)]
      else EntryIssues(value, keyPattern, v.fields, path)
    case JsonOf(limits) => JsonIssues(limits, v, 0, 0, path).issues
  }

  function ItemIssues(item: Schema, items: seq<Value>, index: nat, path: string): seq<Issue>
    decreases item, 2, |items|
  {
    if items == [] then []
    else Issues(item, items[0], Indexed(path, index)) + ItemIssues(item, items[1..], index + 1, path)
  }

  function ShapeIssues(shape: seq<Prop>, fields: seq<Field>, path: string): seq<Issue>
    decreases shape, 0, 0
  {
    if shape == [] then []
    else Issues(shape[0].schema, Lookup(fields, shape[0].key), Joined(path, shape[0].key))
         + ShapeIssues(shape[1..], fields, path)
  }

  function EntryIssues(value: Schema, keyPattern: Pattern, fields: seq<Field>, path: string): seq<Issue>
    decreases value, 2, |fields|
  {
    if fields == [] then []
    else
      (if fields[0].key in FORBIDDEN_KEYS || !keyPattern.test(fields[0].key)
       then [Issue(Joined(path, "<key>"), InvalidKey)]
       else Issues(value, fields[0].value, Joined(path, fields[0].key)))
      + EntryIssues(value, keyPattern, fields[1..], path)
  }

  /** What the parser returns for a value without issues: dates become dates, objects take the order of the shape. */
  function Parsed(s: Schema, v: Value): Value
    decreases s, 1, 0
  {
    match s
    case OptionalOf(inner) => if v.Undefined? then Undefined else Parsed(inner, v)
    case NullableOf(inner) => if v.Null? then Null else Parsed(inner, v)
    case DateOf => if v.Str? && ReadStamp(v.s).Some? then Date(Instant(ReadStamp(v.s).value)) else Undefined
    case ArrayOf(item, _, _) => if v.Arr? then Arr(ParsedItems(item, v.items)) else Undefined
    case ObjectOf(shape) => if v.Obj? then Obj(ParsedShape(shape, v.fields)) else Undefined
    case RecordOf(value, _, _) => if v.Obj? then Obj(ParsedEntries(value, v.fields)) else Undefined
    case _ => v
  }

  function ParsedItems(item: Schema, items: seq<Value>): (r: seq<Value>)
    ensures |r| == |items|
    decreases item, 2, |items|
  {
    if items == [] then [] else [Parsed(item, items[0])] + ParsedItems(item, items[1..])
  }

  function ParsedShape(shape: seq<Prop>, fields: seq<Field>): seq<Field>
    decreases shape, 0, 0
  {
    if shape == [] then []
    else
      var p := Parsed(shape[0].schema, Lookup(fields, shape[0].key));
      (if p.Undefined? then [] else [Field(shape[0].key, p)]) + ParsedShape(shape[1..], fields)
  }

  function ParsedEntries(value: Schema, fields: seq<Field>): (r: seq<Field>)
    ensures |r| == |fields|
    decreases value, 2, |fields|
  {
    if fields == [] then []
    else [Field(fields[0].key, Parsed(value, fields[0].value))] + ParsedEntries(value, fields[1..])
  }

  // ----- the parser finds nothing exactly when the meaning holds

  lemma {:induction false} ManyItemsManyNodes(items: seq<Value>)
    ensures NodesOfItems(items) >= |items|
  {
    if items != [] { ManyItemsManyNodes(items[1..]); }
  }

  /** The budget, shared by the whole free-form value, is spent node by node; without an issue it is spent exactly. */
  lemma {:induction false} JsonBudget(l: JsonLimits, v: Value, depth: nat, nodes: nat, path: string)
    requires nodes <= l.maxNodes && depth <= l.maxDepth + 1
    ensures var r := JsonIssues(l, v, depth, nodes, path);
      && (r.issues == [] <==> BoundedJson(l, v, l.maxDepth - depth) && nodes + Nodes(v) <= l.maxNodes)
      && (r.issues == [] ==> r.nodes == nodes + Nodes(v))
    decreases v, 1
  {
    if v.Arr? {
      JsonArrayBudget(l, v, depth, nodes, path);
    } else if v.Obj? {
      JsonObjectBudget(l, v, depth, nodes, path);
    }
  }

  lemma JsonArrayBudget(l: JsonLimits, v: Value, depth: nat, nodes: nat, path: string)
    requires nodes <= l.maxNodes && depth <= l.maxDepth + 1 && v.Arr?
    ensures var r := JsonIssues(l, v, depth, nodes, path);
      && (r.issues == [] <==> BoundedJson(l, v, l.maxDepth - depth) && nodes + Nodes(v) <= l.maxNodes)
      && (r.issues == [] ==> r.nodes == nodes + Nodes(v))
    decreases v, 0
  {
    ManyItemsManyNodes(v.items);
    if nodes + 1 <= l.maxNodes && depth <= l.maxDepth && |v.items| <= l.maxNodes {
      JsonItemsBudget(l, v.items, 0, depth + 1, nodes + 1, path);
    }
  }

  lemma JsonObjectBudget(l: JsonLimits, v: Value, depth: nat, nodes: nat, path: string)
    requires nodes <= l.maxNodes && depth <= l.maxDepth + 1 && v.Obj?
    ensures var r := JsonIssues(l, v, depth, nodes, path);
      && (r.issues == [] <==> BoundedJson(l, v, l.maxDepth - depth) && nodes + Nodes(v) <= l.maxNodes)
      && (r.issues == [] ==> r.nodes == nodes + Nodes(v))
    decreases v, 0
  {
    if nodes + 1 <= l.maxNodes && depth <= l.maxDepth {
      JsonFieldsBudget(l, v.fields, depth + 1, nodes + 1, path);
    }
  }

  lemma {:induction false} JsonItemsBudget(l: JsonLimits, items: seq<Value>, index: nat, depth: nat, nodes: nat,
                                           path: string)
    requires nodes <= l.maxNodes && depth <= l.maxDepth + 1
    ensures var r := JsonItemIssues(l, items, index, depth, nodes, path);
      && (r.issues == [] <==> (forall i :: 0 <= i < |items| ==> BoundedJson(l, items[i], l.maxDepth - depth))
                              && nodes + NodesOfItems(items) <= l.maxNodes)
      && (r.issues == [] ==> r.nodes == nodes + NodesOfItems(items))
    decreases items, 0
  {
    if items != [] {
      var first := JsonIssues(l, items[0], depth, nodes, Indexed(path, index));
      JsonBudget(l, items[0], depth, nodes, Indexed(path, index));
      assert items == [items[0]] + items[1..];
      if first.issues == [] {
        JsonItemsBudget(l, items[1..], index + 1, depth, first.nodes, path);
      }
    }
  }

  lemma {:induction false} JsonFieldsBudget(l: JsonLimits, fields: seq<Field>, depth: nat, nodes: nat, path: string)
    requires nodes <= l.maxNodes && depth <= l.maxDepth + 1
    ensures var r := JsonFieldIssues(l, fields, depth, nodes, path);
      && (r.issues == [] <==> (forall i :: 0 <= i < |fields| ==>
                                     LegalJsonKey(fields[i].key) && BoundedJson(l, fields[i].value, l.maxDepth - depth))
                              && nodes + NodesOfFields(fields) <= l.maxNodes)
      && (r.issues == [] ==> r.nodes == nodes + NodesOfFields(fields))
    decreases fields, 0
  {
    if fields != [] {
      assert fields == [fields[0]] + fields[1..];
      if LegalJsonKey(fields[0].key) {
        var first := JsonIssues(l, fields[0].value, depth, nodes, Joined(path, fields[0].key));
        JsonBudget(l, fields[0].value, depth, nodes, Joined(path, fields[0].key));
        if first.issues == [] {
          JsonFieldsBudget(l, fields[1..], depth, first.nodes, path);
        }
      }
    }
  }

  ghost predicate Declared(shape: seq<Prop>, fields: seq<Field>) {
    forall k :: k in KeysOf(fields) ==> k in PropKeys(shape)
  }

  lemma {:induction false} UnknownIssuesExact(shape: seq<Prop>, fields: seq<Field>, path: string)
    ensures UnknownIssues(shape, fields, path) == [] <==> Declared(shape, fields)
  {
    if fields != [] {
      UnknownIssuesExact(shape, fields[1..], path);
      assert KeysOf(fields) == [fields[0].key] + KeysOf(fields[1..]);
      assert fields[0].key in KeysOf(fields);
      assert forall k :: k in KeysOf(fields[1..]) ==> k in KeysOf(fields);
    }
  }

  lemma LeafAccepted(s: Schema, v: Value, path: string)
    requires s.StringOf? || s.IntOf? || s.BoolOf? || s.DateOf? || s.EnumOf?
    ensures Issues(s, v, path) == [] <==> Accepts(s, v)
  {
  }

  /** Without a single issue, and only then, the value satisfies the meaning of the schema. */
  lemma {:induction false} NoIssuesIffAccepted(s: Schema, v: Value, path: string)
    ensures Issues(s, v, path) == [] <==> Accepts(s, v)
    decreases s, 1, 0
  {
    if s.OptionalOf? {
      if !v.Undefined? { NoIssuesIffAccepted(s.inner, v, path); }
    } else if s.NullableOf? {
      if !v.Null? { NoIssuesIffAccepted(s.inner, v, path); }
    } else if s.ArrayOf? {
      if v.Arr? { ItemsAccepted(s.item, v.items, 0, path); }
    } else if s.ObjectOf? {
      if v.Obj? {
        UnknownIssuesExact(s.shape, v.fields, path);
        ShapeAccepted(s.shape, v.fields, path);
      }
    } else if s.RecordOf? {
      if v.Obj? { EntriesAccepted(s.value, s.keyPattern, v.fields, path); }
    } else if s.JsonOf? {
      JsonBudget(s.limits, v, 0, 0, path);
    } else {
      LeafAccepted(s, v, path);
    }
  }

  lemma {:induction false} ItemsAccepted(item: Schema, items: seq<Value>, index: nat, path: string)
    ensures ItemIssues(item, items, index, path) == [] <==> forall i :: 0 <= i < |items| ==> Accepts(item, items[i])
    decreases item, 2, |items|
  {
    if items != [] {
      NoIssuesIffAccepted(item, items[0], Indexed(path, index));
      ItemsAccepted(item, items[1..], index + 1, path);
      assert items == [items[0]] + items[1..];
    }
  }

  lemma {:induction false} ShapeAccepted(shape: seq<Prop>, fields: seq<Field>, path: string)
    ensures ShapeIssues(shape, fields, path) == []
      <==> forall i :: 0 <= i < |shape| ==> Accepts(shape[i].schema, Lookup(fields, shape[i].key))
    decreases shape, 0, 0
  {
    if shape != [] {
      NoIssuesIffAccepted(shape[0].schema, Lookup(fields, shape[0].key), Joined(path, shape[0].key));
      ShapeAccepted(shape[1..], fields, path);
      assert shape == [shape[0]] + shape[1..];
    }
  }

  ghost predicate EntryOk(value: Schema, keyPattern: Pattern, f: Field) {
    f.key !in FORBIDDEN_KEYS && keyPattern.test(f.key) && Accepts(value, f.value)
  }

  ghost predicate EntriesOk(value: Schema, keyPattern: Pattern, fields: seq<Field>) {
    forall i :: 0 <= i < |fields| ==> EntryOk(value, keyPattern, fields[i])
  }

  lemma EntriesOkCons(value: Schema, keyPattern: Pattern, fields: seq<Field>)
    requires fields != []
    ensures EntriesOk(value, keyPattern, fields)
      <==> EntryOk(value, keyPattern, fields[0]) && EntriesOk(value, keyPattern, fields[1..])
  {
    assert fields == [fields[0]] + fields[1..];
  }

  lemma {:induction false} EntriesAccepted(value: Schema, keyPattern: Pattern, fields: seq<Field>, path: string)
    ensures EntryIssues(value, keyPattern, fields, path) == [] <==> EntriesOk(value, keyPattern, fields)
    decreases value, 2, |fields|
  {
    if fields != [] {
      if fields[0].key !in FORBIDDEN_KEYS && keyPattern.test(fields[0].key) {
        NoIssuesIffAccepted(value, fields[0].value, Joined(path, fields[0].key));
      }
      EntriesAccepted(value, keyPattern, fields[1..], path);
      EntriesOkCons(value, keyPattern, fields);
    }
  }
}
