/** `project` (`packages/server/src/schema.ts`): what the server answers, kept to the declared fields, and how it
    relates to what the parser accepts. */
module Projection {
  import opened Wrappers
  import opened Moments
  import opened Schemas

  /** A value that fits, or the error of a handler whose result does not. */
  datatype Projected = Shaped(value: Value) | ShapeError

  // ----- JSON.parse(JSON.stringify(value))

  function Jsonify(v: Value): Value
    decreases v, 1
  {
    match v
    case Num(n) => if n.Finite? then v else Null
    case Date(ms) => Str(IsoText(ms))
    case InvalidDate => Null
    case Arr(items) => Arr(JsonifyItems(items))
    case Obj(fields) => Obj(JsonifyFields(fields))
    case _ => v
  }

  function JsonifyItems(items: seq<Value>): seq<Value>
    decreases items, 0
  {
    if items == [] then []
    else [if items[0].Undefined? then Null else Jsonify(items[0])] + JsonifyItems(items[1..])
  }

  function JsonifyFields(fields: seq<Field>): seq<Field>
    decreases fields, 0
  {
    if fields == [] then []
    else (if fields[0].value.Undefined? then [] else [Field(fields[0].key, Jsonify(fields[0].value))])
         + JsonifyFields(fields[1..])
  }

  // ----- projecting

  /** A property of any object; arrays and dates have none of the names a schema declares. */
  function Property(v: Value, key: string): Value {
    if v.Obj? then Lookup(v.fields, key) else Undefined
  }

  function IndexEntries(items: seq<Value>, i: nat): seq<Field> {
    if items == [] then [] else [Field(Digits(i), items[0])] + IndexEntries(items[1..], i + 1)
  }

  function Entries(v: Value): seq<Field> {
    if v.Obj? then v.fields else if v.Arr? then IndexEntries(v.items, 0) else []
  }

  predicate IsObject(v: Value) { v.Obj? || v.Arr? || v.Date? || v.InvalidDate? }

  function TimeOf(v: Value, lenient: string -> Option<int>): Option<int> {
    if v.Date? then Some(v.ms) else if v.Str? then ParseDate(v.s, lenient) else None
  }

  function ProjectLeaf(s: Schema, v: Value, lenient: string -> Option<int>): Projected {
    match s
    case StringOf(_, _, _) => if v.Str? then Shaped(v) else ShapeError
    case IntOf(_, _) => if v.Num? && v.n.Finite? then Shaped(v) else ShapeError
    case BoolOf => if v.Bool? then Shaped(v) else ShapeError
    case DateOf => if TimeOf(v, lenient).Some? then Shaped(Str(IsoText(TimeOf(v, lenient).value))) else ShapeError
    case EnumOf(values) => if v.Str? && v.s in values then Shaped(v) else ShapeError
    case _ => Shaped(Jsonify(v))
  }

  predicate Composite(s: Schema) { s.OptionalOf? || s.NullableOf? || s.ArrayOf? || s.ObjectOf? || s.RecordOf? }

  function Project(s: Schema, v: Value, lenient: string -> Option<int>): Projected
    decreases s, 1, 0
  {
    if s.OptionalOf? then if v.Undefined? then Shaped(Undefined) else Project(s.inner, v, lenient)
    else if s.NullableOf? then if v.Null? then Shaped(Null) else Project(s.inner, v, lenient)
    else if s.ArrayOf? then
      if !v.Arr? then ShapeError
      else match ProjectItems(s.item, v.items, lenient)
        case None => ShapeError
        case Some(items) => Shaped(Arr(items))
    else if s.ObjectOf? then
      if !IsObject(v) then ShapeError
      else match ProjectShape(s.shape, v, lenient)
        case None => ShapeError
        case Some(fields) => Shaped(Obj(fields))
    else if s.RecordOf? then
      if !IsObject(v) then ShapeError
      else match ProjectEntries(s.value, Entries(v), lenient)
        case None => ShapeError
        case Some(fields) => Shaped(Obj(fields))
    else ProjectLeaf(s, v, lenient)
  }

  function ProjectItems(item: Schema, items: seq<Value>, lenient: string -> Option<int>): Option<seq<Value>>
    decreases item, 2, |items|
  {
    if items == [] then Some([])
    else
      var first := Project(item, items[0], lenient);
      var rest := ProjectItems(item, items[1..], lenient);
      if first.ShapeError? || rest.None? then None else Some([first.value] + rest.value)
  }

  function ProjectShape(shape: seq<Prop>, source: Value, lenient: string -> Option<int>): Option<seq<Field>>
    decreases shape, 0, 0
  {
    if shape == [] then Some([])
    else
      var first := Project(shape[0].schema, Property(source, shape[0].key), lenient);
      var rest := ProjectShape(shape[1..], source, lenient);
      if first.ShapeError? || rest.None? then None
      else Some((if first.value.Undefined? then [] else [Field(shape[0].key, first.value)]) + rest.value)
  }

  function ProjectEntries(value: Schema, entries: seq<Field>, lenient: string -> Option<int>): Option<seq<Field>>
    decreases value, 2, |entries|
  {
    if entries == [] then Some([])
    else if entries[0].key in FORBIDDEN_KEYS then ProjectEntries(value, entries[1..], lenient)
    else
      var first := Project(value, entries[0].value, lenient);
      var rest := ProjectEntries(value, entries[1..], lenient);
      if first.ShapeError? || rest.None? then None else Some([Field(entries[0].key, first.value)] + rest.value)
  }

  /** No shape declares a name twice: a JavaScript object literal cannot. */
  predicate WellFormed(s: Schema) {
    match s
    case OptionalOf(inner) => WellFormed(inner)
    case NullableOf(inner) => WellFormed(inner)
    case ArrayOf(item, _, _) => WellFormed(item)
    case RecordOf(value, _, _) => WellFormed(value)
    case ObjectOf(shape) => Distinct(PropKeys(shape)) && forall i :: 0 <= i < |shape| ==> WellFormed(shape[i].schema)
    case _ => true
  }

  /** The answer `w` is the value `v` that came in, but for the order of object fields and the writing of dates. */
  ghost predicate Same(s: Schema, v: Value, w: Value) {
    match s
    case OptionalOf(inner) => (v.Undefined? && w.Undefined?) || (!v.Undefined? && Same(inner, v, w))
    case NullableOf(inner) => (v.Null? && w.Null?) || (!v.Null? && Same(inner, v, w))
    case DateOf => v.Str? && ReadStamp(v.s).Some? && w == Str(IsoText(Instant(ReadStamp(v.s).value)))
    case ArrayOf(item, _, _) =>
      v.Arr? && w.Arr? && |v.items| == |w.items|
      && forall i :: 0 <= i < |v.items| ==> Same(item, v.items[i], w.items[i])
    case ObjectOf(shape) =>
      v.Obj? && w.Obj? && Declared(shape, v.fields) && Declared(shape, w.fields)
      && forall i :: 0 <= i < |shape| ==>
        Same(shape[i].schema, Lookup(v.fields, shape[i].key), Lookup(w.fields, shape[i].key))
    case RecordOf(value, _, _) =>
      v.Obj? && w.Obj? && |v.fields| == |w.fields|
      && forall i :: 0 <= i < |v.fields| ==>
        v.fields[i].key == w.fields[i].key && Same(value, v.fields[i].value, w.fields[i].value)
    case _ => v == w
  }

  // ----- looking up what was built

  lemma PropKeysOf(shape: seq<Prop>)
    ensures |PropKeys(shape)| == |shape| && forall i :: 0 <= i < |shape| ==> PropKeys(shape)[i] == shape[i].key
  {
  }

  lemma {:induction false} LookupAbsent(fields: seq<Field>, key: string)
    ensures key !in KeysOf(fields) ==> Lookup(fields, key).Undefined?
  {
    if fields != [] { LookupAbsent(fields[1..], key); }
  }

  lemma LookupCons(f: Field, fields: seq<Field>, key: string)
    ensures Lookup([f] + fields, key) == if f.key == key then f.value else Lookup(fields, key)
    ensures KeysOf([f] + fields) == [f.key] + KeysOf(fields)
  {
    assert ([f] + fields)[1..] == fields;
  }

  lemma DistinctTail(shape: seq<Prop>)
    requires shape != [] && Distinct(PropKeys(shape))
    ensures Distinct(PropKeys(shape[1..])) && shape[0].key !in PropKeys(shape[1..])
  {
    assert PropKeys(shape) == [shape[0].key] + PropKeys(shape[1..]);
    assert forall i :: 0 <= i < |PropKeys(shape[1..])| ==> PropKeys(shape[1..])[i] == PropKeys(shape)[i + 1];
    assert PropKeys(shape)[0] == shape[0].key;
  }

  /** Only declared names come out of the parser's object, each with the value parsed for it. */
  lemma {:induction false} ParsedLookup(shape: seq<Prop>, fields: seq<Field>, key: string)
    requires Distinct(PropKeys(shape))
    ensures Declared(shape, ParsedShape(shape, fields))
    ensures forall i :: 0 <= i < |shape| && shape[i].key == key ==>
      Lookup(ParsedShape(shape, fields), key) == Parsed(shape[i].schema, Lookup(fields, key))
    decreases shape
  {
    if shape != [] {
      DistinctTail(shape);
      PropKeysOf(shape[1..]);
      ParsedLookup(shape[1..], fields, key);
      var rest := ParsedShape(shape[1..], fields);
      var p := Parsed(shape[0].schema, Lookup(fields, shape[0].key));
      LookupAbsent(rest, shape[0].key);
      LookupCons(Field(shape[0].key, p), rest, key);
      assert [] + rest == rest;
      assert PropKeys(shape) == [shape[0].key] + PropKeys(shape[1..]);
      assert forall i :: 0 < i < |shape| ==>
        shape[i] == shape[1..][i - 1] && shape[i].key == PropKeys(shape[1..])[i - 1];
    }
  }

  /** The same for the projected object. */
  lemma {:induction false} ProjectedLookup(shape: seq<Prop>, source: Value, lenient: string -> Option<int>, key: string)
    requires Distinct(PropKeys(shape)) && ProjectShape(shape, source, lenient).Some?
    ensures Declared(shape, ProjectShape(shape, source, lenient).value)
    ensures forall i :: 0 <= i < |shape| && shape[i].key == key ==>
      Project(shape[i].schema, Property(source, key), lenient)
        == Shaped(Lookup(ProjectShape(shape, source, lenient).value, key))
    decreases shape
  {
    if shape != [] {
      DistinctTail(shape);
      PropKeysOf(shape[1..]);
      ProjectedLookup(shape[1..], source, lenient, key);
      var rest := ProjectShape(shape[1..], source, lenient).value;
      var p := Project(shape[0].schema, Property(source, shape[0].key), lenient).value;
      LookupAbsent(rest, shape[0].key);
      LookupCons(Field(shape[0].key, p), rest, key);
      assert [] + rest == rest;
      assert PropKeys(shape) == [shape[0].key] + PropKeys(shape[1..]);
      assert forall i :: 0 < i < |shape| ==>
        shape[i] == shape[1..][i - 1] && shape[i].key == PropKeys(shape[1..])[i - 1];
    }
  }

  /** An object projects when each of its declared fields does. */
  lemma {:induction false} ShapeProjects(shape: seq<Prop>, source: Value, lenient: string -> Option<int>)
    ensures ProjectShape(shape, source, lenient).Some?
      <==> forall i :: 0 <= i < |shape| ==> Project(shape[i].schema, Property(source, shape[i].key), lenient).Shaped?
    decreases shape
  {
    if shape != [] {
      ShapeProjects(shape[1..], source, lenient);
      assert shape == [shape[0]] + shape[1..];
    }
  }

  lemma {:induction false} ItemsProject(item: Schema, items: seq<Value>, lenient: string -> Option<int>)
    ensures ProjectItems(item, items, lenient).Some?
      <==> forall i :: 0 <= i < |items| ==> Project(item, items[i], lenient).Shaped?
    ensures var r := ProjectItems(item, items, lenient);
      r.Some? ==> |r.value| == |items| && forall i :: 0 <= i < |items| ==>
        Project(item, items[i], lenient) == Shaped(r.value[i])
    decreases |items|
  {
    if items != [] {
      ItemsProject(item, items[1..], lenient);
      assert items == [items[0]] + items[1..];
    }
  }

  predicate NoForbidden(entries: seq<Field>) {
    forall i :: 0 <= i < |entries| ==> entries[i].key !in FORBIDDEN_KEYS
  }

  lemma {:induction false} EntriesProject(value: Schema, entries: seq<Field>, lenient: string -> Option<int>)
    requires NoForbidden(entries)
    ensures ProjectEntries(value, entries, lenient).Some?
      <==> forall i :: 0 <= i < |entries| ==> Project(value, entries[i].value, lenient).Shaped?
    ensures var r := ProjectEntries(value, entries, lenient);
      r.Some? ==> |r.value| == |entries| && forall i :: 0 <= i < |entries| ==>
        r.value[i].key == entries[i].key && Project(value, entries[i].value, lenient) == Shaped(r.value[i].value)
    decreases |entries|
  {
    if entries != [] {
      EntriesProject(value, entries[1..], lenient);
      assert entries == [entries[0]] + entries[1..];
    }
  }

  // ----- JSON survives

  lemma {:induction false} JsonUnchanged(l: JsonLimits, v: Value, depth: int)
    requires BoundedJson(l, v, depth)
    ensures Jsonify(v) == v
    decreases v, 1
  {
    match v
    case Arr(items) => JsonItemsUnchanged(l, items, depth - 1);
    case Obj(fields) => JsonFieldsUnchanged(l, fields, depth - 1);
    case _ =>
  }

  lemma {:induction false} JsonItemsUnchanged(l: JsonLimits, items: seq<Value>, depth: int)
    requires forall i :: 0 <= i < |items| ==> BoundedJson(l, items[i], depth)
    ensures JsonifyItems(items) == items
    decreases items, 0
  {
    if items != [] {
      JsonUnchanged(l, items[0], depth);
      JsonItemsUnchanged(l, items[1..], depth);
    }
  }

  lemma {:induction false} JsonFieldsUnchanged(l: JsonLimits, fields: seq<Field>, depth: int)
    requires forall i :: 0 <= i < |fields| ==> BoundedJson(l, fields[i].value, depth)
    ensures JsonifyFields(fields) == fields
    decreases fields, 0
  {
    if fields != [] {
      JsonUnchanged(l, fields[0].value, depth);
      JsonFieldsUnchanged(l, fields[1..], depth);
    }
  }

  lemma {:induction false} JsonifyTwice(v: Value)
    ensures Jsonify(Jsonify(v)) == Jsonify(v)
    ensures Jsonify(v).Undefined? <==> v.Undefined?
    decreases v, 1
  {
    match v
    case Arr(items) => JsonifyItemsTwice(items);
    case Obj(fields) => JsonifyFieldsTwice(fields);
    case _ =>
  }

  lemma {:induction false} JsonifyItemsTwice(items: seq<Value>)
    ensures JsonifyItems(JsonifyItems(items)) == JsonifyItems(items)
    decreases items, 0
  {
    if items != [] {
      JsonifyTwice(items[0]);
      JsonifyItemsTwice(items[1..]);
      assert JsonifyItems(items)[1..] == JsonifyItems(items[1..]);
    }
  }

  lemma {:induction false} JsonifyFieldsTwice(fields: seq<Field>)
    ensures JsonifyFields(JsonifyFields(fields)) == JsonifyFields(fields)
    decreases fields, 0
  {
    if fields != [] {
      JsonifyTwice(fields[0].value);
      JsonifyFieldsTwice(fields[1..]);
      if fields[0].value.Undefined? {
        assert JsonifyFields(fields) == JsonifyFields(fields[1..]);
      } else {
        assert JsonifyFields(fields)[1..] == JsonifyFields(fields[1..]);
      }
    }
  }

  // ----- what the parser accepts, the server can answer

  lemma {:induction false} ParsedItemAt(item: Schema, items: seq<Value>, i: nat)
    requires i < |items|
    ensures ParsedItems(item, items)[i] == Parsed(item, items[i])
    decreases i
  {
    if i > 0 { ParsedItemAt(item, items[1..], i - 1); }
  }

  lemma {:induction false} ParsedEntryAt(value: Schema, fields: seq<Field>, i: nat)
    requires i < |fields|
    ensures ParsedEntries(value, fields)[i] == Field(fields[i].key, Parsed(value, fields[i].value))
    decreases i
  {
    if i > 0 { ParsedEntryAt(value, fields[1..], i - 1); }
  }

  lemma {:induction false} LookupIsJson(fields: seq<Field>, key: string)
    requires forall i :: 0 <= i < |fields| ==> IsJson(fields[i].value)
    ensures Lookup(fields, key).Undefined? || IsJson(Lookup(fields, key))
  {
    if fields != [] && fields[0].key != key { LookupIsJson(fields[1..], key); }
  }

  lemma LeafAnswers(s: Schema, v: Value, lenient: string -> Option<int>)
    requires !Composite(s) && Accepts(s, v)
    ensures Project(s, Parsed(s, v), lenient).Shaped? && Same(s, v, Project(s, Parsed(s, v), lenient).value)
  {
    if s.JsonOf? { JsonUnchanged(s.limits, v, s.limits.maxDepth); }
  }

  /** Every value the parser accepts is answered unchanged by projecting what it parsed to, but for the writing of dates
      (and the order of object fields). */
  lemma {:induction false} AcceptedIsAnswered(s: Schema, v: Value, lenient: string -> Option<int>)
    requires WellFormed(s) && Accepts(s, v) && (v.Undefined? || IsJson(v))
    ensures Project(s, Parsed(s, v), lenient).Shaped? && Same(s, v, Project(s, Parsed(s, v), lenient).value)
    decreases s
  {
    if s.OptionalOf? {
      if !v.Undefined? {
        AcceptedIsAnswered(s.inner, v, lenient);
        ParsedPresence(s.inner, v);
      }
    } else if s.NullableOf? {
      if !v.Null? { NullableAnswered(s, v, lenient); }
    } else if s.ArrayOf? {
      ArrayAnswered(s, v, lenient);
    } else if s.ObjectOf? {
      ObjectAnswered(s, v, lenient);
    } else if s.RecordOf? {
      RecordAnswered(s, v, lenient);
    } else {
      LeafAnswers(s, v, lenient);
    }
  }

  /** Something that is there is not parsed away. */
  lemma {:induction false} ParsedPresence(s: Schema, v: Value)
    requires Accepts(s, v)
    ensures Parsed(s, v).Undefined? <==> v.Undefined?
    ensures Parsed(s, v).Null? ==> v.Null?
    decreases s
  {
    if s.OptionalOf? || s.NullableOf? {
      if Accepts(s.inner, v) { ParsedPresence(s.inner, v); }
    }
  }

  lemma NullableAnswered(s: Schema, v: Value, lenient: string -> Option<int>)
    requires s.NullableOf? && !v.Null?
    requires WellFormed(s) && Accepts(s, v) && (v.Undefined? || IsJson(v))
    ensures Project(s, Parsed(s, v), lenient).Shaped? && Same(s, v, Project(s, Parsed(s, v), lenient).value)
    decreases s, 0
  {
    AcceptedIsAnswered(s.inner, v, lenient);
    ParsedPresence(s.inner, v);
  }

  lemma ArrayAnswered(s: Schema, v: Value, lenient: string -> Option<int>)
    requires s.ArrayOf? && WellFormed(s) && Accepts(s, v) && IsJson(v)
    ensures Project(s, Parsed(s, v), lenient).Shaped? && Same(s, v, Project(s, Parsed(s, v), lenient).value)
    decreases s, 0
  {
    var items := ParsedItems(s.item, v.items);
    forall i | 0 <= i < |items|
      ensures Project(s.item, items[i], lenient).Shaped?
        && Same(s.item, v.items[i], Project(s.item, items[i], lenient).value)
    {
      ParsedItemAt(s.item, v.items, i);
      AcceptedIsAnswered(s.item, v.items[i], lenient);
    }
    ItemsProject(s.item, items, lenient);
  }

  lemma RecordAnswered(s: Schema, v: Value, lenient: string -> Option<int>)
    requires s.RecordOf? && WellFormed(s) && Accepts(s, v) && IsJson(v)
    ensures Project(s, Parsed(s, v), lenient).Shaped? && Same(s, v, Project(s, Parsed(s, v), lenient).value)
    decreases s, 0
  {
    var fields := ParsedEntries(s.value, v.fields);
    forall i | 0 <= i < |fields|
      ensures fields[i].key == v.fields[i].key && fields[i].key !in FORBIDDEN_KEYS
      ensures Project(s.value, fields[i].value, lenient).Shaped?
        && Same(s.value, v.fields[i].value, Project(s.value, fields[i].value, lenient).value)
    {
      ParsedEntryAt(s.value, v.fields, i);
      AcceptedIsAnswered(s.value, v.fields[i].value, lenient);
    }
    EntriesProject(s.value, fields, lenient);
  }

  lemma ObjectAnswered(s: Schema, v: Value, lenient: string -> Option<int>)
    requires s.ObjectOf? && WellFormed(s) && Accepts(s, v) && IsJson(v)
    ensures Project(s, Parsed(s, v), lenient).Shaped? && Same(s, v, Project(s, Parsed(s, v), lenient).value)
    decreases s, 0
  {
    var source := Parsed(s, v);
    forall i | 0 <= i < |s.shape|
      ensures var p := Project(s.shape[i].schema, Property(source, s.shape[i].key), lenient);
        p.Shaped? && Same(s.shape[i].schema, Lookup(v.fields, s.shape[i].key), p.value)
    {
      ParsedLookup(s.shape, v.fields, s.shape[i].key);
      LookupIsJson(v.fields, s.shape[i].key);
      AcceptedIsAnswered(s.shape[i].schema, Lookup(v.fields, s.shape[i].key), lenient);
    }
    ShapeProjects(s.shape, source, lenient);
    var fields := ProjectShape(s.shape, source, lenient).value;
    forall i | 0 <= i < |s.shape|
      ensures Same(s.shape[i].schema, Lookup(v.fields, s.shape[i].key), Lookup(fields, s.shape[i].key))
    {
      ProjectedLookup(s.shape, source, lenient, s.shape[i].key);
    }
    ProjectedLookup(s.shape, source, lenient, "");
  }

  // ----- projecting twice

  /** Every date the answer carries is an instant of the years 0000 to 9999. */
  ghost predicate InFourDigitYears(s: Schema, w: Value) {
    match s
    case OptionalOf(inner) => w.Undefined? || InFourDigitYears(inner, w)
    case NullableOf(inner) => w.Null? || InFourDigitYears(inner, w)
    case DateOf => exists ms :: FourDigitYear(ms) && w == Str(IsoText(ms))
    case ArrayOf(item, _, _) => w.Arr? ==> forall i :: 0 <= i < |w.items| ==> InFourDigitYears(item, w.items[i])
    case ObjectOf(shape) =>
      w.Obj? ==> forall i :: 0 <= i < |shape| ==> InFourDigitYears(shape[i].schema, Lookup(w.fields, shape[i].key))
    case RecordOf(value, _, _) =>
      w.Obj? ==> forall i :: 0 <= i < |w.fields| ==> InFourDigitYears(value, w.fields[i].value)
    case _ => true
  }

  lemma LeafTwice(s: Schema, x: Value, lenient: string -> Option<int>)
    requires !Composite(s) && Project(s, x, lenient).Shaped?
    ensures var w := Project(s, x, lenient).value;
      Project(s, w, lenient) == if InFourDigitYears(s, w) then Shaped(w) else ShapeError
  {
    if s.DateOf? {
      var t := TimeOf(x, lenient).value;
      if FourDigitYear(t) {
        IsoTextReadsBack(t);
      } else {
        SignedYearIsRefused(t);
        forall ms | FourDigitYear(ms) ensures IsoText(ms) != IsoText(t) { IsoTextReadsBack(ms); }
      }
    } else if s.JsonOf? {
      JsonifyTwice(x);
    }
  }

  /** Projecting an answer again changes nothing exactly when its dates lie in the years 0000 to 9999; otherwise it
      fails. */
  lemma {:induction false} ProjectTwice(s: Schema, x: Value, lenient: string -> Option<int>)
    requires WellFormed(s) && Project(s, x, lenient).Shaped?
    ensures var w := Project(s, x, lenient).value;
      Project(s, w, lenient) == if InFourDigitYears(s, w) then Shaped(w) else ShapeError
    decreases s
  {
    if s.OptionalOf? {
      if !x.Undefined? { ProjectTwice(s.inner, x, lenient); }
    } else if s.NullableOf? {
      if !x.Null? { ProjectTwice(s.inner, x, lenient); }
    } else if s.ArrayOf? {
      ArrayTwice(s, x, lenient);
    } else if s.ObjectOf? {
      ObjectTwice(s, x, lenient);
    } else if s.RecordOf? {
      RecordTwice(s, x, lenient);
    } else {
      LeafTwice(s, x, lenient);
    }
  }

  /** A date after the year 9999 is projected once and not a second time. */
  lemma FarDateFails(ms: int, lenient: string -> Option<int>)
    requires !FourDigitYear(ms)
    ensures Project(DateOf, Date(ms), lenient) == Shaped(Str(IsoText(ms)))
    ensures Project(DateOf, Str(IsoText(ms)), lenient) == ShapeError
  {
    LeafTwice(DateOf, Date(ms), lenient);
    SignedYearIsRefused(ms);
    forall t | FourDigitYear(t) ensures IsoText(t) != IsoText(ms) { IsoTextReadsBack(t); }
  }

  /** The first instant of the year 10000 is such a date. */
  lemma Year10000(lenient: string -> Option<int>)
    ensures var ms := DayNumber(Day(10000, 1, 1)) * MS_PER_DAY;
      && Project(DateOf, Date(ms), lenient) == Shaped(Str(IsoText(ms)))
      && Project(DateOf, Str(IsoText(ms)), lenient) == ShapeError
  {
    var day := Day(10000, 1, 1);
    MidnightOf(day);
    FarDateFails(DayNumber(day) * MS_PER_DAY, lenient);
  }

  lemma MidnightOf(day: Day)
    requires Exists(day)
    ensures FourDigitYear(DayNumber(day) * MS_PER_DAY) <==> 0 <= day.year <= 9999
  {
    var n := DayNumber(day);
    DayOfNumberExact(day, n);
    assert n * MS_PER_DAY / MS_PER_DAY == n;
  }

  lemma ArrayTwice(s: Schema, x: Value, lenient: string -> Option<int>)
    requires s.ArrayOf? && WellFormed(s) && Project(s, x, lenient).Shaped?
    ensures var w := Project(s, x, lenient).value;
      Project(s, w, lenient) == if InFourDigitYears(s, w) then Shaped(w) else ShapeError
    decreases s, 0
  {
    var ws := ProjectItems(s.item, x.items, lenient).value;
    ItemsProject(s.item, x.items, lenient);
    forall i | 0 <= i < |ws|
      ensures Project(s.item, ws[i], lenient) == if InFourDigitYears(s.item, ws[i]) then Shaped(ws[i]) else ShapeError
    {
      ProjectTwice(s.item, x.items[i], lenient);
    }
    ItemsProject(s.item, ws, lenient);
    if InFourDigitYears(s, Arr(ws)) {
      assert ProjectItems(s.item, ws, lenient).value == ws;
    }
  }

  lemma {:induction false} EntriesWithoutForbidden(value: Schema, entries: seq<Field>, lenient: string -> Option<int>)
    requires ProjectEntries(value, entries, lenient).Some?
    ensures NoForbidden(ProjectEntries(value, entries, lenient).value)
    ensures forall j :: 0 <= j < |ProjectEntries(value, entries, lenient).value| ==>
      exists i :: 0 <= i < |entries| &&
        Project(value, entries[i].value, lenient) == Shaped(ProjectEntries(value, entries, lenient).value[j].value)
    decreases |entries|
  {
    if entries != [] {
      var rest := entries[1..];
      EntriesWithoutForbidden(value, rest, lenient);
      var all, left := ProjectEntries(value, entries, lenient).value, ProjectEntries(value, rest, lenient).value;
      forall j | 0 <= j < |all|
        ensures exists i :: 0 <= i < |entries| && Project(value, entries[i].value, lenient) == Shaped(all[j].value)
      {
        if entries[0].key in FORBIDDEN_KEYS {
          var i :| 0 <= i < |rest| && Project(value, rest[i].value, lenient) == Shaped(all[j].value);
          assert entries[i + 1] == rest[i];
        } else if j > 0 {
          var i :| 0 <= i < |rest| && Project(value, rest[i].value, lenient) == Shaped(left[j - 1].value);
          assert entries[i + 1] == rest[i];
        } else {
          assert Project(value, entries[0].value, lenient) == Shaped(all[0].value);
        }
      }
    }
  }

  lemma RecordTwice(s: Schema, x: Value, lenient: string -> Option<int>)
    requires s.RecordOf? && WellFormed(s) && Project(s, x, lenient).Shaped?
    ensures var w := Project(s, x, lenient).value;
      Project(s, w, lenient) == if InFourDigitYears(s, w) then Shaped(w) else ShapeError
    decreases s, 0
  {
    var ws := ProjectEntries(s.value, Entries(x), lenient).value;
    EntriesWithoutForbidden(s.value, Entries(x), lenient);
    forall j | 0 <= j < |ws|
      ensures Project(s.value, ws[j].value, lenient)
        == if InFourDigitYears(s.value, ws[j].value) then Shaped(ws[j].value) else ShapeError
    {
      var i :| 0 <= i < |Entries(x)| && Project(s.value, Entries(x)[i].value, lenient) == Shaped(ws[j].value);
      ProjectTwice(s.value, Entries(x)[i].value, lenient);
    }
    EntriesProject(s.value, ws, lenient);
    if InFourDigitYears(s, Obj(ws)) {
      assert ProjectEntries(s.value, ws, lenient).value == ws;
    }
  }

  /** The fields of an answer depend only on what its declared properties project to. */
  lemma {:induction false} ShapeDependsOnProperties(shape: seq<Prop>, x: Value, y: Value,
                                                    lenient: string -> Option<int>)
    requires forall i :: 0 <= i < |shape| ==>
      Project(shape[i].schema, Property(x, shape[i].key), lenient)
        == Project(shape[i].schema, Property(y, shape[i].key), lenient)
    ensures ProjectShape(shape, x, lenient) == ProjectShape(shape, y, lenient)
    decreases shape
  {
    if shape != [] {
      assert forall i :: 0 <= i < |shape| - 1 ==> shape[1..][i] == shape[i + 1];
      ShapeDependsOnProperties(shape[1..], x, y, lenient);
    }
  }

  lemma ObjectTwice(s: Schema, x: Value, lenient: string -> Option<int>)
    requires s.ObjectOf? && WellFormed(s) && Project(s, x, lenient).Shaped?
    ensures var w := Project(s, x, lenient).value;
      Project(s, w, lenient) == if InFourDigitYears(s, w) then Shaped(w) else ShapeError
    decreases s, 0
  {
    var ws := ProjectShape(s.shape, x, lenient).value;
    var w := Obj(ws);
    ShapeProjects(s.shape, x, lenient);
    forall i | 0 <= i < |s.shape|
      ensures var v := Lookup(ws, s.shape[i].key);
        && Project(s.shape[i].schema, Property(x, s.shape[i].key), lenient) == Shaped(v)
        && Project(s.shape[i].schema, v, lenient)
           == (if InFourDigitYears(s.shape[i].schema, v) then Shaped(v) else ShapeError)
    {
      ProjectedLookup(s.shape, x, lenient, s.shape[i].key);
      ProjectTwice(s.shape[i].schema, Property(x, s.shape[i].key), lenient);
    }
    ShapeProjects(s.shape, w, lenient);
    if InFourDigitYears(s, w) {
      ShapeDependsOnProperties(s.shape, w, x, lenient);
    }
  }
}
