/** Which results the server can answer under a schema, and what the answer then is (`project` in
    `packages/server/src/schema.ts`), without the projection itself. */
module ProjectionFit {
  import opened Wrappers
  import opened Moments
  import opened MomentTexts
  import opened Schemas
  import opened Projection

  /** The text names a day and a time that exist, or `Date.parse` gets over it. */
  ghost predicate Readable(s: string, lenient: string -> Option<int>) {
    ReadStamp(s).Some?
    && ((Exists(ReadStamp(s).value.day) && TimeExists(ReadStamp(s).value)) || lenient(s).Some?)
  }

  /** The result has what the schema declares, each part of the declared kind. Limits on lengths and numbers are not
      looked at, and what is not declared does not matter. */
  ghost predicate Answerable(s: Schema, v: Value, lenient: string -> Option<int>) {
    match s
    case OptionalOf(inner) => v.Undefined? || Answerable(inner, v, lenient)
    case NullableOf(inner) => v.Null? || Answerable(inner, v, lenient)
    case StringOf(_, _, _) => v.Str?
    case IntOf(_, _) => v.Num? && v.n.Finite?
    case BoolOf => v.Bool?
    case DateOf => v.Date? || (v.Str? && Readable(v.s, lenient))
    case EnumOf(values) => v.Str? && v.s in values
    case ArrayOf(item, _, _) => v.Arr? && forall i :: 0 <= i < |v.items| ==> Answerable(item, v.items[i], lenient)
    case ObjectOf(shape) =>
      IsObject(v)
      && forall i :: 0 <= i < |shape| ==> Answerable(shape[i].schema, Property(v, shape[i].key), lenient)
    case RecordOf(value, _, _) =>
      IsObject(v)
      && forall i :: 0 <= i < |Allowed(Entries(v))| ==> Answerable(value, Allowed(Entries(v))[i].value, lenient)
    case JsonOf(_) => true
  }

  /** The entries of a record that are not dropped for their names. */
  function Allowed(entries: seq<Field>): seq<Field> {
    if entries == [] then []
    else (if entries[0].key in FORBIDDEN_KEYS then [] else [entries[0]]) + Allowed(entries[1..])
  }

  /** The entries of an object that JSON can write. */
  function Defined(fields: seq<Field>): (defined: seq<Field>)
    ensures forall f :: f in defined ==> f in fields
  {
    if fields == [] then []
    else (if fields[0].value.Undefined? then [] else [fields[0]]) + Defined(fields[1..])
  }

  // ----- what an answer looks like

  /** Nothing but JSON, with finite numbers. */
  predicate PlainJson(w: Value) {
    match w
    case Null => true
    case Bool(_) => true
    case Str(_) => true
    case Num(n) => n.Finite?
    case Arr(items) => forall i :: 0 <= i < |items| ==> PlainJson(items[i])
    case Obj(fields) => forall i :: 0 <= i < |fields| ==> PlainJson(fields[i].value)
    case _ => false
  }

  /** The answer is of the declared kind: an object has declared fields alone, none twice, and lacks at most optional
      ones; dates are written as text. */
  ghost predicate Conforms(s: Schema, w: Value) {
    match s
    case OptionalOf(inner) => w.Undefined? || Conforms(inner, w)
    case NullableOf(inner) => w.Null? || Conforms(inner, w)
    case StringOf(_, _, _) => w.Str?
    case IntOf(_, _) => w.Num? && w.n.Finite?
    case BoolOf => w.Bool?
    case DateOf => w.Str? && exists ms :: w.s == IsoText(ms)
    case EnumOf(values) => w.Str? && w.s in values
    case ArrayOf(item, _, _) => w.Arr? && forall i :: 0 <= i < |w.items| ==> Conforms(item, w.items[i])
    case ObjectOf(shape) =>
      w.Obj? && KeysOf(w.fields) == Present(shape, w.fields)
      && forall i :: 0 <= i < |shape| ==> Conforms(shape[i].schema, Lookup(w.fields, shape[i].key))
    case RecordOf(value, _, _) =>
      w.Obj? && NoForbidden(w.fields) && forall i :: 0 <= i < |w.fields| ==> Conforms(value, w.fields[i].value)
    case JsonOf(_) => w.Undefined? || PlainJson(w)
  }

  /** The declared names that are there, in the order of their declaration. */
  function Present(shape: seq<Prop>, fields: seq<Field>): seq<string> {
    if shape == [] then []
    else (if Lookup(fields, shape[0].key).Undefined? then [] else [shape[0].key]) + Present(shape[1..], fields)
  }

  // ----- what it says

  /** The answer is the moment of `v`, written in UTC: the instant of a date, or the one whose date and time the text
      shows. */
  ghost predicate Dated(v: Value, w: Value, lenient: string -> Option<int>) {
    w.Str?
    && (v.Date? ==> w.s == IsoText(v.ms))
    && (v.Str? && ReadStamp(v.s).Some? ==>
          if Exists(ReadStamp(v.s).value.day) && TimeExists(ReadStamp(v.s).value)
          then |v.s| >= 20 && ZoneWritten(v.s) && exists ms :: w.s == IsoText(ms) && ShowsAt(v.s, ms)
          else lenient(v.s).Some? && w.s == IsoText(lenient(v.s).value))
  }

  /** What `JSON.stringify` leaves of a value. */
  ghost predicate WrittenAs(v: Value, w: Value) {
    match v
    case Num(n) => w == if n.Finite? then v else Null
    case Date(ms) => w == Str(IsoText(ms))
    case InvalidDate => w == Null
    case Arr(items) =>
      w.Arr? && |w.items| == |items|
      && forall i :: 0 <= i < |items| ==>
        if items[i].Undefined? then w.items[i] == Null else WrittenAs(items[i], w.items[i])
    case Obj(fields) =>
      w.Obj? && |w.fields| == |Defined(fields)|
      && forall i :: 0 <= i < |w.fields| ==>
        w.fields[i].key == Defined(fields)[i].key && Defined(fields)[i] in fields
        && WrittenAs(Defined(fields)[i].value, w.fields[i].value)
    case _ => w == v
  }

  /** The answer `w` says what the result `v` says, and no more than the schema declares. */
  ghost predicate Says(s: Schema, v: Value, w: Value, lenient: string -> Option<int>) {
    match s
    case OptionalOf(inner) => if v.Undefined? then w.Undefined? else Says(inner, v, w, lenient)
    case NullableOf(inner) => if v.Null? then w.Null? else Says(inner, v, w, lenient)
    case DateOf => Dated(v, w, lenient)
    case ArrayOf(item, _, _) =>
      v.Arr? && w.Arr? && |v.items| == |w.items|
      && forall i :: 0 <= i < |v.items| ==> Says(item, v.items[i], w.items[i], lenient)
    case ObjectOf(shape) =>
      w.Obj? && forall i :: 0 <= i < |shape| ==>
        Says(shape[i].schema, Property(v, shape[i].key), Lookup(w.fields, shape[i].key), lenient)
    case RecordOf(value, _, _) =>
      w.Obj? && |w.fields| == |Allowed(Entries(v))|
      && forall i :: 0 <= i < |w.fields| ==>
        w.fields[i].key == Allowed(Entries(v))[i].key
        && Says(value, Allowed(Entries(v))[i].value, w.fields[i].value, lenient)
    case JsonOf(_) => WrittenAs(v, w)
    case _ => w == v
  }

  // ----- records

  lemma {:induction false} AllowedExact(entries: seq<Field>)
    ensures NoForbidden(Allowed(entries))
    decreases |entries|
  {
    if entries != [] { AllowedExact(entries[1..]); }
  }

  lemma {:induction false} ForbiddenAreSkipped(value: Schema, entries: seq<Field>, lenient: string -> Option<int>)
    ensures ProjectEntries(value, entries, lenient) == ProjectEntries(value, Allowed(entries), lenient)
    decreases |entries|
  {
    if entries != [] {
      ForbiddenAreSkipped(value, entries[1..], lenient);
      if entries[0].key in FORBIDDEN_KEYS {
        assert Allowed(entries) == Allowed(entries[1..]);
      } else {
        assert Allowed(entries)[1..] == Allowed(entries[1..]);
      }
    }
  }

  // ----- which results can be answered

  lemma LeafAnswerable(s: Schema, v: Value, lenient: string -> Option<int>)
    requires !Composite(s)
    ensures Project(s, v, lenient).Shaped? <==> Answerable(s, v, lenient)
  {
  }

  /** A result is answered if and only if it has what the schema declares; otherwise the projection fails. */
  lemma {:induction false} AnsweredIffAnswerable(s: Schema, v: Value, lenient: string -> Option<int>)
    ensures Project(s, v, lenient).Shaped? <==> Answerable(s, v, lenient)
    decreases s
  {
    if s.OptionalOf? {
      if !v.Undefined? { AnsweredIffAnswerable(s.inner, v, lenient); }
    } else if s.NullableOf? {
      if !v.Null? { AnsweredIffAnswerable(s.inner, v, lenient); }
    } else if s.ArrayOf? {
      if v.Arr? {
        forall i | 0 <= i < |v.items|
          ensures Project(s.item, v.items[i], lenient).Shaped? <==> Answerable(s.item, v.items[i], lenient)
        {
          AnsweredIffAnswerable(s.item, v.items[i], lenient);
        }
        ItemsProject(s.item, v.items, lenient);
      }
    } else if s.ObjectOf? {
      forall i | 0 <= i < |s.shape|
        ensures Project(s.shape[i].schema, Property(v, s.shape[i].key), lenient).Shaped?
          <==> Answerable(s.shape[i].schema, Property(v, s.shape[i].key), lenient)
      {
        AnsweredIffAnswerable(s.shape[i].schema, Property(v, s.shape[i].key), lenient);
      }
      ShapeProjects(s.shape, v, lenient);
    } else if s.RecordOf? {
      RecordAnswerable(s, v, lenient);
    } else {
      LeafAnswerable(s, v, lenient);
    }
  }

  lemma RecordAnswerable(s: Schema, v: Value, lenient: string -> Option<int>)
    requires s.RecordOf?
    ensures Project(s, v, lenient).Shaped? <==> Answerable(s, v, lenient)
    decreases s, 0
  {
    var es := Allowed(Entries(v));
    forall i | 0 <= i < |es|
      ensures Project(s.value, es[i].value, lenient).Shaped? <==> Answerable(s.value, es[i].value, lenient)
    {
      AnsweredIffAnswerable(s.value, es[i].value, lenient);
    }
    AllowedExact(Entries(v));
    ForbiddenAreSkipped(s.value, Entries(v), lenient);
    EntriesProject(s.value, es, lenient);
  }

  // ----- free-form values

  lemma {:induction false} JsonifyWrites(v: Value)
    ensures WrittenAs(v, Jsonify(v))
    ensures if v.Undefined? then Jsonify(v).Undefined? else PlainJson(Jsonify(v))
    decreases v, 1
  {
    match v
    case Arr(items) => JsonifyItemsWrite(items);
    case Obj(fields) => JsonifyFieldsWrite(fields);
    case _ =>
  }

  lemma {:induction false} JsonifyItemsWrite(items: seq<Value>)
    ensures |JsonifyItems(items)| == |items|
    ensures forall i :: 0 <= i < |items| ==>
      PlainJson(JsonifyItems(items)[i])
      && if items[i].Undefined? then JsonifyItems(items)[i] == Null else WrittenAs(items[i], JsonifyItems(items)[i])
    decreases items, 0
  {
    if items != [] {
      JsonifyWrites(items[0]);
      JsonifyItemsWrite(items[1..]);
      assert items == [items[0]] + items[1..];
    }
  }

  lemma {:induction false} JsonifyFieldsWrite(fields: seq<Field>)
    ensures |JsonifyFields(fields)| == |Defined(fields)|
    ensures forall i :: 0 <= i < |Defined(fields)| ==>
      PlainJson(JsonifyFields(fields)[i].value) && JsonifyFields(fields)[i].key == Defined(fields)[i].key
      && WrittenAs(Defined(fields)[i].value, JsonifyFields(fields)[i].value)
    decreases fields, 0
  {
    if fields != [] {
      JsonifyFieldsWrite(fields[1..]);
      if fields[0].value.Undefined? {
        assert Defined(fields) == Defined(fields[1..]) && JsonifyFields(fields) == JsonifyFields(fields[1..]);
      } else {
        JsonifyWrites(fields[0].value);
        assert Defined(fields) == [fields[0]] + Defined(fields[1..]);
        assert JsonifyFields(fields) == [Field(fields[0].key, Jsonify(fields[0].value))] + JsonifyFields(fields[1..]);
      }
    }
  }

  // ----- objects

  /** Fields in front whose names are not declared do not change which declared ones are there. */
  lemma {:induction false} PresentDepends(shape: seq<Prop>, a: seq<Field>, b: seq<Field>)
    requires forall i :: 0 <= i < |shape| ==> Lookup(a, shape[i].key) == Lookup(b, shape[i].key)
    ensures Present(shape, a) == Present(shape, b)
    decreases |shape|
  {
    if shape != [] {
      assert forall i :: 0 <= i < |shape| - 1 ==> shape[1..][i] == shape[i + 1];
      PresentDepends(shape[1..], a, b);
    }
  }

  lemma {:induction false} ProjectedKeys(shape: seq<Prop>, source: Value, lenient: string -> Option<int>)
    requires Distinct(PropKeys(shape)) && ProjectShape(shape, source, lenient).Some?
    ensures var fields := ProjectShape(shape, source, lenient).value;
      KeysOf(fields) == Present(shape, fields)
    decreases |shape|
  {
    if shape != [] {
      DistinctTail(shape);
      ProjectedKeys(shape[1..], source, lenient);
      ProjectedLookup(shape, source, lenient, shape[0].key);
      var rest := ProjectShape(shape[1..], source, lenient).value;
      var all := ProjectShape(shape, source, lenient).value;
      var p := Project(shape[0].schema, Property(source, shape[0].key), lenient).value;
      PropKeysOf(shape[1..]);
      forall i | 0 <= i < |shape[1..]| ensures Lookup(all, shape[1..][i].key) == Lookup(rest, shape[1..][i].key) {
        LookupCons(Field(shape[0].key, p), rest, shape[1..][i].key);
        assert PropKeys(shape[1..])[i] != shape[0].key;
        assert [] + rest == rest;
      }
      PresentDepends(shape[1..], all, rest);
      LookupCons(Field(shape[0].key, p), rest, shape[0].key);
      assert [] + rest == rest;
    }
  }

  // ----- the answer

  lemma TextShows(s: string, lenient: string -> Option<int>)
    requires ReadStamp(s).Some? && Exists(ReadStamp(s).value.day) && TimeExists(ReadStamp(s).value)
    ensures |s| >= 20 && ZoneWritten(s) && ParseDate(s, lenient).Some? && ShowsAt(s, ParseDate(s, lenient).value)
  {
    InstantShowsText(s, lenient);
  }

  lemma DateSays(v: Value, lenient: string -> Option<int>)
    requires TimeOf(v, lenient).Some?
    ensures Dated(v, Str(IsoText(TimeOf(v, lenient).value)), lenient)
  {
    if v.Str? && Exists(ReadStamp(v.s).value.day) && TimeExists(ReadStamp(v.s).value) {
      TextShows(v.s, lenient);
    }
  }

  lemma LeafSays(s: Schema, v: Value, lenient: string -> Option<int>)
    requires !Composite(s) && Project(s, v, lenient).Shaped?
    ensures var w := Project(s, v, lenient).value;
      Conforms(s, w) && Says(s, v, w, lenient)
  {
    if s.DateOf? {
      DateSays(v, lenient);
      assert Project(s, v, lenient).value == Str(IsoText(TimeOf(v, lenient).value));
    }
    if s.JsonOf? { JsonifyWrites(v); }
  }

  /** What is answered is of the declared kind and says what the result said. */
  lemma {:induction false} AnswerConforms(s: Schema, v: Value, lenient: string -> Option<int>)
    requires WellFormed(s) && Project(s, v, lenient).Shaped?
    ensures var w := Project(s, v, lenient).value;
      Conforms(s, w) && Says(s, v, w, lenient)
    decreases s
  {
    if s.OptionalOf? {
      if !v.Undefined? { AnswerConforms(s.inner, v, lenient); }
    } else if s.NullableOf? {
      if !v.Null? { AnswerConforms(s.inner, v, lenient); }
    } else if s.ArrayOf? {
      ItemsProject(s.item, v.items, lenient);
      forall i | 0 <= i < |v.items|
        ensures var w := Project(s.item, v.items[i], lenient).value;
          Conforms(s.item, w) && Says(s.item, v.items[i], w, lenient)
      {
        AnswerConforms(s.item, v.items[i], lenient);
      }
    } else if s.ObjectOf? {
      ObjectConforms(s, v, lenient);
    } else if s.RecordOf? {
      RecordConforms(s, v, lenient);
    } else {
      LeafSays(s, v, lenient);
    }
  }

  lemma ObjectConforms(s: Schema, v: Value, lenient: string -> Option<int>)
    requires s.ObjectOf? && WellFormed(s) && Project(s, v, lenient).Shaped?
    ensures var w := Project(s, v, lenient).value;
      Conforms(s, w) && Says(s, v, w, lenient)
    decreases s, 0
  {
    var fields := ProjectShape(s.shape, v, lenient).value;
    ProjectedKeys(s.shape, v, lenient);
    ShapeProjects(s.shape, v, lenient);
    forall i | 0 <= i < |s.shape|
      ensures var w := Lookup(fields, s.shape[i].key);
        Conforms(s.shape[i].schema, w) && Says(s.shape[i].schema, Property(v, s.shape[i].key), w, lenient)
    {
      ProjectedLookup(s.shape, v, lenient, s.shape[i].key);
      AnswerConforms(s.shape[i].schema, Property(v, s.shape[i].key), lenient);
    }
  }

  lemma RecordConforms(s: Schema, v: Value, lenient: string -> Option<int>)
    requires s.RecordOf? && WellFormed(s) && Project(s, v, lenient).Shaped?
    ensures var w := Project(s, v, lenient).value;
      Conforms(s, w) && Says(s, v, w, lenient)
    decreases s, 0
  {
    var es := Allowed(Entries(v));
    AllowedExact(Entries(v));
    ForbiddenAreSkipped(s.value, Entries(v), lenient);
    EntriesProject(s.value, es, lenient);
    forall i | 0 <= i < |es|
      ensures var w := Project(s.value, es[i].value, lenient).value;
        Conforms(s.value, w) && Says(s.value, es[i].value, w, lenient)
    {
      AnswerConforms(s.value, es[i].value, lenient);
    }
  }
}
