/** `toJsonSchema` (`packages/server/src/schema.ts`) against the meaning of the keywords it emits (JSON Schema
    Validation, draft 2020-12, section 6): which accepted values the published description lets through. */
module JsonSchemas {
  import opened Wrappers
  import opened Moments
  import opened Schemas
  import opened Strings

  /** The names of `type`. `NoName` is the `undefined` that ends up in the list when the inner description has no
      type. */
  datatype TypeName = StringName | IntegerName | BooleanName | ArrayName | ObjectName | NullName | NoName

  /** The source of a regular expression, known by the texts a validator matches with it. */
  type Source = string -> bool

  /** A description: every keyword is optional, `types == []` is an absent `type`. */
  datatype Described = Described(
    types: seq<TypeName>, enumeration: Option<seq<string>>,
    maxLength: Option<nat>, minLength: Option<nat>, pattern: Option<Source>, dateTime: bool,
    minimum: Option<int>, maximum: Option<int>,
    items: Option<Described>, maxItems: Option<nat>, minItems: Option<nat>,
    properties: seq<Property>, required: seq<string>, closed: bool,
    maxProperties: Option<nat>, keyPattern: Option<Source>, others: Option<Described>)

  datatype Property = Property(key: string, described: Described)

  const ANYTHING :=
    Described([], None, None, None, None, false, None, None, None, None, None, [], [], false, None, None, None)

  // ----- what the keywords mean

  predicate HasType(t: TypeName, v: Value) {
    match t
    case StringName => v.Str?
    case IntegerName => v.Num? && IsInteger(v.n)
    case BooleanName => v.Bool?
    case ArrayName => v.Arr?
    case ObjectName => v.Obj?
    case NullName => v.Null?
    case NoName => false
  }

  /** Lengths count characters (section 6.3.1 and RFC 8259), not UTF-16 code units. */
  predicate TextValid(d: Described, s: string) {
    && (d.maxLength.Some? ==> |s| <= d.maxLength.value)
    && (d.minLength.Some? ==> |s| >= d.minLength.value)
    && (d.pattern.Some? ==> d.pattern.value(s))
    && (d.dateTime ==> ReadStamp(s).Some?)
  }

  predicate NumberValid(d: Described, n: Number) {
    n.Finite? ==>
      && (d.minimum.Some? ==> n.value >= d.minimum.value as real)
      && (d.maximum.Some? ==> n.value <= d.maximum.value as real)
  }

  function DescribedKeys(ps: seq<Property>): seq<string> {
    if ps == [] then [] else [ps[0].key] + DescribedKeys(ps[1..])
  }

  predicate TypeValid(d: Described, v: Value) {
    (d.types != [] ==> exists t :: t in d.types && HasType(t, v))
    && (d.enumeration.Some? ==> v.Str? && v.s in d.enumeration.value)
  }

  ghost predicate Valid(d: Described, v: Value)
    decreases d, 1
  {
    TypeValid(d, v) && BodyValid(d, v)
  }

  /** The keywords that speak about one kind of value. */
  ghost predicate BodyValid(d: Described, v: Value)
    decreases d, 0
  {
    && (v.Str? ==> TextValid(d, v.s))
    && (v.Num? ==> NumberValid(d, v.n))
    && (v.Arr? ==>
          && (d.maxItems.Some? ==> |v.items| <= d.maxItems.value)
          && (d.minItems.Some? ==> |v.items| >= d.minItems.value)
          && (d.items.Some? ==> forall i :: 0 <= i < |v.items| ==> Valid(d.items.value, v.items[i])))
    && (v.Obj? ==>
          && (forall i :: 0 <= i < |d.properties| && d.properties[i].key in KeysOf(v.fields) ==>
                Valid(d.properties[i].described, Lookup(v.fields, d.properties[i].key)))
          && (forall k :: k in d.required ==> k in KeysOf(v.fields))
          && (d.closed ==> forall k :: k in KeysOf(v.fields) ==> k in DescribedKeys(d.properties))
          && (d.maxProperties.Some? ==> |v.fields| <= d.maxProperties.value)
          && (d.keyPattern.Some? ==> forall i :: 0 <= i < |v.fields| ==> d.keyPattern.value(v.fields[i].key))
          && (d.others.Some? ==> forall i :: 0 <= i < |v.fields| && v.fields[i].key !in DescribedKeys(d.properties) ==>
                Valid(d.others.value, v.fields[i].value)))
  }

  // ----- emitting

  /** `pattern.source` leaves the flags out. */
  function SourceOf(pattern: Option<Pattern>): Option<Source> {
    match pattern
    case Some(p) => Some(p.published)
    case None => None
  }

  function Convert(s: Schema): Described
    decreases s, 1
  {
    match s
    case OptionalOf(inner) => Convert(inner)
    case NullableOf(inner) =>
      var d := Convert(inner);
      d.(types := (if d.types == [] then [NoName] else d.types) + [NullName])
    case StringOf(min, max, pattern) =>
      ANYTHING.(types := [StringName], maxLength := Some(max), minLength := min, pattern := SourceOf(pattern))
    case IntOf(low, high) => ANYTHING.(types := [IntegerName], minimum := Some(low), maximum := Some(high))
    case BoolOf => ANYTHING.(types := [BooleanName])
    case DateOf => ANYTHING.(types := [StringName], dateTime := true)
    case EnumOf(values) => ANYTHING.(types := [StringName], enumeration := Some(values))
    case ArrayOf(item, least, most) =>
      ANYTHING.(types := [ArrayName], items := Some(Convert(item)), maxItems := Some(most), minItems := least)
    case ObjectOf(shape) =>
      ANYTHING.(types := [ObjectName], closed := true, properties := ConvertShape(shape),
                required := RequiredKeys(shape))
    case RecordOf(value, maxKeys, keyPattern) =>
      ANYTHING.(types := [ObjectName], maxProperties := Some(maxKeys), keyPattern := Some(keyPattern.published),
                others := Some(Convert(value)))
    case JsonOf(_) => ANYTHING
  }

  function ConvertShape(shape: seq<Prop>): (ps: seq<Property>)
    ensures |ps| == |shape|
    decreases shape, 0
  {
    if shape == [] then [] else [Property(shape[0].key, Convert(shape[0].schema))] + ConvertShape(shape[1..])
  }

  function RequiredKeys(shape: seq<Prop>): seq<string> {
    if shape == [] then [] else (if shape[0].schema.OptionalOf? then [] else [shape[0].key]) + RequiredKeys(shape[1..])
  }

  // ----- agreement

  /** The kind a chain of `optional` and `nullable` ends in. */
  function Core(s: Schema): Schema {
    match s
    case OptionalOf(inner) => Core(inner)
    case NullableOf(inner) => Core(inner)
    case _ => s
  }

  /** The description has no `type`: it is of a free-form value, possibly `optional`. */
  predicate Untyped(s: Schema) {
    s.JsonOf? || (s.OptionalOf? && Untyped(s.inner))
  }

  /** What an accepted value has to have beyond being accepted: texts long enough in characters, texts and keys that
      match the bare sources of their patterns, no null where an enumeration lists texts only, nothing but null where
      `nullable` is put around a free-form value, and every field that is not `optional` itself. */
  ghost predicate Fits(s: Schema, v: Value) {
    match s
    case OptionalOf(inner) => Fits(inner, v)
    case NullableOf(inner) => if v.Null? then !Core(inner).EnumOf? else !Untyped(inner) && Fits(inner, v)
    case StringOf(min, _, pattern) =>
      v.Str? ==> (min.Some? ==> |v.s| >= min.value) && (pattern.Some? ==> pattern.value.published(v.s))
    case ArrayOf(item, _, _) => v.Arr? ==> forall i :: 0 <= i < |v.items| ==> Fits(item, v.items[i])
    case ObjectOf(shape) => v.Obj? ==> forall i :: 0 <= i < |shape| ==> FieldFits(shape[i], v.fields)
    case RecordOf(value, _, keyPattern) =>
      v.Obj? ==> forall i :: 0 <= i < |v.fields| ==>
        keyPattern.published(v.fields[i].key) && Fits(value, v.fields[i].value)
    case _ => true
  }

  ghost predicate FieldFits(p: Prop, fields: seq<Field>) {
    if p.key in KeysOf(fields) then Fits(p.schema, Lookup(fields, p.key)) else p.schema.OptionalOf?
  }

  lemma {:induction false} LengthCounts(s: string)
    ensures |s| <= Length(s) <= 2 * |s|
    ensures (forall i :: 0 <= i < |s| ==> s[i] as int < 0x10000) ==> Length(s) == |s|
  {
    if s != "" { LengthCounts(s[1..]); }
  }

  lemma {:induction false} AbsentLookup(fields: seq<Field>, key: string)
    ensures key !in KeysOf(fields) ==> Lookup(fields, key).Undefined?
    ensures (forall i :: 0 <= i < |fields| ==> IsJson(fields[i].value)) && key in KeysOf(fields) ==>
      IsJson(Lookup(fields, key))
  {
    if fields != [] {
      assert KeysOf(fields) == [fields[0].key] + KeysOf(fields[1..]);
      AbsentLookup(fields[1..], key);
    }
  }

  lemma {:induction false} RequiredExact(shape: seq<Prop>, key: string)
    ensures key in RequiredKeys(shape)
      <==> exists i :: 0 <= i < |shape| && shape[i].key == key && !shape[i].schema.OptionalOf?
  {
    if shape != [] {
      RequiredExact(shape[1..], key);
      assert shape == [shape[0]] + shape[1..];
    }
  }

  lemma {:induction false} ConvertShapeAt(shape: seq<Prop>)
    ensures forall i :: 0 <= i < |shape| ==> ConvertShape(shape)[i] == Property(shape[i].key, Convert(shape[i].schema))
    ensures DescribedKeys(ConvertShape(shape)) == PropKeys(shape)
    decreases |shape|
  {
    if shape != [] {
      ConvertShapeAt(shape[1..]);
      assert ConvertShape(shape)[1..] == ConvertShape(shape[1..]);
    }
  }

  lemma LeafAgrees(s: Schema, v: Value)
    requires s.StringOf? || s.IntOf? || s.BoolOf? || s.DateOf? || s.EnumOf? || s.JsonOf?
    requires Accepts(s, v) && IsJson(v)
    ensures Valid(Convert(s), v) <==> Fits(s, v)
  {
    if v.Str? { LengthCounts(v.s); }
    if !s.JsonOf? { TypeFirst(Convert(s), v); }
  }

  lemma TypeFirst(d: Described, v: Value)
    requires d.types != [] && HasType(d.types[0], v)
    ensures exists t :: t in d.types && HasType(t, v)
  {
  }

  lemma {:induction false} CoreOfDescription(s: Schema)
    ensures Convert(s).enumeration.Some? <==> Core(s).EnumOf?
    ensures Convert(s).types == [] <==> Untyped(s)
  {
    if s.OptionalOf? || s.NullableOf? { CoreOfDescription(s.inner); }
  }

  lemma NullableTypes(d: Described, v: Value)
    ensures var n := d.(types := (if d.types == [] then [NoName] else d.types) + [NullName]);
      && (!v.Null? && d.types != [] ==> (TypeValid(n, v) <==> TypeValid(d, v)))
      && (!v.Null? && d.types == [] ==> !TypeValid(n, v))
      && (v.Null? ==> (TypeValid(n, v) <==> d.enumeration.None?))
  {
    var types := if d.types == [] then [NoName] else d.types;
    assert forall t :: t in types + [NullName] <==> t in types || t == NullName;
    assert NullName in types + [NullName];
    if v.Null? { assert HasType(NullName, v); }
  }

  lemma NullableBody(d: Described, types: seq<TypeName>, v: Value)
    ensures BodyValid(d.(types := types), v) <==> BodyValid(d, v)
    ensures v.Null? ==> BodyValid(d, v)
  {
  }

  /** For every schema, an accepted value is valid under the published description exactly when it fits. */
  lemma {:induction false} DescriptionAgrees(s: Schema, v: Value)
    requires Accepts(s, v) && IsJson(v)
    ensures Valid(Convert(s), v) <==> Fits(s, v)
    decreases s, 3
  {
    if s.OptionalOf? {
      DescriptionAgrees(s.inner, v);
    } else if s.NullableOf? {
      NullableAgrees(s, v);
    } else if s.ArrayOf? {
      ArrayAgrees(s, v);
    } else if s.ObjectOf? {
      ObjectAgrees(s, v);
    } else if s.RecordOf? {
      RecordAgrees(s, v);
    } else {
      LeafAgrees(s, v);
    }
  }

  lemma NullableAgrees(s: Schema, v: Value)
    requires s.NullableOf? && Accepts(s, v) && IsJson(v)
    ensures Valid(Convert(s), v) <==> Fits(s, v)
    decreases s, 0
  {
    var d := Convert(s.inner);
    CoreOfDescription(s.inner);
    NullableTypes(d, v);
    NullableBody(d, Convert(s).types, v);
    if !v.Null? { DescriptionAgrees(s.inner, v); }
  }

  lemma ArrayAgrees(s: Schema, v: Value)
    requires s.ArrayOf? && Accepts(s, v) && IsJson(v)
    ensures Valid(Convert(s), v) <==> Fits(s, v)
    decreases s, 0
  {
    TypeFirst(Convert(s), v);
    forall i | 0 <= i < |v.items| ensures Valid(Convert(s.item), v.items[i]) <==> Fits(s.item, v.items[i]) {
      DescriptionAgrees(s.item, v.items[i]);
    }
  }

  lemma RecordAgrees(s: Schema, v: Value)
    requires s.RecordOf? && Accepts(s, v) && IsJson(v)
    ensures Valid(Convert(s), v) <==> Fits(s, v)
    decreases s, 0
  {
    TypeFirst(Convert(s), v);
    forall i | 0 <= i < |v.fields|
      ensures Valid(Convert(s.value), v.fields[i].value) <==> Fits(s.value, v.fields[i].value) {
      DescriptionAgrees(s.value, v.fields[i].value);
    }
  }

  /** One declared field: present, its description agrees; absent, it is required exactly when it is not `optional`. */
  lemma FieldAgrees(s: Schema, v: Value, i: nat)
    requires s.ObjectOf? && Accepts(s, v) && IsJson(v) && i < |s.shape|
    ensures s.shape[i].key in KeysOf(v.fields) ==>
      (Valid(Convert(s.shape[i].schema), Lookup(v.fields, s.shape[i].key)) <==> FieldFits(s.shape[i], v.fields))
    decreases s, 0
  {
    var p := s.shape[i];
    AbsentLookup(v.fields, p.key);
    if p.key in KeysOf(v.fields) { DescriptionAgrees(p.schema, Lookup(v.fields, p.key)); }
  }

  lemma ObjectAgrees(s: Schema, v: Value)
    requires s.ObjectOf? && Accepts(s, v) && IsJson(v)
    ensures Valid(Convert(s), v) <==> Fits(s, v)
    decreases s, 2
  {
    TypeFirst(Convert(s), v);
    ConvertShapeAt(s.shape);
    PresentFieldsAgree(s, v);
    RequiredFields(s.shape, v.fields);
  }

  lemma PresentFieldsAgree(s: Schema, v: Value)
    requires s.ObjectOf? && Accepts(s, v) && IsJson(v)
    ensures var ps := ConvertShape(s.shape);
      (forall i :: 0 <= i < |ps| && ps[i].key in KeysOf(v.fields) ==>
             Valid(ps[i].described, Lookup(v.fields, ps[i].key)))
      <==> (forall i :: 0 <= i < |s.shape| && s.shape[i].key in KeysOf(v.fields) ==> FieldFits(s.shape[i], v.fields))
    decreases s, 1
  {
    ConvertShapeAt(s.shape);
    forall i | 0 <= i < |s.shape|
      ensures s.shape[i].key in KeysOf(v.fields) ==>
        (Valid(Convert(s.shape[i].schema), Lookup(v.fields, s.shape[i].key)) <==> FieldFits(s.shape[i], v.fields))
    {
      FieldAgrees(s, v, i);
    }
  }

  lemma RequiredFields(shape: seq<Prop>, fields: seq<Field>)
    ensures (forall k :: k in RequiredKeys(shape) ==> k in KeysOf(fields))
      <==> (forall i :: 0 <= i < |shape| && shape[i].key !in KeysOf(fields) ==> FieldFits(shape[i], fields))
  {
    forall k
      ensures k in RequiredKeys(shape)
        <==> exists i :: 0 <= i < |shape| && shape[i].key == k && !shape[i].schema.OptionalOf?
    {
      RequiredExact(shape, k);
    }
  }

  // ----- where the description and the parser agree

  /** Dropping the flags loses no text. */
  ghost predicate Flagless(p: Pattern) {
    forall text :: p.test(text) ==> p.published(text)
  }

  /** No minimum above one, no flag that lets more texts through, `nullable` only around a kind whose description is a
      plain type, `optional` only directly as a field of an object. */
  ghost predicate Plain(s: Schema) {
    match s
    case OptionalOf(_) => false
    case NullableOf(inner) => !inner.EnumOf? && !inner.JsonOf? && !inner.NullableOf? && Plain(inner)
    case StringOf(min, _, pattern) => (min.Some? ==> min.value <= 1) && (pattern.Some? ==> Flagless(pattern.value))
    case ArrayOf(item, _, _) => Plain(item)
    case ObjectOf(shape) => forall i :: 0 <= i < |shape| ==>
      if shape[i].schema.OptionalOf? then Plain(shape[i].schema.inner) else Plain(shape[i].schema)
    case RecordOf(value, _, keyPattern) => Flagless(keyPattern) && Plain(value)
    case _ => true
  }

  /** Under a plain schema every accepted value is valid under the description. */
  lemma PlainSchemasAgree(s: Schema, v: Value)
    requires Plain(s) && Accepts(s, v) && IsJson(v)
    ensures Valid(Convert(s), v)
  {
    PlainFits(s, v);
    DescriptionAgrees(s, v);
  }

  lemma {:induction false} PlainFits(s: Schema, v: Value)
    requires Plain(s) && Accepts(s, v) && IsJson(v)
    ensures Fits(s, v)
    decreases s
  {
    match s
    case NullableOf(inner) => if !v.Null? { PlainFits(inner, v); }
    case StringOf(_, _, _) => LengthCounts(v.s);
    case ArrayOf(item, _, _) =>
      forall i | 0 <= i < |v.items| ensures Fits(item, v.items[i]) { PlainFits(item, v.items[i]); }
    case ObjectOf(shape) =>
      forall i | 0 <= i < |shape| ensures FieldFits(shape[i], v.fields) {
        AbsentLookup(v.fields, shape[i].key);
        if shape[i].key in KeysOf(v.fields) {
          PlainFits(if shape[i].schema.OptionalOf? then shape[i].schema.inner else shape[i].schema,
                    Lookup(v.fields, shape[i].key));
        } else {
          assert Accepts(shape[i].schema, Undefined);
          PlainPresence(shape[i].schema);
        }
      }
    case RecordOf(value, _, _) =>
      forall i | 0 <= i < |v.fields| ensures Fits(value, v.fields[i].value) { PlainFits(value, v.fields[i].value); }
    case _ =>
  }

  lemma PlainPresence(s: Schema)
    requires s.OptionalOf? || Plain(s)
    ensures Accepts(s, Undefined) ==> s.OptionalOf?
  {
  }

  // ----- where they part

  /** One character beyond the basic plane is two code units: the parser takes it for a text of length two. */
  lemma ShortByCharacters(max: nat)
    requires max >= 2
    ensures var s, v := StringOf(Some(2), max, None), Str("\U{1F600}");
      Accepts(s, v) && IsJson(v) && !Valid(Convert(s), v)
  {
    var text := "\U{1F600}";
    assert text[1..] == "";
    assert Length(text) == 2;
    assert !HasControl(text);
    LengthCounts(text);
    assert !Fits(StringOf(Some(2), max, None), Str(text));
    DescriptionAgrees(StringOf(Some(2), max, None), Str(text));
  }

  /** `/^https?:\/\//i`: in any case to the parser, in lower case to a validator. */
  predicate HttpUrl(text: string) {
    StartsWith(text, "http://") || StartsWith(text, "https://")
  }

  function UrlPattern(): Pattern {
    Pattern(text => HttpUrl(Lower(text)), HttpUrl)
  }

  /** The avatar of a profile (`packages/server/src/routes/profiles.ts`). */
  function AvatarUrl(): Schema {
    OptionalOf(NullableOf(StringOf(Some(1), 2048, Some(UrlPattern()))))
  }

  lemma NullableText(text: Schema, v: Value)
    requires text.StringOf? && Accepts(OptionalOf(NullableOf(text)), v) && IsJson(v)
    ensures v.Null? || Accepts(text, v)
    ensures Fits(OptionalOf(NullableOf(text)), v) <==> v.Null? || Fits(text, v)
  {
    assert Accepts(NullableOf(text), v);
    assert Core(text) == text && !Untyped(text);
    assert Fits(OptionalOf(NullableOf(text)), v) <==> Fits(NullableOf(text), v);
  }

  /** An accepted avatar is valid under the description if and only if it is null or its scheme is in lower case. */
  lemma AvatarNeedsLowerCase(v: Value)
    requires Accepts(AvatarUrl(), v) && IsJson(v)
    ensures Valid(Convert(AvatarUrl()), v) <==> v.Null? || (v.Str? && HttpUrl(v.s))
  {
    DescriptionAgrees(AvatarUrl(), v);
    NullableText(StringOf(Some(1), 2048, Some(UrlPattern())), v);
    if v.Str? { LengthCounts(v.s); }
  }

  lemma UpperScheme(rest: string)
    ensures HttpUrl(Lower("HTTPS://" + rest)) && !HttpUrl("HTTPS://" + rest)
  {
    var lower := Lower("HTTPS://" + rest);
    assert lower[..8] == "https://";
    assert ("HTTPS://" + rest)[0] == 'H';
  }

  /** Such an avatar: any address with its scheme in upper case. */
  lemma UpperCaseUrl(rest: string)
    requires |rest| <= 2000 && forall i :: 0 <= i < |rest| ==> 0x20 <= rest[i] as int < 0x7f
    ensures var v := Str("HTTPS://" + rest);
      Accepts(AvatarUrl(), v) && IsJson(v) && !Valid(Convert(AvatarUrl()), v)
  {
    var text := "HTTPS://" + rest;
    PlainText(text);
    UpperScheme(rest);
    assert AcceptsText(Some(1), 2048, Some(UrlPattern()), text);
    assert Accepts(StringOf(Some(1), 2048, Some(UrlPattern())), Str(text));
    AvatarNeedsLowerCase(Str(text));
  }

  lemma {:induction false} PlainText(text: string)
    requires forall i :: 0 <= i < |text| ==> 0x20 <= text[i] as int < 0x7f
    ensures Length(text) == |text| && !HasControl(text)
  {
    if text != "" { PlainText(text[1..]); }
  }

  /** A nullable enumeration accepts null, which its description, a list of texts, refuses; everything else is valid. */
  lemma NullableEnumRefusesNull(values: seq<string>, v: Value)
    requires Accepts(NullableOf(EnumOf(values)), v)
    ensures Accepts(NullableOf(EnumOf(values)), Null)
    ensures Valid(Convert(NullableOf(EnumOf(values))), v) <==> !v.Null?
  {
    DescriptionAgrees(NullableOf(EnumOf(values)), v);
  }

  /** A nullable free-form value has a description that lets only null through. */
  lemma NullableJsonRefusesValues(l: JsonLimits, v: Value)
    requires Accepts(JsonOf(l), v)
    ensures Accepts(NullableOf(JsonOf(l)), v)
    ensures Valid(Convert(NullableOf(JsonOf(l))), v) <==> v.Null?
  {
    var d := Convert(NullableOf(JsonOf(l)));
    assert d.types == [NoName, NullName];
    assert NullName in d.types;
    assert forall t :: t in d.types ==> t == NoName || t == NullName;
  }

  /** A field that may be missing but is not `optional` itself: the parser takes the object without it, the description
      requires it. */
  lemma UnmarkedFieldIsRequired(key: string, inner: Schema)
    ensures var s := ObjectOf([Prop(key, NullableOf(OptionalOf(inner)))]);
      Accepts(s, Obj([])) && IsJson(Obj([])) && !Valid(Convert(s), Obj([]))
  {
    var field := NullableOf(OptionalOf(inner));
    var s := ObjectOf([Prop(key, field)]);
    assert Accepts(OptionalOf(inner), Undefined);
    assert Accepts(field, Undefined);
    assert Lookup([], key) == Undefined;
    assert !FieldFits(s.shape[0], []);
    DescriptionAgrees(s, Obj([]));
  }
}
