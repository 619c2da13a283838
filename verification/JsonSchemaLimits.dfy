/** The other direction of `toJsonSchema` (`packages/server/src/schema.ts`): which values the published description lets
    through and the parser refuses. */
module JsonSchemaLimits {
  import opened Wrappers
  import opened Moments
  import opened MomentTexts
  import opened Schemas
  import opened JsonSchemas

  /** What the parser asks of a value and no keyword says: code units instead of characters, no control characters, the
      flags of patterns, days and times that exist, names of entries that are not forbidden, and the bounds of free-form
      values. */
  ghost predicate Unsaid(s: Schema, v: Value) {
    match s
    case OptionalOf(inner) => Unsaid(inner, v)
    case NullableOf(inner) => v.Null? || Unsaid(inner, v)
    case StringOf(_, max, pattern) =>
      v.Str? ==>
        && (|v.s| <= max ==> Length(v.s) <= max) && !HasControl(v.s)
        && (pattern.Some? ==> Flags(pattern.value, v.s))
    case DateOf => v.Str? && ReadStamp(v.s).Some? ==> IsRealMoment(v.s)
    case ArrayOf(item, _, _) => v.Arr? ==> forall i :: 0 <= i < |v.items| ==> Unsaid(item, v.items[i])
    case ObjectOf(shape) =>
      v.Obj? ==> forall i :: 0 <= i < |shape| && shape[i].key in KeysOf(v.fields) ==>
        Unsaid(shape[i].schema, Lookup(v.fields, shape[i].key))
    case RecordOf(value, _, keyPattern) =>
      v.Obj? ==> forall i :: 0 <= i < |v.fields| ==>
        v.fields[i].key !in FORBIDDEN_KEYS && Flags(keyPattern, v.fields[i].key) && Unsaid(value, v.fields[i].value)
    case JsonOf(limits) => BoundedJson(limits, v, limits.maxDepth) && Nodes(v) <= limits.maxNodes
    case _ => true
  }

  /** A text that matches the bare source also matches with the flags. */
  predicate Flags(p: Pattern, text: string) { p.published(text) ==> p.test(text) }

  // ----- a moment is short

  /** A text of the shape of a moment has at most 35 characters, all of them ASCII. */
  lemma StampIsShort(s: string)
    requires ReadStamp(s).Some?
    ensures Length(s) == |s| <= 35
  {
    ReadIsShaped(s);
    LengthCounts(s);
  }

  // ----- what is valid and has the rest is accepted

  lemma LeafValidAccepted(s: Schema, v: Value)
    requires s.StringOf? || s.IntOf? || s.BoolOf? || s.DateOf? || s.EnumOf? || s.JsonOf?
    requires Valid(Convert(s), v) && Unsaid(s, v) && IsJson(v)
    ensures Accepts(s, v)
  {
    if v.Str? {
      LengthCounts(v.s);
      if s.DateOf? { StampIsShort(v.s); }
    }
  }

  lemma {:induction false} ValidAccepted(s: Schema, v: Value)
    requires Valid(Convert(s), v) && Unsaid(s, v) && IsJson(v)
    ensures Accepts(s, v)
    decreases s
  {
    if s.OptionalOf? {
      ValidAccepted(s.inner, v);
    } else if s.NullableOf? {
      if !v.Null? {
        var d := Convert(s.inner);
        NullableTypes(d, v);
        NullableBody(d, Convert(s).types, v);
        ValidAccepted(s.inner, v);
      }
    } else if s.ArrayOf? {
      forall i | 0 <= i < |v.items| ensures Accepts(s.item, v.items[i]) { ValidAccepted(s.item, v.items[i]); }
    } else if s.ObjectOf? {
      ObjectValidAccepted(s, v);
    } else if s.RecordOf? {
      forall i | 0 <= i < |v.fields| ensures Accepts(s.value, v.fields[i].value) {
        ValidAccepted(s.value, v.fields[i].value);
      }
    } else {
      LeafValidAccepted(s, v);
    }
  }

  lemma ObjectValidAccepted(s: Schema, v: Value)
    requires s.ObjectOf? && Valid(Convert(s), v) && Unsaid(s, v) && IsJson(v)
    ensures Accepts(s, v)
    decreases s, 0
  {
    ConvertShapeAt(s.shape);
    forall i | 0 <= i < |s.shape| ensures Accepts(s.shape[i].schema, Lookup(v.fields, s.shape[i].key)) {
      var p := s.shape[i];
      AbsentLookup(v.fields, p.key);
      if p.key in KeysOf(v.fields) {
        assert ConvertShape(s.shape)[i] == Property(p.key, Convert(p.schema));
        ValidAccepted(p.schema, Lookup(v.fields, p.key));
      } else {
        RequiredExact(s.shape, p.key);
      }
    }
  }

  lemma {:induction false} AcceptedUnsaid(s: Schema, v: Value)
    requires Accepts(s, v) && (v.Undefined? || IsJson(v))
    ensures v.Undefined? || Unsaid(s, v)
    decreases s
  {
    match s
    case OptionalOf(inner) => if !v.Undefined? { AcceptedUnsaid(inner, v); }
    case NullableOf(inner) => if !v.Null? { AcceptedUnsaid(inner, v); }
    case ArrayOf(item, _, _) =>
      forall i | 0 <= i < |v.items| ensures Unsaid(item, v.items[i]) { AcceptedUnsaid(item, v.items[i]); }
    case ObjectOf(shape) =>
      forall i | 0 <= i < |shape| && shape[i].key in KeysOf(v.fields)
        ensures Unsaid(shape[i].schema, Lookup(v.fields, shape[i].key))
      {
        AbsentLookup(v.fields, shape[i].key);
        AcceptedUnsaid(shape[i].schema, Lookup(v.fields, shape[i].key));
      }
    case RecordOf(value, _, _) =>
      forall i | 0 <= i < |v.fields| ensures Unsaid(value, v.fields[i].value) {
        AcceptedUnsaid(value, v.fields[i].value);
      }
    case _ =>
  }

  /** The parser and the description, exactly, for every schema and every JSON value: what one of them lets through is
      let through by the other but for the gaps listed on either side. */
  lemma DescriptionExact(s: Schema, v: Value)
    requires IsJson(v)
    ensures Accepts(s, v) && Fits(s, v) <==> Valid(Convert(s), v) && Unsaid(s, v)
  {
    if Accepts(s, v) {
      DescriptionAgrees(s, v);
      AcceptedUnsaid(s, v);
    } else if Valid(Convert(s), v) && Unsaid(s, v) {
      ValidAccepted(s, v);
    }
  }

  // ----- where nothing is unsaid

  /** Built of integers, booleans, enumerations, arrays and objects. */
  predicate Structural(s: Schema) {
    match s
    case OptionalOf(inner) => Structural(inner)
    case NullableOf(inner) => Structural(inner)
    case IntOf(_, _) => true
    case BoolOf => true
    case EnumOf(_) => true
    case ArrayOf(item, _, _) => Structural(item)
    case ObjectOf(shape) => forall i :: 0 <= i < |shape| ==> Structural(shape[i].schema)
    case _ => false
  }

  lemma {:induction false} NothingUnsaid(s: Schema, v: Value)
    requires Structural(s)
    ensures Unsaid(s, v)
    decreases s
  {
    match s
    case OptionalOf(inner) => NothingUnsaid(inner, v);
    case NullableOf(inner) => NothingUnsaid(inner, v);
    case ArrayOf(item, _, _) =>
      if v.Arr? {
        forall i | 0 <= i < |v.items| ensures Unsaid(item, v.items[i]) { NothingUnsaid(item, v.items[i]); }
      }
    case ObjectOf(shape) =>
      if v.Obj? {
        forall i | 0 <= i < |shape| ensures Unsaid(shape[i].schema, Lookup(v.fields, shape[i].key)) {
          NothingUnsaid(shape[i].schema, Lookup(v.fields, shape[i].key));
        }
      }
    case _ =>
  }

  /** For such schemas the description lets through nothing the parser refuses, and outside the nullable and required
      cases of `Fits` exactly what it accepts. */
  lemma StructuralExact(s: Schema, v: Value)
    requires Structural(s) && IsJson(v)
    ensures Valid(Convert(s), v) <==> Accepts(s, v) && Fits(s, v)
    ensures Plain(s) ==> (Valid(Convert(s), v) <==> Accepts(s, v))
  {
    NothingUnsaid(s, v);
    DescriptionExact(s, v);
    if Plain(s) && Accepts(s, v) { PlainFits(s, v); }
  }

  // ----- values only the description lets through

  /** A character of two code units: one character to the description, too long for the parser. */
  lemma LongByCodeUnits()
    ensures var s, v := StringOf(None, 1, None), Str("\U{1F600}");
      IsJson(v) && Valid(Convert(s), v) && !Accepts(s, v)
  {
    var text := "\U{1F600}";
    assert text[1..] == "";
    assert Length(text) == 2;
    TypeFirst(Convert(StringOf(None, 1, None)), Str(text));
  }

  /** A control character, which no keyword forbids. */
  lemma ControlCharacter()
    ensures var s, v := StringOf(None, 1, None), Str("\n");
      IsJson(v) && Valid(Convert(s), v) && !Accepts(s, v)
  {
    assert HasControl("\n");
    TypeFirst(Convert(StringOf(None, 1, None)), Str("\n"));
  }
}
