/**
  The Zod to JSON Schema compiler of the contract generator.

  `Accepts` says what a Zod schema parses, `Emit` what the compiler emits for it and `Rendered` the JSON
  written out. The theorems compare the two meanings on every JSON value.
 */
module SchemaCompiler {
  import opened JsonSchema
  import opened Options

  // ---- Zod schemas --------------------------------------------------------------------------

  /** `OtherText`: a check the compiler skips (an e-mail, a pattern, …). */
  datatype StringCheck = Uuid | Datetime | Min(n: nat) | Max(n: nat) | OtherText(id: nat)

  datatype NumberCheck = Int | OtherNumber(id: nat)

  datatype Field = Field(key: string, schema: Zod)

  /**
    `strict` refuses unknown keys. `ZCoerced` converts its input before checking. The compiler has no branch
    for the last two: `ZAny` is any and unknown, which accept everything; `ZOther` is every other class, over the
    schemas it is built from: one for effects, the parts of an intersection, the options of a discriminated
    union, …
   */
  datatype Zod =
    | ZObject(shape: seq<Field>, strict: bool)
    | ZString(checks: seq<StringCheck>)
    | ZNumber(numberChecks: seq<NumberCheck>)
    | ZBoolean
    | ZLiteral(value: Json)
    | ZEnum(names: seq<string>)
    | ZOptional(inner: Zod)
    | ZNullable(inner: Zod)
    | ZDefault(inner: Zod, dflt: Json)
    | ZRecord(keyType: Zod, valueType: Zod)
    | ZArray(element: Zod, minItems: Option<nat>, maxItems: Option<nat>)
    | ZUnion(options: seq<Zod>)
    | ZCoerced(primitive: Zod)
    | ZAny
    | ZOther(id: nat, parts: seq<Zod>)

  /** What this model does not look into: formats, skipped checks, coercion, unhandled classes. */
  datatype Outside = Outside(
    text: (StringCheck, string) -> bool,
    number: (NumberCheck, real) -> bool,
    coerced: (Zod, Option<Json>) -> bool,
    other: (Zod, Option<Json>) -> bool)

  /** JavaScript's `length`: characters outside the Basic Multilingual Plane take two code units. */
  function Utf16Length(s: string): (n: nat)
    ensures |s| <= n <= 2 * |s|
  {
    if s == "" then 0 else (if s[0] as int >= 0x1_0000 then 2 else 1) + Utf16Length(s[1..])
  }

  predicate PassesText(x: Outside, c: StringCheck, s: string) {
    match c
    case Min(n) => Utf16Length(s) >= n
    case Max(n) => Utf16Length(s) <= n
    case _ => x.text(c, s)
  }

  predicate PassesNumber(x: Outside, c: NumberCheck, r: real) {
    if c.Int? then IsInteger(r) else x.number(c, r)
  }

  /** `safeParse` on a JSON value, or on a missing member (`None`). */
  predicate Accepts(x: Outside, z: Zod, d: Option<Json>)
    decreases z
  {
    match z
    case ZObject(shape, strict) =>
      && d.Some? && d.value.JObj?
      && (forall f <- shape :: Accepts(x, f.schema, if f.key in d.value.m then Some(d.value.m[f.key]) else None))
      && (strict ==> forall k <- d.value.m.Keys :: exists f <- shape :: f.key == k)
    case ZString(checks) => d.Some? && d.value.JStr? && forall c <- checks :: PassesText(x, c, d.value.s)
    case ZNumber(checks) => d.Some? && d.value.JNum? && forall c <- checks :: PassesNumber(x, c, d.value.r)
    case ZBoolean => d.Some? && d.value.JBool?
    case ZLiteral(value) => d == Some(value)
    case ZEnum(names) => d.Some? && d.value.JStr? && d.value.s in names
    case ZOptional(inner) => d.None? || Accepts(x, inner, d)
    case ZNullable(inner) => d == Some(JNull) || Accepts(x, inner, d)
    case ZDefault(inner, dflt) => Accepts(x, inner, if d.None? then Some(dflt) else d)
    case ZRecord(keyType, valueType) =>
      && d.Some? && d.value.JObj?
      && forall k <- d.value.m.Keys :: Accepts(x, keyType, Some(JStr(k))) && Accepts(x, valueType, Some(d.value.m[k]))
    case ZArray(element, minItems, maxItems) =>
      && d.Some? && d.value.JArr?
      && (minItems.Some? ==> |d.value.elems| >= minItems.value)
      && (maxItems.Some? ==> |d.value.elems| <= maxItems.value)
      && forall e <- d.value.elems :: Accepts(x, element, Some(e))
    case ZUnion(options) => exists o <- options :: Accepts(x, o, d)
    case ZCoerced(primitive) => x.coerced(primitive, d)
    case ZAny => true
    case ZOther(_, _) => x.other(z, d)
  }

  // ---- The compiler -------------------------------------------------------------------------

  /** The emitted schemas, one constructor for each shape of emitted JSON object. */
  datatype Schema =
    | Anything
    | Text(format: Option<string>, minLength: Option<nat>, maxLength: Option<nat>)
    | Number(integer: bool)
    | Boolean
    | Null
    | Const(value: Json)
    | Enum(names: seq<string>)
    | Object(properties: map<string, Schema>, required: seq<string>)
    | Dictionary(additional: Schema)
    | List(items: Schema)
    | OneOf(options: seq<Schema>)
    | WithDefault(inner: Schema, dflt: Json)

  predicate MayBeMissing(z: Zod) {
    z.ZOptional? || z.ZDefault?
  }

  /** A later check of the same kind overwrites an earlier one. */
  function AddCheck(t: Schema, c: StringCheck): Schema
    requires t.Text?
  {
    match c
    case Uuid => t.(format := Some("uuid"))
    case Datetime => t.(format := Some("date-time"))
    case Min(n) => t.(minLength := Some(n))
    case Max(n) => t.(maxLength := Some(n))
    case OtherText(_) => t
  }

  function EmitText(checks: seq<StringCheck>): (t: Schema)
    ensures t.Text?
  {
    if checks == [] then Text(None, None, None)
    else AddCheck(EmitText(checks[..|checks| - 1]), checks[|checks| - 1])
  }

  function Emit(z: Zod): Schema {
    match z
    case ZObject(shape, _) => Object(EmitFields(shape), RequiredKeys(shape))
    case ZString(checks) => EmitText(checks)
    case ZNumber(checks) => Number(Int in checks)
    case ZBoolean => Boolean
    case ZLiteral(value) => Const(value)
    case ZEnum(names) => Enum(names)
    case ZOptional(inner) => Emit(inner)
    case ZNullable(inner) => OneOf([Emit(inner), Null])
    case ZDefault(inner, dflt) => WithDefault(Emit(inner), dflt)
    case ZRecord(_, valueType) => Dictionary(Emit(valueType))
    case ZArray(element, _, _) => List(Emit(element))
    case ZUnion(options) => OneOf(EmitAll(options))
    case ZCoerced(primitive) => Emit(primitive)
    case ZAny => Anything
    case ZOther(_, _) => Anything
  }

  function EmitAll(options: seq<Zod>): (r: seq<Schema>)
    ensures |r| == |options|
  {
    if options == [] then []
    else EmitAll(options[..|options| - 1]) + [Emit(options[|options| - 1])]
  }

  function EmitFields(shape: seq<Field>): map<string, Schema> {
    if shape == [] then map[]
    else EmitFields(shape[..|shape| - 1])[shape[|shape| - 1].key := Emit(shape[|shape| - 1].schema)]
  }

  function RequiredKeys(shape: seq<Field>): seq<string> {
    if shape == [] then []
    else RequiredKeys(shape[..|shape| - 1])
         + if MayBeMissing(shape[|shape| - 1].schema) then [] else [shape[|shape| - 1].key]
  }

  /** The compiler as written: recursion over the schema, loops over fields, checks and options. */
  method ZodToJsonSchema(z: Zod) returns (s: Schema)
    ensures s == Emit(z)
    decreases z
  {
    match z
    case ZObject(shape, _) =>
      var properties: map<string, Schema> := map[];
      var required: seq<string> := [];
      for i := 0 to |shape|
        invariant properties == EmitFields(shape[..i])
        invariant required == RequiredKeys(shape[..i])
      {
        assert shape[..i + 1][..i] == shape[..i];
        var property := ZodToJsonSchema(shape[i].schema);
        properties := properties[shape[i].key := property];
        if !shape[i].schema.ZOptional? && !shape[i].schema.ZDefault? {
          required := required + [shape[i].key];
        }
      }
      assert shape[..|shape|] == shape;
      s := Object(properties, required);
    case ZString(checks) =>
      s := Text(None, None, None);
      for i := 0 to |checks|
        invariant s == EmitText(checks[..i])
      {
        assert checks[..i + 1][..i] == checks[..i];
        match checks[i]
        case Uuid => s := s.(format := Some("uuid"));
        case Datetime => s := s.(format := Some("date-time"));
        case Min(n) => s := s.(minLength := Some(n));
        case Max(n) => s := s.(maxLength := Some(n));
        case OtherText(_) =>
      }
      assert checks[..|checks|] == checks;
    case ZNumber(checks) => s := Number(Int in checks);
    case ZBoolean => s := Boolean;
    case ZLiteral(value) => s := Const(value);
    case ZEnum(names) => s := Enum(names);
    case ZOptional(inner) => s := ZodToJsonSchema(inner);
    case ZNullable(inner) =>
      var t := ZodToJsonSchema(inner);
      s := OneOf([t, Null]);
    case ZDefault(inner, dflt) =>
      var t := ZodToJsonSchema(inner);
      s := WithDefault(t, dflt);
    case ZRecord(_, valueType) =>
      var t := ZodToJsonSchema(valueType);
      s := Dictionary(t);
    case ZArray(element, _, _) =>
      var t := ZodToJsonSchema(element);
      s := List(t);
    case ZUnion(options) =>
      var all: seq<Schema> := [];
      for i := 0 to |options|
        invariant all == EmitAll(options[..i])
      {
        assert options[..i + 1][..i] == options[..i];
        var t := ZodToJsonSchema(options[i]);
        all := all + [t];
      }
      assert options[..|options|] == options;
      s := OneOf(all);
    case ZCoerced(primitive) => s := ZodToJsonSchema(primitive);
    case ZAny => s := Anything;
    case ZOther(_, _) => s := Anything;
  }

  // ---- What is written out ------------------------------------------------------------------

  function RenderedNames(names: seq<string>): (r: seq<Json>)
    ensures |r| == |names| && forall i | 0 <= i < |r| :: r[i] == JStr(names[i])
  {
    if names == [] then [] else [JStr(names[0])] + RenderedNames(names[1..])
  }

  /** The JSON object of an emitted schema. */
  function Members(s: Schema): map<string, Json>
    decreases s
  {
    match s
    case Anything => map[]
    case Text(format, minLength, maxLength) =>
      var m0: map<string, Json> := map["type" := JStr("string")];
      var m1 := if format.Some? then m0["format" := JStr(format.value)] else m0;
      var m2 := if minLength.Some? then m1["minLength" := JNum(minLength.value as real)] else m1;
      if maxLength.Some? then m2["maxLength" := JNum(maxLength.value as real)] else m2
    case Number(integer) => map["type" := JStr(if integer then "integer" else "number")]
    case Boolean => map["type" := JStr("boolean")]
    case Null => map["type" := JStr("null")]
    case Const(value) => map["const" := value]
    case Enum(names) => map["type" := JStr("string"), "enum" := JArr(RenderedNames(names))]
    case Object(properties, required) =>
      ObjectMembers(map k | k in properties :: JObj(Members(properties[k])), RenderedNames(required))
    case Dictionary(additional) => map["type" := JStr("object"), "additionalProperties" := JObj(Members(additional))]
    case List(items) => map["type" := JStr("array"), "items" := JObj(Members(items))]
    case OneOf(options) => map["oneOf" := JArr(RenderedOptions(options))]
    case WithDefault(inner, dflt) => Members(inner)["default" := dflt]
  }

  function RenderedOptions(options: seq<Schema>): (r: seq<Json>)
    ensures |r| == |options| && forall i | 0 <= i < |r| :: r[i] == JObj(Members(options[i]))
    decreases options
  {
    if options == [] then [] else [JObj(Members(options[0]))] + RenderedOptions(options[1..])
  }

  function Rendered(s: Schema): Json {
    JObj(Members(s))
  }

  /** What an emitted schema admits, read off its shape. */
  ghost predicate Admits(fmt: Formats, s: Schema, v: Json)
    decreases s
  {
    match s
    case Anything => true
    case Text(format, minLength, maxLength) =>
      && v.JStr?
      && (format.Some? ==> fmt(format.value, v.s))
      && (minLength.Some? ==> |v.s| >= minLength.value)
      && (maxLength.Some? ==> |v.s| <= maxLength.value)
    case Number(integer) => v.JNum? && (integer ==> IsInteger(v.r))
    case Boolean => v.JBool?
    case Null => v.JNull?
    case Const(value) => v == value
    case Enum(names) => v.JStr? && v.s in names
    case Object(properties, required) =>
      && v.JObj?
      && (forall k | k in properties && k in v.m :: Admits(fmt, properties[k], v.m[k]))
      && (forall k <- required :: k in v.m)
    case Dictionary(additional) => v.JObj? && forall k | k in v.m :: Admits(fmt, additional, v.m[k])
    case List(items) => v.JArr? && forall e <- v.elems :: Admits(fmt, items, e)
    case OneOf(options) =>
      OnlyOne(Admissions(fmt, options, v))
    case WithDefault(inner, _) => Admits(fmt, inner, v)
  }

  ghost function Admissions(fmt: Formats, options: seq<Schema>, v: Json): (r: seq<bool>)
    ensures |r| == |options| && forall i | 0 <= i < |r| :: r[i] == Admits(fmt, options[i], v)
    decreases options
  {
    if options == [] then [] else [Admits(fmt, options[0], v)] + Admissions(fmt, options[1..], v)
  }

  lemma TextRendered(fmt: Formats, s: Schema, v: Json)
    requires s.Text?
    ensures Valid(fmt, Rendered(s), v) <==> Admits(fmt, s, v)
  {
    KeywordsDiffer();
  }

  lemma LeavesRendered(fmt: Formats, s: Schema, v: Json)
    requires s.Anything? || s.Number? || s.Boolean? || s.Null? || s.Const?
    ensures Valid(fmt, Rendered(s), v) <==> Admits(fmt, s, v)
  {
    KeywordsDiffer();
  }

  lemma EnumRendered(fmt: Formats, names: seq<string>, v: Json)
    ensures Valid(fmt, Rendered(Enum(names)), v) <==> Admits(fmt, Enum(names), v)
  {
    KeywordsDiffer();
    var r := RenderedNames(names);
    if v.JStr? && v.s in names {
      var i :| 0 <= i < |names| && names[i] == v.s;
      assert r[i] == v;
    }
  }

  lemma RequiredMeans<T>(required: seq<string>, m: map<string, T>)
    ensures (forall k <- RenderedNames(required) :: k.s in m) <==> (forall k <- required :: k in m)
  {
    var names := RenderedNames(required);
    assert forall i | 0 <= i < |required| :: names[i] in names && required[i] in required;
  }

  lemma ObjectMembersOf(s: Schema, properties: map<string, Json>)
    requires s.Object? && properties == map k | k in s.properties :: Rendered(s.properties[k])
    ensures Rendered(s) == JObj(ObjectMembers(properties, RenderedNames(s.required)))
  {
    var inlined: map<string, Json> := map k | k in s.properties :: JObj(Members(s.properties[k]));
    assert inlined == properties;
    assert Members(s) == ObjectMembers(inlined, RenderedNames(s.required));
  }

  /** `verdict` is a validator's verdict on the written object schema. */
  lemma ObjectMeans(fmt: Formats, s: Schema, v: Json, properties: map<string, Json>, verdict: bool)
    requires s.Object? && properties.Keys == s.properties.Keys
    requires verdict <==>
               && v.JObj?
               && (forall k <- RenderedNames(s.required) :: k.s in v.m)
               && forall k | k in properties && k in v.m :: Valid(fmt, properties[k], v.m[k])
    requires forall k | k in s.properties && v.JObj? && k in v.m ::
               Valid(fmt, properties[k], v.m[k]) <==> Admits(fmt, s.properties[k], v.m[k])
    ensures verdict <==> Admits(fmt, s, v)
  {
    if v.JObj? {
      RequiredMeans(s.required, v.m);
    }
  }

  lemma ObjectCase(fmt: Formats, s: Schema, v: Json, rendered: map<string, Json>)
    requires s.Object? && rendered == map k | k in s.properties :: Rendered(s.properties[k])
    requires forall k | k in s.properties && v.JObj? && k in v.m ::
               Valid(fmt, rendered[k], v.m[k]) <==> Admits(fmt, s.properties[k], v.m[k])
    ensures Valid(fmt, Rendered(s), v) <==> Admits(fmt, s, v)
  {
    ObjectMembersOf(s, rendered);
    ObjectAlone(fmt, rendered, RenderedNames(s.required), v);
    ObjectMeans(fmt, s, v, rendered, Valid(fmt, Rendered(s), v));
  }

  lemma OneOfCase(fmt: Formats, options: seq<Schema>, v: Json)
    requires forall i | 0 <= i < |options| :: Valid(fmt, Rendered(options[i]), v) <==> Admits(fmt, options[i], v)
    ensures Valid(fmt, Rendered(OneOf(options)), v) <==> Admits(fmt, OneOf(options), v)
  {
    var elems := RenderedOptions(options);
    OneOfAlone(fmt, elems, v);
    assert Verdicts(fmt, elems, v) == Admissions(fmt, options, v);
  }

  /** The written JSON means, to a JSON Schema validator, what its shape says. */
  lemma {:induction false} RenderedMeans(fmt: Formats, s: Schema, v: Json)
    ensures Valid(fmt, Rendered(s), v) <==> Admits(fmt, s, v)
    decreases s
  {
    match s
    case Text(_, _, _) => TextRendered(fmt, s, v);
    case Enum(names) => EnumRendered(fmt, names, v);
    case Object(properties, _) =>
      var rendered := map k | k in properties :: Rendered(properties[k]);
      forall k | k in properties && v.JObj? && k in v.m
        ensures Valid(fmt, rendered[k], v.m[k]) <==> Admits(fmt, properties[k], v.m[k])
      {
        RenderedMeans(fmt, properties[k], v.m[k]);
      }
      ObjectCase(fmt, s, v, rendered);
    case Dictionary(additional) =>
      forall k | v.JObj? && k in v.m
        ensures Valid(fmt, Rendered(additional), v.m[k]) <==> Admits(fmt, additional, v.m[k])
      {
        RenderedMeans(fmt, additional, v.m[k]);
      }
      DictionaryAlone(fmt, Rendered(additional), v);
    case List(items) =>
      forall e | v.JArr? && e in v.elems ensures Valid(fmt, Rendered(items), e) <==> Admits(fmt, items, e) {
        RenderedMeans(fmt, items, e);
      }
      ListAlone(fmt, Rendered(items), v);
    case OneOf(options) =>
      forall i | 0 <= i < |options| ensures Valid(fmt, Rendered(options[i]), v) <==> Admits(fmt, options[i], v) {
        RenderedMeans(fmt, options[i], v);
      }
      OneOfCase(fmt, options, v);
    case WithDefault(inner, dflt) =>
      DefaultDoesNotMatter(fmt, Members(inner), dflt, v);
      RenderedMeans(fmt, inner, v);
    case _ => LeavesRendered(fmt, s, v);
  }
}
