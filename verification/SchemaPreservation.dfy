/** The compiled JSON Schema admits what the Zod schema accepts, and when the converse holds. */
module SchemaPreservation {
  import opened JsonSchema
  import opened Options
  import opened SchemaCompiler

  // ---- Conditions ---------------------------------------------------------------------------

  ghost predicate Disjoint(fmt: Formats, options: seq<Schema>) {
    forall v: Json, i, j | 0 <= i < j < |options| && Admits(fmt, options[i], v) :: !Admits(fmt, options[j], v)
  }

  /**
    The fragment on which nothing accepted is lost: emitted union options are disjoint, a nullable wraps a
    schema whose emission rejects null, only a field that is itself optional or has a default accepts a
    missing member, and nothing is coerced.
   */
  ghost predicate Handled(fmt: Formats, x: Outside, z: Zod)
    decreases z
  {
    match z
    case ZObject(shape, _) =>
      forall f <- shape ::
        Handled(fmt, x, f.schema) && (f.schema.ZOptional? || f.schema.ZDefault? || !Accepts(x, f.schema, None))
    case ZOptional(inner) => Handled(fmt, x, inner)
    case ZNullable(inner) => Handled(fmt, x, inner) && !Admits(fmt, Emit(inner), JNull)
    case ZDefault(inner, _) => Handled(fmt, x, inner)
    case ZRecord(_, valueType) => Handled(fmt, x, valueType)
    case ZArray(element, _, _) => Handled(fmt, x, element)
    case ZUnion(options) => (forall o <- options :: Handled(fmt, x, o)) && Disjoint(fmt, EmitAll(options))
    case ZCoerced(_) => false
    case _ => true
  }

  /** Every minimum string length is 0 or 1. */
  predicate MinimaShort(z: Zod)
    decreases z
  {
    match z
    case ZString(checks) => forall c <- checks :: c.Min? ==> c.n <= 1
    case ZObject(shape, _) => forall f <- shape :: MinimaShort(f.schema)
    case ZOptional(inner) => MinimaShort(inner)
    case ZNullable(inner) => MinimaShort(inner)
    case ZDefault(inner, _) => MinimaShort(inner)
    case ZRecord(_, valueType) => MinimaShort(valueType)
    case ZArray(element, _, _) => MinimaShort(element)
    case ZUnion(options) => forall o <- options :: MinimaShort(o)
    case _ => true
  }

  /** No string in the value has a character outside the Basic Multilingual Plane. */
  predicate LengthsAgree(v: Json)
    decreases v
  {
    match v
    case JStr(s) => Utf16Length(s) == |s|
    case JArr(elems) => forall e <- elems :: LengthsAgree(e)
    case JObj(m) => forall k | k in m :: LengthsAgree(m[k])
    case _ => true
  }

  predicate DistinctFields(shape: seq<Field>) {
    forall i, j | 0 <= i < j < |shape| :: shape[i].key != shape[j].key
  }

  /** The validator lets the formats through that Zod accepts, as every validator does that only annotates. */
  ghost predicate FormatsKept(fmt: Formats, x: Outside) {
    forall s: string :: (x.text(Uuid, s) ==> fmt("uuid", s)) && (x.text(Datetime, s) ==> fmt("date-time", s))
  }

  /** The format that a check asks for is the one emitted, and the validator checks it no less than Zod does. */
  ghost predicate FormatEmitted(fmt: Formats, x: Outside, c: StringCheck, format: Option<string>) {
    || (c.Uuid? && format == Some("uuid") && forall s: string | fmt("uuid", s) :: x.text(Uuid, s))
    || (c.Datetime? && format == Some("date-time") && forall s: string | fmt("date-time", s) :: x.text(Datetime, s))
  }

  /**
    The compiler emits every check: no bound is overwritten by a looser one, no format by another, and nothing is
    skipped.
   */
  ghost predicate ChecksEmitted(fmt: Formats, x: Outside, checks: seq<StringCheck>) {
    var t := EmitText(checks);
    forall c <- checks ::
      (c.Min? && t.minLength.Some? && c.n <= t.minLength.value)
      || (c.Max? && t.maxLength.Some? && c.n >= t.maxLength.value)
      || FormatEmitted(fmt, x, c, t.format)
  }

  /** The fragment on which nothing is gained: no ignored check, and defaults that their own schema accepts. */
  ghost predicate Exact(fmt: Formats, x: Outside, z: Zod)
    decreases z
  {
    match z
    case ZObject(shape, strict) =>
      && !strict && DistinctFields(shape)
      && forall f <- shape :: Exact(fmt, x, f.schema) && (f.schema.ZDefault? ==> Accepts(x, f.schema, None))
    case ZString(checks) => ChecksEmitted(fmt, x, checks)
    case ZNumber(checks) => forall c <- checks :: c.Int?
    case ZOptional(inner) => Exact(fmt, x, inner)
    case ZNullable(inner) => Exact(fmt, x, inner)
    case ZDefault(inner, _) => Exact(fmt, x, inner)
    case ZRecord(keyType, valueType) => keyType == ZString([]) && Exact(fmt, x, valueType)
    case ZArray(element, minItems, maxItems) => minItems.None? && maxItems.None? && Exact(fmt, x, element)
    case ZUnion(options) => forall o <- options :: Exact(fmt, x, o)
    case ZCoerced(_) => false
    case ZOther(_, _) => false
    case _ => true
  }

  // ---- The emitted parts --------------------------------------------------------------------

  /** Only bounds and formats that were asked for are emitted. */
  lemma {:induction false} EmittedBounds(checks: seq<StringCheck>)
    ensures EmitText(checks).minLength.Some? ==> Min(EmitText(checks).minLength.value) in checks
    ensures EmitText(checks).maxLength.Some? ==> Max(EmitText(checks).maxLength.value) in checks
    ensures EmitText(checks).format.Some? ==>
              || (EmitText(checks).format == Some("uuid") && Uuid in checks)
              || (EmitText(checks).format == Some("date-time") && Datetime in checks)
  {
    if checks != [] {
      var init, last := checks[..|checks| - 1], checks[|checks| - 1];
      EmittedBounds(init);
      assert checks == init + [last];
    }
  }

  /** What a check asks to be written. */
  datatype Kind = Format | Shortest | Longest | Nothing

  function KindOf(c: StringCheck): Kind {
    match c
    case Uuid => Format
    case Datetime => Format
    case Min(_) => Shortest
    case Max(_) => Longest
    case OtherText(_) => Nothing
  }

  /** No later check of its kind follows the `i`-th. */
  predicate Last(checks: seq<StringCheck>, i: nat) {
    i < |checks| && forall j | i < j < |checks| :: KindOf(checks[j]) != KindOf(checks[i])
  }

  lemma {:induction false} LastIsEmitted(checks: seq<StringCheck>, i: nat)
    requires Last(checks, i)
    ensures checks[i].Uuid? ==> EmitText(checks).format == Some("uuid")
    ensures checks[i].Datetime? ==> EmitText(checks).format == Some("date-time")
    ensures checks[i].Min? ==> EmitText(checks).minLength == Some(checks[i].n)
    ensures checks[i].Max? ==> EmitText(checks).maxLength == Some(checks[i].n)
  {
    var init, last := checks[..|checks| - 1], checks[|checks| - 1];
    if i < |checks| - 1 {
      assert forall j | 0 <= j < |init| :: init[j] == checks[j];
      LastIsEmitted(init, i);
      assert KindOf(last) != KindOf(checks[i]);
    }
  }

  lemma {:induction false} LastOfKind(checks: seq<StringCheck>, c: StringCheck) returns (i: nat)
    requires c in checks
    ensures Last(checks, i) && KindOf(checks[i]) == KindOf(c)
  {
    i := |checks| - 1;
    if KindOf(checks[i]) != KindOf(c) {
      assert checks == checks[..i] + [checks[i]];
      i := LastOfKind(checks[..i], c);
    }
  }

  lemma TextMembers(t: Schema)
    requires t.Text?
    ensures var m := Members(t);
            && m.Keys <= {"type", "format", "minLength", "maxLength"}
            && "type" in m && m["type"] == JStr("string")
            && (if t.format.Some? then "format" in m && m["format"] == JStr(t.format.value) else "format" !in m)
            && (if t.minLength.Some? then "minLength" in m && m["minLength"] == JNum(t.minLength.value as real)
                else "minLength" !in m)
            && (if t.maxLength.Some? then "maxLength" in m && m["maxLength"] == JNum(t.maxLength.value as real)
                else "maxLength" !in m)
  {
    KeywordsDiffer();
  }

  /** The written keywords of a string: each is there exactly when a check asks for it, and the last one counts. */
  lemma TextKeywords(checks: seq<StringCheck>)
    ensures var m := Members(Emit(ZString(checks)));
            && m.Keys <= {"type", "format", "minLength", "maxLength"}
            && "type" in m && m["type"] == JStr("string")
            && ("format" in m <==> exists c <- checks :: c.Uuid? || c.Datetime?)
            && ("minLength" in m <==> exists c <- checks :: c.Min?)
            && ("maxLength" in m <==> exists c <- checks :: c.Max?)
            && forall i: nat | Last(checks, i) ::
                 match checks[i]
                 case Uuid => m["format"] == JStr("uuid")
                 case Datetime => m["format"] == JStr("date-time")
                 case Min(n) => m["minLength"] == JNum(n as real)
                 case Max(n) => m["maxLength"] == JNum(n as real)
                 case OtherText(_) => true
  {
    TextMembers(EmitText(checks));
    EmittedBounds(checks);
    forall c <- checks ensures match KindOf(c)
                               case Format => EmitText(checks).format.Some?
                               case Shortest => EmitText(checks).minLength.Some?
                               case Longest => EmitText(checks).maxLength.Some?
                               case Nothing => true
    {
      var i := LastOfKind(checks, c);
      LastIsEmitted(checks, i);
    }
    forall i: nat | Last(checks, i)
      ensures checks[i].Uuid? ==> EmitText(checks).format == Some("uuid")
      ensures checks[i].Datetime? ==> EmitText(checks).format == Some("date-time")
      ensures checks[i].Min? ==> EmitText(checks).minLength == Some(checks[i].n)
      ensures checks[i].Max? ==> EmitText(checks).maxLength == Some(checks[i].n)
    {
      LastIsEmitted(checks, i);
    }
  }

  /** The written default is the value that Zod puts in for a missing member. */
  lemma DefaultIsWritten(x: Outside, inner: Zod, dflt: Json)
    ensures var m := Members(Emit(ZDefault(inner, dflt)));
            && "default" in m && m["default"] == dflt
            && (Accepts(x, ZDefault(inner, dflt), None) <==> Accepts(x, inner, Some(m["default"])))
  {
  }

  lemma {:induction false} EmittedFields(shape: seq<Field>)
    ensures forall k | k in EmitFields(shape) ::
              exists f <- shape :: f.key == k && EmitFields(shape)[k] == Emit(f.schema)
  {
    if shape != [] {
      var init, last := shape[..|shape| - 1], shape[|shape| - 1];
      EmittedFields(init);
      assert shape == init + [last];
    }
  }

  lemma {:induction false} EveryFieldEmitted(shape: seq<Field>, f: Field)
    requires DistinctFields(shape) && f in shape
    ensures f.key in EmitFields(shape) && EmitFields(shape)[f.key] == Emit(f.schema)
  {
    var init, last := shape[..|shape| - 1], shape[|shape| - 1];
    assert shape == init + [last];
    if f != last {
      var i :| 0 <= i < |init| && init[i] == f;
      assert shape[i] == f;
      EveryFieldEmitted(init, f);
    }
  }

  lemma {:induction false} EmittedRequired(shape: seq<Field>)
    ensures forall k <- RequiredKeys(shape) ::
              exists f <- shape :: f.key == k && !f.schema.ZOptional? && !f.schema.ZDefault?
    ensures forall f <- shape | !f.schema.ZOptional? && !f.schema.ZDefault? :: f.key in RequiredKeys(shape)
  {
    if shape != [] {
      EmittedRequired(shape[..|shape| - 1]);
      assert shape == shape[..|shape| - 1] + [shape[|shape| - 1]];
    }
  }

  lemma {:induction false} EmittedOptions(options: seq<Zod>)
    ensures forall i | 0 <= i < |options| :: EmitAll(options)[i] == Emit(options[i])
  {
    if options != [] {
      EmittedOptions(options[..|options| - 1]);
    }
  }

  // ---- Nothing accepted is lost -------------------------------------------------------------

  lemma TextForward(fmt: Formats, x: Outside, checks: seq<StringCheck>, s: string)
    requires forall c <- checks :: PassesText(x, c, s)
    requires (forall c <- checks :: c.Min? ==> c.n <= 1) || Utf16Length(s) == |s|
    requires FormatsKept(fmt, x)
    ensures Admits(fmt, EmitText(checks), JStr(s))
  {
    EmittedBounds(checks);
    var t := EmitText(checks);
    if t.minLength.Some? {
      assert PassesText(x, Min(t.minLength.value), s);
    }
    if t.maxLength.Some? {
      assert PassesText(x, Max(t.maxLength.value), s);
    }
    if t.format == Some("uuid") && Uuid in checks {
      assert PassesText(x, Uuid, s);
    } else if t.format.Some? {
      assert PassesText(x, Datetime, s);
    }
  }

  lemma ObjectForward(fmt: Formats, shape: seq<Field>, v: Json)
    requires v.JObj?
    requires forall f <- shape | f.key in v.m :: Admits(fmt, Emit(f.schema), v.m[f.key])
    requires forall f <- shape | !f.schema.ZOptional? && !f.schema.ZDefault? :: f.key in v.m
    ensures Admits(fmt, Object(EmitFields(shape), RequiredKeys(shape)), v)
  {
    EmittedFields(shape);
    EmittedRequired(shape);
    var properties := EmitFields(shape);
    forall k | k in properties && k in v.m ensures Admits(fmt, properties[k], v.m[k]) {
      var f :| f in shape && f.key == k && properties[k] == Emit(f.schema);
    }
  }

  lemma PairAdmissions(fmt: Formats, s: Schema, t: Schema, v: Json)
    ensures Admissions(fmt, [s, t], v) == [Admits(fmt, s, v), Admits(fmt, t, v)]
  {
    assert [s, t][0] == s && [s, t][1] == t;
  }

  /** A nullable admits null exactly when what it wraps does not. */
  lemma NullableNeedsRejection(fmt: Formats, s: Schema, v: Json)
    ensures Admits(fmt, OneOf([s, Null]), v) <==> (v.JNull? <==> !Admits(fmt, s, v))
  {
    PairAdmissions(fmt, s, Null, v);
    OneOfTwo(Admissions(fmt, [s, Null], v));
  }

  lemma OneOfTwo(verdicts: seq<bool>)
    requires |verdicts| == 2
    ensures OnlyOne(verdicts) <==> verdicts[0] != verdicts[1]
  {
  }

  lemma UnionForward(fmt: Formats, options: seq<Schema>, v: Json, i: nat)
    requires Disjoint(fmt, options) && i < |options| && Admits(fmt, options[i], v)
    ensures Admits(fmt, OneOf(options), v)
  {
    var verdicts := Admissions(fmt, options, v);
    assert verdicts[i];
    forall j | 0 <= j < |verdicts| && j != i ensures !verdicts[j] {
      assert j < i ==> !Admits(fmt, options[j], v);
    }
  }

  lemma UnionOptionForward(fmt: Formats, options: seq<Zod>, o: Zod, v: Json)
    requires Disjoint(fmt, EmitAll(options)) && o in options && Admits(fmt, Emit(o), v)
    ensures Admits(fmt, OneOf(EmitAll(options)), v)
  {
    EmittedOptions(options);
    var i :| 0 <= i < |options| && options[i] == o;
    UnionForward(fmt, EmitAll(options), v, i);
  }

  lemma {:induction false} Forward(fmt: Formats, x: Outside, z: Zod, v: Json)
    requires FormatsKept(fmt, x) && Handled(fmt, x, z) && Accepts(x, z, Some(v))
    requires MinimaShort(z) || LengthsAgree(v)
    ensures Admits(fmt, Emit(z), v)
    decreases z
  {
    match z
    case ZObject(shape, _) =>
      forall f <- shape | f.key in v.m ensures Admits(fmt, Emit(f.schema), v.m[f.key]) {
        Forward(fmt, x, f.schema, v.m[f.key]);
      }
      ObjectForward(fmt, shape, v);
    case ZString(checks) => TextForward(fmt, x, checks, v.s);
    case ZOptional(inner) => Forward(fmt, x, inner, v);
    case ZNullable(inner) =>
      if !v.JNull? {
        Forward(fmt, x, inner, v);
      }
      NullableNeedsRejection(fmt, Emit(inner), v);
    case ZDefault(inner, _) => Forward(fmt, x, inner, v);
    case ZRecord(_, valueType) =>
      forall k | k in v.m ensures Admits(fmt, Emit(valueType), v.m[k]) {
        assert k in v.m.Keys;
        Forward(fmt, x, valueType, v.m[k]);
      }
    case ZArray(element, _, _) =>
      forall e <- v.elems ensures Admits(fmt, Emit(element), e) {
        Forward(fmt, x, element, e);
      }
    case ZUnion(options) =>
      var o :| o in options && Accepts(x, o, Some(v));
      Forward(fmt, x, o, v);
      UnionOptionForward(fmt, options, o, v);
    case _ =>
  }

  // ---- Nothing is gained --------------------------------------------------------------------

  lemma TextBackward(fmt: Formats, x: Outside, checks: seq<StringCheck>, s: string)
    requires ChecksEmitted(fmt, x, checks) && Admits(fmt, EmitText(checks), JStr(s)) && Utf16Length(s) == |s|
    ensures forall c <- checks :: PassesText(x, c, s)
  {
  }

  lemma ObjectBackward(fmt: Formats, shape: seq<Field>, v: Json)
    requires DistinctFields(shape) && v.JObj?
    requires Admits(fmt, Object(EmitFields(shape), RequiredKeys(shape)), v)
    ensures forall f <- shape | f.key in v.m :: Admits(fmt, Emit(f.schema), v.m[f.key])
    ensures forall f <- shape | f.key !in v.m :: f.schema.ZOptional? || f.schema.ZDefault?
  {
    EmittedRequired(shape);
    forall f <- shape | f.key in v.m ensures Admits(fmt, Emit(f.schema), v.m[f.key]) {
      EveryFieldEmitted(shape, f);
    }
  }

  lemma UnionBackward(fmt: Formats, options: seq<Zod>, v: Json) returns (i: nat)
    requires Admits(fmt, OneOf(EmitAll(options)), v)
    ensures i < |options| && Admits(fmt, Emit(options[i]), v)
  {
    EmittedOptions(options);
    var verdicts := Admissions(fmt, EmitAll(options), v);
    var k :| 0 <= k < |options| && verdicts[k];
    i := k;
  }

  lemma {:induction false} Backward(fmt: Formats, x: Outside, z: Zod, v: Json)
    requires Exact(fmt, x, z) && Admits(fmt, Emit(z), v) && LengthsAgree(v)
    ensures Accepts(x, z, Some(v))
    decreases z
  {
    match z
    case ZObject(shape, _) =>
      ObjectBackward(fmt, shape, v);
      forall f <- shape | f.key in v.m ensures Accepts(x, f.schema, Some(v.m[f.key])) {
        Backward(fmt, x, f.schema, v.m[f.key]);
      }
    case ZString(checks) => TextBackward(fmt, x, checks, v.s);
    case ZOptional(inner) => Backward(fmt, x, inner, v);
    case ZNullable(inner) =>
      NullableNeedsRejection(fmt, Emit(inner), v);
      if !v.JNull? {
        Backward(fmt, x, inner, v);
      }
    case ZDefault(inner, _) => Backward(fmt, x, inner, v);
    case ZRecord(_, valueType) =>
      forall k <- v.m.Keys ensures Accepts(x, ZString([]), Some(JStr(k))) && Accepts(x, valueType, Some(v.m[k])) {
        Backward(fmt, x, valueType, v.m[k]);
      }
    case ZArray(element, _, _) =>
      forall e <- v.elems ensures Accepts(x, element, Some(e)) {
        Backward(fmt, x, element, e);
      }
    case ZUnion(options) =>
      var i := UnionBackward(fmt, options, v);
      Backward(fmt, x, options[i], v);
      assert options[i] in options;
    case _ =>
  }

  // ---- The theorems, on the written JSON ----------------------------------------------------

  /** Every JSON value the Zod schema accepts is valid against the JSON the compiler writes for it. */
  lemma AcceptedValuesAreValid(fmt: Formats, x: Outside, z: Zod, v: Json)
    requires FormatsKept(fmt, x) && Handled(fmt, x, z) && (MinimaShort(z) || LengthsAgree(v))
    ensures Accepts(x, z, Some(v)) ==> Valid(fmt, Rendered(Emit(z)), v)
  {
    if Accepts(x, z, Some(v)) {
      Forward(fmt, x, z, v);
    }
    RenderedMeans(fmt, Emit(z), v);
  }

  lemma ValidValuesAreAccepted(fmt: Formats, x: Outside, z: Zod, v: Json)
    requires Exact(fmt, x, z) && LengthsAgree(v)
    ensures Valid(fmt, Rendered(Emit(z)), v) ==> Accepts(x, z, Some(v))
  {
    RenderedMeans(fmt, Emit(z), v);
    if Admits(fmt, Emit(z), v) {
      Backward(fmt, x, z, v);
    }
  }

  /** On the fragment without ignored checks the two meanings are one. */
  lemma CompiledMeansTheSame(fmt: Formats, x: Outside, z: Zod, v: Json)
    requires FormatsKept(fmt, x) && Handled(fmt, x, z) && Exact(fmt, x, z) && LengthsAgree(v)
    ensures Accepts(x, z, Some(v)) <==> Valid(fmt, Rendered(Emit(z)), v)
  {
    AcceptedValuesAreValid(fmt, x, z, v);
    ValidValuesAreAccepted(fmt, x, z, v);
  }

  /** The written list of required members is there exactly when there are any, and lists exactly those. */
  lemma RequiredIsListed(shape: seq<Field>, strict: bool)
    ensures var m := Members(Emit(ZObject(shape, strict)));
            && ("required" in m <==> exists f <- shape :: !f.schema.ZOptional? && !f.schema.ZDefault?)
            && ("required" in m ==> m["required"].JArr? && forall k :: JStr(k) in m["required"].elems <==>
                  exists f <- shape :: f.key == k && !f.schema.ZOptional? && !f.schema.ZDefault?)
  {
    EmittedRequired(shape);
    KeywordsDiffer();
    var required := RequiredKeys(shape);
    assert required != [] ==> required[0] in required;
    forall k: string ensures JStr(k) in RenderedNames(required) <==> k in required {
      assert forall i | 0 <= i < |required| :: RenderedNames(required)[i] == JStr(required[i]);
    }
  }

  // ---- The conditions are the right ones ----------------------------------------------------

  ghost predicate KeepsEveryOption(fmt: Formats, options: seq<Schema>) {
    forall v: Json, i | 0 <= i < |options| && Admits(fmt, options[i], v) :: Admits(fmt, OneOf(options), v)
  }

  lemma OverlapIsLost(fmt: Formats, options: seq<Schema>, v: Json, i: nat, j: nat)
    requires i < j < |options| && Admits(fmt, options[i], v) && Admits(fmt, options[j], v)
    ensures !Admits(fmt, OneOf(options), v)
  {
  }

  /** `oneOf` keeps everything some option admits exactly when the emitted options are disjoint. */
  lemma UnionNeedsDisjointness(fmt: Formats, options: seq<Schema>)
    ensures KeepsEveryOption(fmt, options) <==> Disjoint(fmt, options)
  {
    if KeepsEveryOption(fmt, options) {
      forall v: Json, i, j | 0 <= i < j < |options| && Admits(fmt, options[i], v) ensures !Admits(fmt, options[j], v) {
        if Admits(fmt, options[j], v) {
          OverlapIsLost(fmt, options, v, i, j);
        }
      }
    }
    if Disjoint(fmt, options) {
      forall v: Json, i | 0 <= i < |options| && Admits(fmt, options[i], v) ensures Admits(fmt, OneOf(options), v) {
        UnionForward(fmt, options, v, i);
      }
    }
  }

  /** A field that is neither optional nor defaulted must be present, whatever its schema accepts. */
  lemma FieldsAreRequired(fmt: Formats, shape: seq<Field>, strict: bool, f: Field, v: Json)
    requires f in shape && v.JObj? && f.key !in v.m && !f.schema.ZOptional? && !f.schema.ZDefault?
    ensures !Valid(fmt, Rendered(Emit(ZObject(shape, strict))), v)
  {
    EmittedRequired(shape);
    RenderedMeans(fmt, Emit(ZObject(shape, strict)), v);
  }

  const ASTRAL: char := '\U{1F600}'

  lemma {:induction false} AstralLength(s: string)
    requires forall i | 0 <= i < |s| :: s[i] == ASTRAL
    ensures Utf16Length(s) == 2 * |s|
  {
    if s != "" {
      AstralLength(s[1..]);
    }
  }

  /** A minimum length means the same in both languages exactly up to 1, a maximum length only for 0. */
  lemma LengthsMustBeShort(n: nat)
    ensures (forall s: string :: Utf16Length(s) >= n ==> |s| >= n) <==> n <= 1
    ensures (forall s: string :: |s| <= n ==> Utf16Length(s) <= n) <==> n == 0
  {
    var s := seq(n, _ => ASTRAL);
    AstralLength(s);
    if n >= 2 {
      var t := seq(n - 1, _ => ASTRAL);
      AstralLength(t);
      assert Utf16Length(t) >= n && |t| < n;
    }
    assert |s| <= n;
  }

  lemma {:induction false} PlainLength(s: string)
    requires forall i | 0 <= i < |s| :: s[i] == 'a'
    ensures Utf16Length(s) == |s|
  {
    if s != "" {
      PlainLength(s[1..]);
    }
  }

  lemma {:induction false} EveryBoundEmitted(checks: seq<StringCheck>)
    ensures (exists c <- checks :: c.Min?) ==> EmitText(checks).minLength.Some?
    ensures (exists c <- checks :: c.Max?) ==> EmitText(checks).maxLength.Some?
  {
    if checks != [] {
      EveryBoundEmitted(checks[..|checks| - 1]);
      assert checks == checks[..|checks| - 1] + [checks[|checks| - 1]];
    }
  }

  /** The emitted bounds contradict each other. */
  predicate Unsatisfiable(t: Schema)
    requires t.Text?
  {
    t.minLength.Some? && t.maxLength.Some? && t.minLength.value > t.maxLength.value
  }

  ghost predicate BoundsKept(fmt: Formats, x: Outside, checks: seq<StringCheck>) {
    forall s: string | Utf16Length(s) == |s| && Admits(fmt, EmitText(checks), JStr(s)) ::
      forall c <- checks :: PassesText(x, c, s)
  }

  lemma OverwrittenBoundLetsIn(fmt: Formats, x: Outside, checks: seq<StringCheck>, c: StringCheck)
    requires c in checks && !Unsatisfiable(EmitText(checks)) && forall c <- checks :: c.Min? || c.Max?
    requires (c.Min? && EmitText(checks).minLength.Some? && c.n > EmitText(checks).minLength.value)
             || (c.Max? && EmitText(checks).maxLength.Some? && c.n < EmitText(checks).maxLength.value)
    ensures !BoundsKept(fmt, x, checks)
  {
    var t := EmitText(checks);
    EmittedBounds(checks);
    var s := seq(if c.Min? then t.minLength.value else t.maxLength.value, _ => 'a');
    PlainLength(s);
    assert Admits(fmt, t, JStr(s)) && !PassesText(x, c, s);
  }

  /**
    The last bound of a kind is the one emitted. Nothing Zod refuses for its length gets in exactly when no bound
    is overwritten by a looser one, or the emitted bounds leave nothing to get in.
   */
  lemma BoundsExact(fmt: Formats, x: Outside, checks: seq<StringCheck>)
    requires forall c <- checks :: c.Min? || c.Max?
    ensures BoundsKept(fmt, x, checks) <==> ChecksEmitted(fmt, x, checks) || Unsatisfiable(EmitText(checks))
  {
    EveryBoundEmitted(checks);
    if !ChecksEmitted(fmt, x, checks) && !Unsatisfiable(EmitText(checks)) {
      var t := EmitText(checks);
      var c :| c in checks && !(c.Min? && t.minLength.Some? && c.n <= t.minLength.value)
               && !(c.Max? && t.maxLength.Some? && c.n >= t.maxLength.value);
      OverwrittenBoundLetsIn(fmt, x, checks, c);
    }
  }

  /** A looser last bound lets in what Zod refuses. */
  lemma LaterBoundOverwrites(fmt: Formats, x: Outside, tight: nat, loose: nat)
    ensures loose < tight ==>
              var checks, s := [Min(tight), Min(loose)], seq(loose, _ => 'a');
              Admits(fmt, EmitText(checks), JStr(s)) && !Accepts(x, ZString(checks), Some(JStr(s)))
    ensures tight < loose ==>
              var checks, s := [Max(tight), Max(loose)], seq(loose, _ => 'a');
              Admits(fmt, EmitText(checks), JStr(s)) && !Accepts(x, ZString(checks), Some(JStr(s)))
  {
    PlainLength(seq(loose, _ => 'a'));
    TwoBounds(Min(tight), Min(loose));
    TwoBounds(Max(tight), Max(loose));
    assert Min(tight) in [Min(tight), Min(loose)] && Max(tight) in [Max(tight), Max(loose)];
  }

  lemma TwoBounds(first: StringCheck, last: StringCheck)
    ensures EmitText([first, last]) == AddCheck(AddCheck(Text(None, None, None), first), last)
  {
    assert [first, last][..1] == [first] && [first][..0] == [];
    assert EmitText([first]) == AddCheck(EmitText([]), first);
  }
}
