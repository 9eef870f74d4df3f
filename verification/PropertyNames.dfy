/**
  The walk that collects property names from a generated schema, and the guard built on it: no tool input
  may declare `brand_id`.
 */
module PropertyNames {
  import opened JsonSchema
  import opened SchemaCompiler
  import opened SchemaPreservation

  /** Decimal text of an array index, as `Object.keys` lists it. */
  function IndexName(i: nat): string {
    if i < 10 then [(48 + i) as char] else IndexName(i / 10) + [(48 + i % 10) as char]
  }

  function IndexOf(s: string): int {
    if s == "" then 0 else IndexOf(s[..|s| - 1]) * 10 + (s[|s| - 1] as int - '0' as int)
  }

  lemma {:induction false} IndexReadBack(i: nat)
    ensures IndexOf(IndexName(i)) == i && IndexName(i) != ""
    ensures forall c <- IndexName(i) :: '0' <= c <= '9'
  {
    var s := IndexName(i);
    if i < 10 {
      assert s[..0] == "";
    } else {
      IndexReadBack(i / 10);
      assert s[..|s| - 1] == IndexName(i / 10);
    }
  }

  /** The own keys of an array are the decimal texts of its indices. */
  lemma ArrayKeys(elems: seq<Json>, i: nat)
    ensures IndexName(i) in OwnKeys(JArr(elems)) <==> i < |elems|
  {
    if IndexName(i) in OwnKeys(JArr(elems)) {
      var j :| 0 <= j < |elems| && IndexName(j) == IndexName(i);
      IndexReadBack(i);
      IndexReadBack(j);
    }
  }

  /** `Object.keys` of an object or an array. */
  function OwnKeys(v: Json): set<string> {
    match v
    case JObj(m) => m.Keys
    case JArr(elems) => set i | 0 <= i < |elems| :: IndexName(i)
    case _ => {}
  }

  /** What the walk adds to its accumulator. */
  function Collected(node: Json): set<string>
    decreases node, 1
  {
    match node
    case JObj(m) =>
      (if "properties" in m then OwnKeys(m["properties"]) else {}) + CollectedAt(node, m.Keys)
    case JArr(elems) => CollectedAll(elems)
    case _ => {}
  }

  /** Found below some of the members of an object. */
  function CollectedAt(node: Json, keys: set<string>): set<string>
    requires node.JObj? && keys <= node.m.Keys
    decreases node, 0
  {
    set k, n | k in keys && n in Collected(node.m[k]) :: n
  }

  function CollectedAll(elems: seq<Json>): set<string>
    decreases elems, 0
  {
    set e, n | e in elems && n in Collected(e) :: n
  }

  /** The accumulator set, filled in place. */
  class NameCollector {
    var names: set<string>

    constructor ()
      ensures names == {}
    {
      names := {};
    }

    method Collect(node: Json)
      modifies this
      ensures names == old(names) + Collected(node)
      decreases node, 1
    {
      match node
      case JObj(m) =>
        if "properties" in m {
          names := names + OwnKeys(m["properties"]);
        }
        CollectMembers(node);
      case JArr(elems) => CollectElems(elems);
      case _ =>
    }

    method CollectMembers(node: Json)
      requires node.JObj?
      modifies this
      ensures names == old(names) + CollectedAt(node, node.m.Keys)
      decreases node, 0
    {
      var left := node.m.Keys;
      while left != {}
        invariant left <= node.m.Keys
        invariant names == old(names) + CollectedAt(node, node.m.Keys - left)
        decreases |left|
      {
        var k :| k in left;
        Collect(node.m[k]);
        assert node.m.Keys - (left - {k}) == (node.m.Keys - left) + {k};
        left := left - {k};
      }
      assert node.m.Keys - left == node.m.Keys;
    }

    method CollectElems(elems: seq<Json>)
      modifies this
      ensures names == old(names) + CollectedAll(elems)
      decreases elems, 0
    {
      for i := 0 to |elems|
        invariant names == old(names) + CollectedAll(elems[..i])
      {
        Collect(elems[i]);
        assert elems[..i + 1] == elems[..i] + [elems[i]];
      }
      assert elems[..|elems|] == elems;
    }
  }

  // ---- What a schema declares ---------------------------------------------------------------

  /** The property names declared at any depth of a Zod schema. The keys of a record are texts and declare none. */
  function Declared(z: Zod): set<string>
    decreases z
  {
    match z
    case ZObject(shape, _) =>
      (set f | f in shape :: f.key) + (set f, n | f in shape && n in Declared(f.schema) :: n)
    case ZOptional(inner) => Declared(inner)
    case ZNullable(inner) => Declared(inner)
    case ZDefault(inner, _) => Declared(inner)
    case ZRecord(_, valueType) => Declared(valueType)
    case ZArray(element, _, _) => Declared(element)
    case ZUnion(options) => set o, n | o in options && n in Declared(o) :: n
    case ZCoerced(primitive) => Declared(primitive)
    case ZOther(_, parts) => set p, n | p in parts && n in Declared(p) :: n
    case _ => {}
  }

  /** Those among them that the compiler looks at: not beneath a class it has no branch for. */
  function Visible(z: Zod): set<string>
    decreases z
  {
    match z
    case ZObject(shape, _) =>
      (set f | f in shape :: f.key) + (set f, n | f in shape && n in Visible(f.schema) :: n)
    case ZOptional(inner) => Visible(inner)
    case ZNullable(inner) => Visible(inner)
    case ZDefault(inner, _) => Visible(inner)
    case ZRecord(_, valueType) => Visible(valueType)
    case ZArray(element, _, _) => Visible(element)
    case ZUnion(options) => set o, n | o in options && n in Visible(o) :: n
    case ZCoerced(primitive) => Visible(primitive)
    case _ => {}
  }

  /** The names declared beneath the classes without a branch. */
  function Hidden(z: Zod): set<string>
    decreases z
  {
    match z
    case ZObject(shape, _) => set f, n | f in shape && n in Hidden(f.schema) :: n
    case ZOptional(inner) => Hidden(inner)
    case ZNullable(inner) => Hidden(inner)
    case ZDefault(inner, _) => Hidden(inner)
    case ZRecord(_, valueType) => Hidden(valueType)
    case ZArray(element, _, _) => Hidden(element)
    case ZUnion(options) => set o, n | o in options && n in Hidden(o) :: n
    case ZCoerced(primitive) => Hidden(primitive)
    case ZOther(_, _) => Declared(z)
    case _ => {}
  }

  lemma FieldsVisibleOrHidden(shape: seq<Field>, strict: bool)
    requires forall f <- shape :: Declared(f.schema) == Visible(f.schema) + Hidden(f.schema)
    ensures Declared(ZObject(shape, strict)) == Visible(ZObject(shape, strict)) + Hidden(ZObject(shape, strict))
  {
  }

  lemma OptionsVisibleOrHidden(options: seq<Zod>)
    requires forall o <- options :: Declared(o) == Visible(o) + Hidden(o)
    ensures Declared(ZUnion(options)) == Visible(ZUnion(options)) + Hidden(ZUnion(options))
  {
  }

  /** Every declared name is visible, hidden, or both. */
  lemma {:induction false} DeclaredIsVisibleOrHidden(z: Zod)
    ensures Declared(z) == Visible(z) + Hidden(z)
    decreases z
  {
    match z
    case ZObject(shape, _) =>
      forall f <- shape ensures Declared(f.schema) == Visible(f.schema) + Hidden(f.schema) {
        DeclaredIsVisibleOrHidden(f.schema);
      }
      FieldsVisibleOrHidden(z.shape, z.strict);
    case ZOptional(inner) => DeclaredIsVisibleOrHidden(inner);
    case ZNullable(inner) => DeclaredIsVisibleOrHidden(inner);
    case ZDefault(inner, _) => DeclaredIsVisibleOrHidden(inner);
    case ZRecord(_, valueType) => DeclaredIsVisibleOrHidden(valueType);
    case ZArray(element, _, _) => DeclaredIsVisibleOrHidden(element);
    case ZUnion(options) =>
      forall o <- options ensures Declared(o) == Visible(o) + Hidden(o) {
        DeclaredIsVisibleOrHidden(o);
      }
      OptionsVisibleOrHidden(options);
    case ZCoerced(primitive) => DeclaredIsVisibleOrHidden(primitive);
    case _ =>
  }

  /** The property names declared at any depth of an emitted schema. */
  function DeclaredIn(s: Schema): set<string>
    decreases s
  {
    match s
    case Object(properties, _) =>
      properties.Keys + (set k, n | k in properties && n in DeclaredIn(properties[k]) :: n)
    case Dictionary(additional) => DeclaredIn(additional)
    case List(items) => DeclaredIn(items)
    case OneOf(options) => set o, n | o in options && n in DeclaredIn(o) :: n
    case WithDefault(inner, _) => DeclaredIn(inner)
    case _ => {}
  }

  /** Field names are distinct at every level, as the keys of an object are. */
  predicate DistinctEverywhere(z: Zod)
    decreases z
  {
    match z
    case ZObject(shape, _) =>
      DistinctFields(shape) && forall f <- shape :: DistinctEverywhere(f.schema)
    case ZOptional(inner) => DistinctEverywhere(inner)
    case ZNullable(inner) => DistinctEverywhere(inner)
    case ZDefault(inner, _) => DistinctEverywhere(inner)
    case ZRecord(_, valueType) => DistinctEverywhere(valueType)
    case ZArray(element, _, _) => DistinctEverywhere(element)
    case ZUnion(options) => forall o <- options :: DistinctEverywhere(o)
    case ZCoerced(primitive) => DistinctEverywhere(primitive)
    case _ => true
  }

  lemma ObjectDeclaresNoMore(shape: seq<Field>, n: string)
    requires forall f <- shape :: DeclaredIn(Emit(f.schema)) == Visible(f.schema)
    requires n in DeclaredIn(Object(EmitFields(shape), RequiredKeys(shape)))
    ensures exists f <- shape :: f.key == n || n in Visible(f.schema)
  {
  }

  lemma ObjectDeclaresField(shape: seq<Field>, f: Field, n: string)
    requires DistinctFields(shape) && f in shape && DeclaredIn(Emit(f.schema)) == Visible(f.schema)
    requires f.key == n || n in Visible(f.schema)
    ensures n in DeclaredIn(Object(EmitFields(shape), RequiredKeys(shape)))
  {
    EveryFieldEmitted(shape, f);
    var properties := EmitFields(shape);
    assert f.key in properties && properties[f.key] == Emit(f.schema);
  }

  lemma ObjectDeclares(shape: seq<Field>, strict: bool)
    requires DistinctFields(shape)
    requires forall f <- shape :: DeclaredIn(Emit(f.schema)) == Visible(f.schema)
    ensures DeclaredIn(Emit(ZObject(shape, strict))) == Visible(ZObject(shape, strict))
  {
    var s := Object(EmitFields(shape), RequiredKeys(shape));
    forall n | n in DeclaredIn(s) ensures n in Visible(ZObject(shape, strict)) {
      ObjectDeclaresNoMore(shape, n);
    }
    forall n | n in Visible(ZObject(shape, strict)) ensures n in DeclaredIn(s) {
      var f :| f in shape && (f.key == n || n in Visible(f.schema));
      ObjectDeclaresField(shape, f, n);
    }
  }

  /** Compiling keeps exactly the names the compiler looks at. */
  lemma {:induction false} EmitDeclares(z: Zod)
    requires DistinctEverywhere(z)
    ensures DeclaredIn(Emit(z)) == Visible(z)
    decreases z
  {
    match z
    case ZObject(shape, strict) =>
      forall f <- shape ensures DeclaredIn(Emit(f.schema)) == Visible(f.schema) {
        EmitDeclares(f.schema);
      }
      ObjectDeclares(shape, strict);
    case ZString(checks) => assert EmitText(checks).Text?;
    case ZOptional(inner) => EmitDeclares(inner);
    case ZNullable(inner) =>
      EmitDeclares(inner);
      assert forall o | o in [Emit(inner), Null] :: o == Emit(inner) || o == Null;
      assert Emit(inner) in [Emit(inner), Null];
    case ZDefault(inner, _) => EmitDeclares(inner);
    case ZRecord(_, valueType) => EmitDeclares(valueType);
    case ZArray(element, _, _) => EmitDeclares(element);
    case ZUnion(options) =>
      forall o <- options ensures DeclaredIn(Emit(o)) == Visible(o) {
        EmitDeclares(o);
      }
      UnionDeclares(options);
    case ZCoerced(primitive) => EmitDeclares(primitive);
    case _ =>
  }

  lemma UnionDeclaresNoMore(options: seq<Zod>, n: string)
    requires forall o <- options :: DeclaredIn(Emit(o)) == Visible(o)
    requires n in DeclaredIn(OneOf(EmitAll(options)))
    ensures exists o <- options :: n in Visible(o)
  {
  }

  lemma OptionDeclared(options: seq<Schema>, o: Schema, n: string)
    requires o in options && n in DeclaredIn(o)
    ensures n in DeclaredIn(OneOf(options))
  {
  }

  lemma UnionDeclaresOption(options: seq<Zod>, o: Zod, n: string)
    requires o in options && DeclaredIn(Emit(o)) == Visible(o) && n in Visible(o)
    ensures n in DeclaredIn(OneOf(EmitAll(options)))
  {
    EmittedOptions(options);
    var all := EmitAll(options);
    var i :| 0 <= i < |options| && options[i] == o;
    assert all[i] == Emit(o) && all[i] in all;
    OptionDeclared(all, all[i], n);
  }

  lemma UnionDeclares(options: seq<Zod>)
    requires forall o <- options :: DeclaredIn(Emit(o)) == Visible(o)
    ensures DeclaredIn(OneOf(EmitAll(options))) == Visible(ZUnion(options))
  {
    var s := OneOf(EmitAll(options));
    forall n | n in DeclaredIn(s) ensures n in Visible(ZUnion(options)) {
      UnionDeclaresNoMore(options, n);
    }
    forall n | n in Visible(ZUnion(options)) ensures n in DeclaredIn(s) {
      var o :| o in options && n in Visible(o);
      UnionDeclaresOption(options, o, n);
    }
  }

  // ---- What the walk finds ------------------------------------------------------------------

  /** The words the compiler writes as keys of a schema object. */
  const KEYWORDS: set<string> := {
    "type", "format", "minLength", "maxLength", "const", "enum", "properties", "required",
    "additionalProperties", "items", "oneOf", "default"
  }

  lemma MembersAreKeywords(s: Schema)
    ensures Members(s).Keys <= KEYWORDS
  {
  }

  /** What the walk finds in the constants and defaults of a schema, but for a default of its own. */
  function ValuesBelow(s: Schema): set<string>
    decreases s, 0
  {
    match s
    case Const(value) => Collected(value)
    case Object(properties, _) => set k, n | k in properties && n in ValueNames(properties[k]) :: n
    case Dictionary(additional) => ValueNames(additional)
    case List(items) => ValueNames(items)
    case OneOf(options) => set o, n | o in options && n in ValueNames(o) :: n
    case WithDefault(inner, _) => ValuesBelow(inner)
    case _ => {}
  }

  /** What the walk finds in the constants and defaults of a schema; an outer default replaces an inner one. */
  function ValueNames(s: Schema): set<string>
    decreases s, 1
  {
    (if s.WithDefault? then Collected(s.dflt) else {}) + ValuesBelow(s)
  }

  /** The members of a schema object, with any value at all under `default`. */
  ghost predicate SameButDefault(m: map<string, Json>, n: map<string, Json>) {
    forall k | k != "default" :: SameKeyword(m, n, k)
  }

  lemma CollectedBelow(m: map<string, Json>, k: string)
    requires k in m
    ensures Collected(m[k]) <= Collected(JObj(m))
  {
  }

  lemma CollectedInList(elems: seq<Json>, i: nat)
    requires i < |elems|
    ensures Collected(elems[i]) <= Collected(JArr(elems))
  {
  }

  lemma {:induction false} PropertiesAreFound(s: Schema, m: map<string, Json>)
    requires s.Object? && "properties" in m && m["properties"] == Members(s)["properties"]
    ensures DeclaredIn(s) + ValuesBelow(s) <= Collected(JObj(m))
    decreases s, 0
  {
    var properties, rendered := s.properties, m["properties"].m;
    assert rendered.Keys == properties.Keys;
    forall k | k in properties ensures DeclaredIn(properties[k]) + ValueNames(properties[k]) <= Collected(JObj(m)) {
      AllIsFound(properties[k]);
      CollectedBelow(rendered, k);
      CollectedBelow(m, "properties");
    }
  }

  lemma {:induction false} OptionsAreFound(s: Schema, m: map<string, Json>)
    requires s.OneOf? && "oneOf" in m && m["oneOf"] == JArr(RenderedOptions(s.options))
    ensures DeclaredIn(s) + ValuesBelow(s) <= Collected(JObj(m))
    decreases s, 0
  {
    forall o <- s.options ensures DeclaredIn(o) + ValueNames(o) <= Collected(JObj(m)) {
      var i :| 0 <= i < |s.options| && s.options[i] == o;
      AllIsFound(o);
      CollectedInList(m["oneOf"].elems, i);
      CollectedBelow(m, "oneOf");
    }
  }

  /** Everything declared is found, whatever a default adds, and so are the names in the values below. */
  lemma {:induction false} DeclaredIsFound(s: Schema, m: map<string, Json>)
    requires SameButDefault(m, Members(s))
    ensures DeclaredIn(s) + ValuesBelow(s) <= Collected(JObj(m))
    decreases s, 1
  {
    match s
    case Const(value) =>
      assert "const"[0] != "default"[0] && SameKeyword(m, Members(s), "const");
      CollectedBelow(m, "const");
    case Object(properties, _) =>
      assert "properties"[0] != "default"[0] && SameKeyword(m, Members(s), "properties");
      PropertiesAreFound(s, m);
    case Dictionary(additional) =>
      assert SameKeyword(m, Members(s), "additionalProperties");
      AllIsFound(additional);
      CollectedBelow(m, "additionalProperties");
    case List(items) =>
      assert SameKeyword(m, Members(s), "items");
      AllIsFound(items);
      CollectedBelow(m, "items");
    case OneOf(options) =>
      assert SameKeyword(m, Members(s), "oneOf");
      OptionsAreFound(s, m);
    case WithDefault(inner, _) =>
      forall k | k != "default" ensures SameKeyword(m, Members(inner), k) {
        assert SameKeyword(m, Members(s), k);
      }
      DeclaredIsFound(inner, m);
    case _ =>
  }

  lemma {:induction false} AllIsFound(s: Schema)
    ensures DeclaredIn(s) + ValueNames(s) <= Collected(Rendered(s))
    decreases s, 2
  {
    DeclaredIsFound(s, Members(s));
    if s.WithDefault? {
      CollectedBelow(Members(s), "default");
    }
  }

  /** The names found below the members of an object, apart from those of its own `properties`. */
  lemma CollectedAbove(m: map<string, Json>, bound: set<string>)
    requires forall k | k in m :: Collected(m[k]) <= bound
    requires "properties" in m ==> OwnKeys(m["properties"]) <= bound
    ensures Collected(JObj(m)) <= bound
  {
  }

  lemma NamesAreQuiet(names: seq<string>)
    ensures Collected(JArr(RenderedNames(names))) == {}
  {
    assert forall e <- RenderedNames(names) :: e.JStr? && Collected(e) == {};
  }

  lemma {:induction false} PropertiesAreDeclared(s: Schema)
    requires s.Object?
    ensures Collected(Members(s)["properties"]) <= DeclaredIn(s) + ValuesBelow(s) + KEYWORDS
    decreases s, 0
  {
    var rendered := Members(s)["properties"].m;
    forall p | p in s.properties ensures Collected(rendered[p]) <= DeclaredIn(s) + ValuesBelow(s) + KEYWORDS {
      FoundIsDeclared(s.properties[p]);
    }
    if "properties" in rendered {
      MembersAreKeywords(s.properties["properties"]);
    }
    CollectedAbove(rendered, DeclaredIn(s) + ValuesBelow(s) + KEYWORDS);
  }

  lemma {:induction false} OptionsAreDeclared(s: Schema)
    requires s.OneOf?
    ensures Collected(JArr(RenderedOptions(s.options))) <= DeclaredIn(s) + ValuesBelow(s) + KEYWORDS
    decreases s, 0
  {
    var elems := RenderedOptions(s.options);
    forall e <- elems ensures Collected(e) <= DeclaredIn(s) + ValuesBelow(s) + KEYWORDS {
      var i :| 0 <= i < |elems| && elems[i] == e;
      FoundIsDeclared(s.options[i]);
      assert s.options[i] in s.options;
    }
  }

  /** A member of a schema object brings only declared names, names in its values, and keywords. */
  lemma {:induction false} MemberIsDeclared(s: Schema, k: string)
    requires k in Members(s)
    ensures Collected(Members(s)[k]) <=
            DeclaredIn(s) + (if k == "default" then ValueNames(s) else ValuesBelow(s)) + KEYWORDS
    decreases s, 1
  {
    match s
    case Enum(names) => NamesAreQuiet(names);
    case Object(_, required) =>
      NamesAreQuiet(required);
      PropertiesAreDeclared(s);
    case Dictionary(additional) => FoundIsDeclared(additional);
    case List(items) => FoundIsDeclared(items);
    case OneOf(_) => OptionsAreDeclared(s);
    case WithDefault(inner, _) => if k != "default" { MemberIsDeclared(inner, k); }
    case _ =>
  }

  /** What is found is declared, or in a value, or a keyword (which a field called `properties` brings in). */
  lemma {:induction false} FoundIsDeclared(s: Schema)
    ensures Collected(Rendered(s)) <= DeclaredIn(s) + ValueNames(s) + KEYWORDS
    decreases s, 2
  {
    forall k | k in Members(s) ensures Collected(Members(s)[k]) <= DeclaredIn(s) + ValueNames(s) + KEYWORDS {
      MemberIsDeclared(s, k);
    }
    OwnPropertiesDeclared(s);
    CollectedAbove(Members(s), DeclaredIn(s) + ValueNames(s) + KEYWORDS);
  }

  lemma {:induction false} OwnPropertiesDeclared(s: Schema)
    ensures "properties" in Members(s) ==> OwnKeys(Members(s)["properties"]) <= DeclaredIn(s)
  {
    if s.WithDefault? {
      OwnPropertiesDeclared(s.inner);
    }
  }

  /** The walk over a generated schema misses no name that the compiler looked at. */
  lemma WalkMissesNothing(z: Zod)
    requires DistinctEverywhere(z)
    ensures Visible(z) <= Collected(Rendered(Emit(z)))
    ensures Declared(z) - Hidden(z) <= Collected(Rendered(Emit(z)))
  {
    EmitDeclares(z);
    AllIsFound(Emit(z));
    DeclaredIsVisibleOrHidden(z);
  }

  /**
    For any name but a schema keyword the walk is exact: it finds the names declared where the compiler has a
    branch, and those that constants and defaults hold under a member called `properties`.
   */
  lemma WalkIsExact(z: Zod, name: string)
    requires DistinctEverywhere(z) && name !in KEYWORDS
    ensures name in Collected(Rendered(Emit(z))) <==> name in Visible(z) || name in ValueNames(Emit(z))
  {
    EmitDeclares(z);
    AllIsFound(Emit(z));
    FoundIsDeclared(Emit(z));
  }

  // ---- The guard ----------------------------------------------------------------------------

  const BRAND_ID: string := "brand_id"

  lemma BrandIdIsNoKeyword()
    ensures BRAND_ID !in KEYWORDS
  {
  }

  /**
    The check on a tool input; `false` is the thrown error. It passes exactly when `brand_id` is declared at
    most beneath a class the compiler has no branch for, and is no property name inside a constant or default.
   */
  method BrandIdAbsent(z: Zod) returns (ok: bool)
    ensures ok <==> BRAND_ID !in Collected(Rendered(Emit(z)))
    ensures DistinctEverywhere(z) ==> (ok <==> BRAND_ID !in Visible(z) && BRAND_ID !in ValueNames(Emit(z)))
    ensures DistinctEverywhere(z) && ok && BRAND_ID in Declared(z) ==> BRAND_ID in Hidden(z)
  {
    var s := ZodToJsonSchema(z);
    var collector := new NameCollector();
    collector.Collect(Rendered(s));
    ok := BRAND_ID !in collector.names;
    if DistinctEverywhere(z) {
      BrandIdIsNoKeyword();
      WalkIsExact(z, BRAND_ID);
      DeclaredIsVisibleOrHidden(z);
    }
  }

  /** A refined object is one class without a branch: it declares `brand_id` and the guard does not see it. */
  lemma RefinedObjectPasses(id: nat, shape: seq<Field>, strict: bool, f: Field)
    requires f in shape && f.key == BRAND_ID
    ensures var z := ZOther(id, [ZObject(shape, strict)]);
            DistinctEverywhere(z) && BRAND_ID in Declared(z) && BRAND_ID !in Collected(Rendered(Emit(z)))
  {
    var refined := ZObject(shape, strict);
    assert refined in [refined] && BRAND_ID in Declared(refined);
  }

  /** A default that holds the name as a property is refused, although no schema declares it. */
  lemma NameInDefaultIsRefused(value: Json)
    ensures var dflt := JObj(map["properties" := JObj(map[BRAND_ID := value])]);
            var z := ZDefault(ZRecord(ZString([]), ZAny), dflt);
            DistinctEverywhere(z) && BRAND_ID !in Declared(z) && BRAND_ID in Collected(Rendered(Emit(z)))
  {
    var dflt := JObj(map["properties" := JObj(map[BRAND_ID := value])]);
    var inner := ZRecord(ZString([]), ZAny);
    var z := ZDefault(inner, dflt);
    assert inner.valueType == ZAny;
    assert Declared(inner) == Declared(inner.valueType) == {};
    assert Declared(z) == Declared(inner);
    assert DistinctEverywhere(inner.valueType);
    assert DistinctEverywhere(inner);
    NameInValue(dflt, value);
    BrandIdIsNoKeyword();
    WalkIsExact(z, BRAND_ID);
  }

  lemma NameInValue(dflt: Json, value: Json)
    requires dflt == JObj(map["properties" := JObj(map[BRAND_ID := value])])
    ensures BRAND_ID in Collected(dflt)
    ensures forall z: Zod :: BRAND_ID in ValueNames(Emit(ZDefault(z, dflt)))
  {
    assert "properties" in dflt.m && BRAND_ID in OwnKeys(dflt.m["properties"]);
    forall z: Zod ensures BRAND_ID in ValueNames(Emit(ZDefault(z, dflt))) {
      assert Emit(ZDefault(z, dflt)) == WithDefault(Emit(z), dflt);
    }
  }
}
