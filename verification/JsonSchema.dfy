/**
  JSON values and the validation keywords of JSON Schema 2020-12 that the schema compiler emits.

  Strings are sequences of Unicode characters; numbers are mathematical (RFC 8259, sections 6 and 7).
 */
module JsonSchema {

  datatype Json =
    | JNull
    | JBool(b: bool)
    | JNum(r: real)
    | JStr(s: string)
    | JArr(elems: seq<Json>)
    | JObj(m: map<string, Json>)

  predicate IsInteger(r: real) {
    r.Floor as real == r
  }

  /** The `type` keyword (Validation, section 6.1.1). */
  predicate HasType(name: string, v: Json) {
    match v
    case JNull => name == "null"
    case JBool(_) => name == "boolean"
    case JNum(r) => name == "number" || (name == "integer" && IsInteger(r))
    case JStr(_) => name == "string"
    case JArr(_) => name == "array"
    case JObj(_) => name == "object"
  }

  /** What a validator makes of a named format; one that treats `format` as an annotation accepts everything. */
  type Formats = (string, string) -> bool

  /** The keywords that look at one value and at no subschema (Validation, sections 6.1, 6.3, 6.5.3 and 7). */
  predicate Asserts(fmt: Formats, s: map<string, Json>, v: Json) {
    && ("type" in s && s["type"].JStr? ==> HasType(s["type"].s, v))
    && ("const" in s ==> v == s["const"])
    && ("enum" in s && s["enum"].JArr? ==> v in s["enum"].elems)
    && ("minLength" in s && s["minLength"].JNum? && v.JStr? ==> |v.s| as real >= s["minLength"].r)
    && ("maxLength" in s && s["maxLength"].JNum? && v.JStr? ==> |v.s| as real <= s["maxLength"].r)
    && ("format" in s && s["format"].JStr? && v.JStr? ==> fmt(s["format"].s, v.s))
    && ("required" in s && s["required"].JArr? && v.JObj? ==>
          forall k <- s["required"].elems :: k.JStr? ==> k.s in v.m)
  }

  predicate DeclaresProperty(s: map<string, Json>, k: string) {
    "properties" in s && s["properties"].JObj? && k in s["properties"].m
  }

  /**
    A value against a schema object. `default` is an annotation; `oneOf`, `properties`,
    `additionalProperties` and `items` apply subschemas (Core, sections 10.2.1.3, 10.3.1.2 and 10.3.2).
   */
  ghost predicate Valid(fmt: Formats, s: Json, v: Json)
    decreases s
  {
    s.JObj? ==>
      && Asserts(fmt, s.m, v)
      && ("properties" in s.m && s.m["properties"].JObj? && v.JObj? ==>
            forall k | k in s.m["properties"].m && k in v.m :: Valid(fmt, s.m["properties"].m[k], v.m[k]))
      && ("additionalProperties" in s.m && v.JObj? ==>
            forall k | k in v.m && !DeclaresProperty(s.m, k) :: Valid(fmt, s.m["additionalProperties"], v.m[k]))
      && ("items" in s.m && v.JArr? ==> forall e <- v.elems :: Valid(fmt, s.m["items"], e))
      && ("oneOf" in s.m && s.m["oneOf"].JArr? ==>
            OnlyOne(Verdicts(fmt, s.m["oneOf"].elems, v)))
  }

  ghost function Verdicts(fmt: Formats, options: seq<Json>, v: Json): (r: seq<bool>)
    ensures |r| == |options| && forall i | 0 <= i < |r| :: r[i] == Valid(fmt, options[i], v)
    decreases options
  {
    if options == [] then [] else [Valid(fmt, options[0], v)] + Verdicts(fmt, options[1..], v)
  }

  predicate OnlyOne(verdicts: seq<bool>) {
    exists i | 0 <= i < |verdicts| :: verdicts[i] && forall j | 0 <= j < |verdicts| && j != i :: !verdicts[j]
  }

  /** No two of the keywords above are the same word. */
  lemma KeywordsDiffer()
    ensures "type" != "enum" && "format" != "oneOf"
    ensures "const" != "items" && "const" != "oneOf" && "items" != "oneOf"
    ensures "minLength" != "maxLength"
  {
    assert "format"[0] == 'f' && "oneOf"[0] == 'o';
    assert "type"[0] != "enum"[0] && "const"[0] != "items"[0] && "const"[0] != "oneOf"[0] && "items"[0] != "oneOf"[0];
    assert "minLength"[1] != "maxLength"[1];
  }

  lemma OneOfAlone(fmt: Formats, options: seq<Json>, v: Json)
    ensures Valid(fmt, JObj(map["oneOf" := JArr(options)]), v) <==> OnlyOne(Verdicts(fmt, options, v))
  {
    KeywordsDiffer();
    var m := map["oneOf" := JArr(options)];
    assert forall k <- m :: k[0] == 'o';
    assert Asserts(fmt, m, v);
    assert "properties" !in m && "additionalProperties" !in m && "items" !in m;
    assert m["oneOf"].elems == options;
  }

  /** An object schema; the required names are listed only when there are some. */
  function ObjectMembers(properties: map<string, Json>, required: seq<Json>): map<string, Json> {
    var m := map["type" := JStr("object"), "properties" := JObj(properties)];
    if required == [] then m else m["required" := JArr(required)]
  }

  lemma ObjectAlone(fmt: Formats, properties: map<string, Json>, required: seq<Json>, v: Json)
    requires forall k <- required :: k.JStr?
    ensures Valid(fmt, JObj(ObjectMembers(properties, required)), v) <==>
              && v.JObj?
              && (forall k <- required :: k.s in v.m)
              && forall k | k in properties && k in v.m :: Valid(fmt, properties[k], v.m[k])
  {
    KeywordsDiffer();
    var m := ObjectMembers(properties, required);
    assert m["properties"] == JObj(properties) && m["type"] == JStr("object");
    assert Asserts(fmt, m, v) <==> v.JObj? && forall k <- required :: k.s in v.m;
  }

  lemma DictionaryAlone(fmt: Formats, additional: Json, v: Json)
    ensures Valid(fmt, JObj(map["type" := JStr("object"), "additionalProperties" := additional]), v) <==>
              v.JObj? && forall k | k in v.m :: Valid(fmt, additional, v.m[k])
  {
    KeywordsDiffer();
    var m := map["type" := JStr("object"), "additionalProperties" := additional];
    assert Asserts(fmt, m, v) <==> v.JObj?;
    assert forall k :: !DeclaresProperty(m, k);
  }

  lemma ListAlone(fmt: Formats, items: Json, v: Json)
    ensures Valid(fmt, JObj(map["type" := JStr("array"), "items" := items]), v) <==>
              v.JArr? && forall e <- v.elems :: Valid(fmt, items, e)
  {
    KeywordsDiffer();
    var m := map["type" := JStr("array"), "items" := items];
    assert Asserts(fmt, m, v) <==> v.JArr?;
  }

  predicate SameKeyword(m: map<string, Json>, n: map<string, Json>, k: string) {
    (k in m <==> k in n) && (k in m ==> m[k] == n[k])
  }

  lemma SameAsserts(fmt: Formats, m: map<string, Json>, n: map<string, Json>, v: Json)
    requires SameKeyword(m, n, "type") && SameKeyword(m, n, "const") && SameKeyword(m, n, "enum")
    requires SameKeyword(m, n, "minLength") && SameKeyword(m, n, "maxLength") && SameKeyword(m, n, "required")
    requires SameKeyword(m, n, "format")
    ensures Asserts(fmt, m, v) <==> Asserts(fmt, n, v)
  {
  }

  /** Keywords without a meaning here, such as `default`, do not matter. */
  lemma AnnotationsDoNotMatter(fmt: Formats, m: map<string, Json>, n: map<string, Json>, v: Json)
    requires SameKeyword(m, n, "type") && SameKeyword(m, n, "const") && SameKeyword(m, n, "enum")
    requires SameKeyword(m, n, "minLength") && SameKeyword(m, n, "maxLength") && SameKeyword(m, n, "required")
    requires SameKeyword(m, n, "format")
    requires SameKeyword(m, n, "properties") && SameKeyword(m, n, "additionalProperties")
    requires SameKeyword(m, n, "items") && SameKeyword(m, n, "oneOf")
    ensures Valid(fmt, JObj(m), v) <==> Valid(fmt, JObj(n), v)
  {
    SameAsserts(fmt, m, n, v);
    assert forall k :: DeclaresProperty(m, k) <==> DeclaresProperty(n, k);
  }

  /** `default` is none of the words with a meaning. */
  lemma DefaultDiffers()
    ensures "default" !in ["type", "const", "enum", "minLength", "maxLength", "required", "format"]
    ensures "default" !in ["properties", "additionalProperties", "items", "oneOf"]
  {
    assert "default"[0] == 'd' && "type"[0] == 't' && "const"[0] == 'c' && "enum"[0] == 'e' && "minLength"[0] == 'm';
    assert "maxLength"[0] == 'm' && "required"[0] == 'r' && "properties"[0] == 'p' && "additionalProperties"[0] == 'a';
    assert "items"[0] == 'i' && "oneOf"[0] == 'o' && "format"[0] == 'f';
  }

  /** Adding a `default` changes nothing a validator looks at. */
  lemma DefaultDoesNotMatter(fmt: Formats, m: map<string, Json>, dflt: Json, v: Json)
    ensures Valid(fmt, JObj(m["default" := dflt]), v) <==> Valid(fmt, JObj(m), v)
  {
    DefaultDiffers();
    AnnotationsDoNotMatter(fmt, m["default" := dflt], m, v);
  }
}
