/**
  What the audit log hashes for one entry, and why that text pins the entry down.

  SHA-256 is any function from text to 64 lower-case hex digits. No function of that type is injective,
  so tamper evidence is stated against collisions among the texts that were actually hashed.
 */
module AuditEntries {
  import opened Lexicographic
  import opened Options
  import opened Texts
  import opened JsonText
  import opened CanonicalJson

  // ---- The digest ---------------------------------------------------------------------------

  predicate IsDigest(t: Text) {
    |t| == 64 && forall u <- t :: IsHexDigit(u)
  }

  type Hash = Text -> Text

  /** What is known of the digest function: it prints 64 hex digits. */
  ghost predicate DigestsAreHex(hash: Hash) {
    forall t :: IsDigest(hash(t))
  }

  // ---- Entries ------------------------------------------------------------------------------

  datatype AuditEntry = AuditEntry(
    brandId: Text, actorId: Option<Text>, actorRole: Text, action: Text,
    entityType: Text, entityId: Text, payload: Js, idempotencyKey: Option<Text>)

  /** The payload is a record with a number text at every number. */
  ghost predicate IsEntry(e: AuditEntry) {
    e.payload.Obj? && WellFormed(e.payload)
  }

  function Nullable(t: Option<Text>): Js {
    match t
    case None => Null
    case Some(s) => Str(s)
  }

  // Member names, in the order the hashed record lists them.
  const KEY_BRAND_ID: Text := [98, 114, 97, 110, 100, 95, 105, 100]  // brand_id
  const KEY_ACTOR_ID: Text := [97, 99, 116, 111, 114, 95, 105, 100]  // actor_id
  const KEY_ACTOR_ROLE: Text := [97, 99, 116, 111, 114, 95, 114, 111, 108, 101]  // actor_role
  const KEY_ACTION: Text := [97, 99, 116, 105, 111, 110]  // action
  const KEY_ENTITY_TYPE: Text := [101, 110, 116, 105, 116, 121, 95, 116, 121, 112, 101]  // entity_type
  const KEY_ENTITY_ID: Text := [101, 110, 116, 105, 116, 121, 95, 105, 100]  // entity_id
  const KEY_PAYLOAD: Text := [112, 97, 121, 108, 111, 97, 100]  // payload

  /** Every field except the idempotency key is hashed. */
  function EntryForHash(e: AuditEntry): Js {
    Obj([Entry(KEY_BRAND_ID, Str(e.brandId)),
         Entry(KEY_ACTOR_ID, Nullable(e.actorId)),
         Entry(KEY_ACTOR_ROLE, Str(e.actorRole)),
         Entry(KEY_ACTION, Str(e.action)),
         Entry(KEY_ENTITY_TYPE, Str(e.entityType)),
         Entry(KEY_ENTITY_ID, Str(e.entityId)),
         Entry(KEY_PAYLOAD, e.payload)])
  }

  /** Two entries whose hashed fields agree; payloads agree as canonical trees. */
  ghost predicate SameContent(d: AuditEntry, e: AuditEntry) {
    && d.brandId == e.brandId && d.actorId == e.actorId && d.actorRole == e.actorRole
    && d.action == e.action && d.entityType == e.entityType && d.entityId == e.entityId
    && Norm(d.payload) == Norm(e.payload)
  }

  /** Two records with the same distinct keys in the same places. */
  ghost predicate Aligned(x: seq<Entry<Js>>, y: seq<Entry<Js>>) {
    && DistinctKeys(x) && DistinctKeys(y) && |x| == |y|
    && forall j | 0 <= j < |x| :: x[j].key == y[j].key && !x[j].value.Undefined? && !y[j].value.Undefined?
  }

  lemma EntryKeysDistinct(e: AuditEntry)
    ensures DistinctKeys(EntryForHash(e).members)
  {
  }

  /** Member values of a record are recovered from its canonical tree, key by key. */
  lemma MemberRecovered(x: seq<Entry<Js>>, y: seq<Entry<Js>>, i: nat)
    requires Aligned(x, y) && i < |x| && Norm(Obj(x)) == Norm(Obj(y))
    ensures Norm(x[i].value) == Norm(y[i].value)
  {
    SortMembers(NormMembers(x));
    SortMembers(NormMembers(y));
    NormMembersOf(x);
    NormMembersOf(y);
    var n := Entry(x[i].key, Norm(x[i].value));
    assert x[i] in x && n in NormMembers(x) && n in Sort(NormMembers(x)) && n in NormMembers(y);
    var m :| m in y && n == Entry(m.key, Norm(m.value));
    KeyDeterminesMember(y, m, y[i]);
  }

  lemma ValuesRecovered(x: seq<Entry<Js>>, y: seq<Entry<Js>>)
    requires Aligned(x, y) && Norm(Obj(x)) == Norm(Obj(y))
    ensures |x| == |y| && forall i | 0 <= i < |x| :: Norm(x[i].value) == Norm(y[i].value)
  {
    forall i | 0 <= i < |x| ensures Norm(x[i].value) == Norm(y[i].value) {
      MemberRecovered(x, y, i);
    }
  }

  lemma NullableRecovered(a: Option<Text>, b: Option<Text>)
    requires Norm(Nullable(a)) == Norm(Nullable(b))
    ensures a == b
  {
  }

  lemma FieldsFromValues(d: AuditEntry, e: AuditEntry, x: seq<Entry<Js>>, y: seq<Entry<Js>>)
    requires x == EntryForHash(d).members && y == EntryForHash(e).members
    requires forall i | 0 <= i < |x| :: Norm(x[i].value) == Norm(y[i].value)
    ensures SameContent(d, e)
  {
    assert Norm(x[0].value) == Norm(y[0].value) && Norm(x[1].value) == Norm(y[1].value);
    assert Norm(x[2].value) == Norm(y[2].value) && Norm(x[3].value) == Norm(y[3].value);
    assert Norm(x[4].value) == Norm(y[4].value) && Norm(x[5].value) == Norm(y[5].value);
    assert Norm(x[6].value) == Norm(y[6].value);
    NullableRecovered(d.actorId, e.actorId);
  }

  lemma FieldsRecovered(d: AuditEntry, e: AuditEntry)
    requires Aligned(EntryForHash(d).members, EntryForHash(e).members) && Norm(EntryForHash(d)) == Norm(EntryForHash(e))
    ensures SameContent(d, e)
  {
    var x, y := EntryForHash(d).members, EntryForHash(e).members;
    ValuesRecovered(x, y);
    FieldsFromValues(d, e, x, y);
  }

  lemma EntryIsWellFormed(e: AuditEntry)
    requires IsEntry(e)
    ensures WellFormed(EntryForHash(e))
  {
    EntryKeysDistinct(e);
  }

  lemma EntriesAligned(d: AuditEntry, e: AuditEntry)
    requires IsEntry(d) && IsEntry(e)
    ensures Aligned(EntryForHash(d).members, EntryForHash(e).members)
  {
    EntryKeysDistinct(d);
    EntryKeysDistinct(e);
  }

  lemma EqualTextsEqualTrees(d: AuditEntry, e: AuditEntry)
    requires IsEntry(d) && IsEntry(e)
    requires Canonical(EntryForHash(d)) == Canonical(EntryForHash(e))
    ensures Norm(EntryForHash(d)) == Norm(EntryForHash(e))
  {
    EntryIsWellFormed(d);
    EntryIsWellFormed(e);
    CanonicalFaithful(EntryForHash(d), EntryForHash(e));
  }

  lemma {:induction false} SameNormMembers(x: seq<Entry<Js>>, y: seq<Entry<Js>>)
    requires |x| == |y|
    requires forall i | 0 <= i < |x| ::
               x[i].key == y[i].key && Norm(x[i].value) == Norm(y[i].value)
               && (x[i].value.Undefined? <==> y[i].value.Undefined?)
    ensures NormMembers(x) == NormMembers(y)
  {
    if x != [] {
      assert x[0].key == y[0].key;
      SameNormMembers(x[1..], y[1..]);
    }
  }

  /** Entries that differ in the payload only, and there not in its canonical tree, hash the same text. */
  lemma SamePayloadSameText(d: AuditEntry, e: AuditEntry)
    requires d == e.(payload := d.payload) && Norm(d.payload) == Norm(e.payload)
    requires d.payload.Obj? && e.payload.Obj?
    ensures Canonical(EntryForHash(d)) == Canonical(EntryForHash(e))
  {
    SameNormMembers(EntryForHash(d).members, EntryForHash(e).members);
  }

  lemma EntryTextDeterminesContent(d: AuditEntry, e: AuditEntry)
    requires IsEntry(d) && IsEntry(e)
    requires Canonical(EntryForHash(d)) == Canonical(EntryForHash(e))
    ensures SameContent(d, e)
  {
    EqualTextsEqualTrees(d, e);
    EntriesAligned(d, e);
    FieldsRecovered(d, e);
  }

  // ---- The hashed text names each field -------------------------------------------------------

  /** The value of a member of a parsed object. */
  function Member(v: Value, name: Text): Option<Value> {
    if v.VObj? then MemberOf(v.members, name) else None
  }

  function MemberOf(members: seq<Entry<Value>>, name: Text): Option<Value> {
    if members == [] then None
    else if members[0].key == name then Some(members[0].value)
    else MemberOf(members[1..], name)
  }

  lemma {:induction false} FoundByName(members: seq<Entry<Value>>, e: Entry<Value>)
    requires DistinctKeys(members) && e in members
    ensures MemberOf(members, e.key) == Some(e.value)
  {
    if members[0] != e {
      var i :| 0 < i < |members| && members[i] == e;
      assert members[1..][i - 1] == e;
      DistinctTail(members);
      FoundByName(members[1..], e);
    }
  }

  /** A member of a record is found under its name in the canonical tree. */
  lemma MemberIsKept(members: seq<Entry<Js>>, m: Entry<Js>)
    requires DistinctKeys(members) && m in members && !m.value.Undefined?
    ensures Member(Norm(Obj(members)), m.key) == Some(Norm(m.value))
  {
    SortMembers(NormMembers(members));
    NormMembersOf(members);
    NormMembersDistinct(members);
    SortIncreasing(NormMembers(members));
    var sorted := Sort(NormMembers(members));
    forall i, j | 0 <= i < j < |sorted| ensures sorted[i].key != sorted[j].key {
      BelowAsymmetric(sorted[i].key, sorted[j].key);
    }
    FoundByName(sorted, Entry(m.key, Norm(m.value)));
  }

  function PrintedOption(t: Option<Text>): Value {
    match t
    case None => VNull
    case Some(s) => VStr(s)
  }

  /** An object that holds each field of the entry under that field's own name. */
  ghost predicate NamesFields(v: Value, e: AuditEntry) {
    && Member(v, Literal("brand_id")) == Some(VStr(e.brandId))
    && Member(v, Literal("actor_id")) == Some(PrintedOption(e.actorId))
    && Member(v, Literal("actor_role")) == Some(VStr(e.actorRole))
    && Member(v, Literal("action")) == Some(VStr(e.action))
    && Member(v, Literal("entity_type")) == Some(VStr(e.entityType))
    && Member(v, Literal("entity_id")) == Some(VStr(e.entityId))
    && Member(v, Literal("payload")) == Some(Norm(e.payload))
  }

  lemma FieldIsKept(e: AuditEntry, i: nat, name: Text, v: Js)
    requires i < 7 && EntryForHash(e).members[i] == Entry(name, v) && !v.Undefined?
    ensures Member(Norm(EntryForHash(e)), name) == Some(Norm(v))
  {
    EntryKeysDistinct(e);
    MemberIsKept(EntryForHash(e).members, Entry(name, v));
  }

  lemma FieldsAreKept(e: AuditEntry)
    requires e.payload.Obj?
    ensures NamesFields(Norm(EntryForHash(e)), e)
  {
    KeysAreSpelled();
    FieldIsKept(e, 0, KEY_BRAND_ID, Str(e.brandId));
    FieldIsKept(e, 1, KEY_ACTOR_ID, Nullable(e.actorId));
    FieldIsKept(e, 2, KEY_ACTOR_ROLE, Str(e.actorRole));
    FieldIsKept(e, 3, KEY_ACTION, Str(e.action));
    FieldIsKept(e, 4, KEY_ENTITY_TYPE, Str(e.entityType));
    FieldIsKept(e, 5, KEY_ENTITY_ID, Str(e.entityId));
    FieldIsKept(e, 6, KEY_PAYLOAD, e.payload);
  }

  /** The hashed text is a JSON object that names each field of the entry. */
  lemma HashedTextNamesFields(e: AuditEntry)
    requires IsEntry(e)
    ensures exists v :: ParseValue(Canonical(EntryForHash(e))) == Parsed(v, []) && NamesFields(v, e)
  {
    EntryIsWellFormed(e);
    CanonicalParses(EntryForHash(e));
    FieldsAreKept(e);
  }

  lemma KeysAreSpelled()
    ensures KEY_BRAND_ID == Literal("brand_id") && KEY_ACTOR_ID == Literal("actor_id")
    ensures KEY_ACTOR_ROLE == Literal("actor_role") && KEY_ACTION == Literal("action")
    ensures KEY_ENTITY_TYPE == Literal("entity_type") && KEY_ENTITY_ID == Literal("entity_id")
    ensures KEY_PAYLOAD == Literal("payload")
  {
  }

  // ---- The chained hash ---------------------------------------------------------------------

  const GENESIS: Text := [103, 101, 110, 101, 115, 105, 115]
  const SEPARATOR: Text := [124, 124]

  /** The text that is hashed for an entry that follows `prev`. */
  function HashInput(prev: Option<Text>, e: AuditEntry): Text {
    (match prev case None => GENESIS case Some(h) => h) + SEPARATOR + Canonical(EntryForHash(e))
  }

  function EntryHash(hash: Hash, prev: Option<Text>, e: AuditEntry): Text {
    hash(HashInput(prev, e))
  }

  ghost predicate IsLink(prev: Option<Text>) {
    prev.Some? ==> IsDigest(prev.value)
  }

  lemma HashInputInjective(p: Option<Text>, d: AuditEntry, q: Option<Text>, e: AuditEntry)
    requires IsLink(p) && IsLink(q) && IsEntry(d) && IsEntry(e)
    requires HashInput(p, d) == HashInput(q, e)
    ensures p == q && SameContent(d, e)
  {
    var x, y := HashInput(p, d), HashInput(q, e);
    assert GENESIS[0] == 103;
    assert p.Some? ==> x[0] == p.value[0] && p.value[0] in p.value;
    assert q.Some? ==> y[0] == q.value[0] && q.value[0] in q.value;
    assert p.None? ==> x[0] == 103;
    assert q.None? ==> y[0] == 103;
    var n := if p.None? then 7 else 64;
    assert x[..n] == (if p.None? then GENESIS else p.value);
    assert y[..n] == (if q.None? then GENESIS else q.value);
    assert x[n + 2..] == Canonical(EntryForHash(d)) && y[n + 2..] == Canonical(EntryForHash(e));
    EntryTextDeterminesContent(d, e);
  }

  /** The hashed text: the previous hash or `genesis`, two bars, the canonical entry. */
  lemma HashInputIsSpelled(prev: Option<Text>, e: AuditEntry)
    ensures HashInput(prev, e) ==
            (if prev.Some? then prev.value else Literal("genesis")) + Literal("||") + Canonical(EntryForHash(e))
  {
    assert GENESIS == Literal("genesis") && SEPARATOR == Literal("||");
  }

  method ComputeEntryHash(hash: Hash, prev: Option<Text>, e: AuditEntry) returns (digest: Text)
    requires IsEntry(e)
    ensures digest == EntryHash(hash, prev, e)
  {
    EntryIsWellFormed(e);
    var text := Canonicalize(EntryForHash(e));
    var head := if prev.None? then GENESIS else prev.value;
    digest := hash(head + SEPARATOR + text);
  }

  /** How a table row's hash is computed from its link and its entry. */
  type RowHash = (Option<Text>, AuditEntry) -> Text

  function RowHashOf(hash: Hash): RowHash {
    (prev: Option<Text>, e: AuditEntry) => EntryHash(hash, prev, e)
  }
}
