/** Checkpoints of the audit log's head, sealed by a hash and linked into a list of their own. */
module AuditCheckpoints {
  import opened Options
  import opened Texts
  import opened JsonText
  import opened CanonicalJson
  import opened StoredJson
  import opened AuditEntries
  import opened AuditLog

  datatype ChainHead = ChainHead(headId: Text, headEntryHash: Option<Text>, rowCount: Text)

  datatype Checkpoint = Checkpoint(
    checkpointAt: Text, head: ChainHead, prevCheckpointHash: Option<Text>, checkpointHash: Text)

  const KEY_CHECKPOINT_AT: Text := [99, 104, 101, 99, 107, 112, 111, 105, 110, 116, 65, 116]  // checkpointAt
  const KEY_HEAD_ID: Text := [104, 101, 97, 100, 73, 100]  // headId
  const KEY_HEAD_ENTRY_HASH: Text := [104, 101, 97, 100, 69, 110, 116, 114, 121, 72, 97, 115, 104]  // headEntryHash
  const KEY_ROW_COUNT: Text := [114, 111, 119, 67, 111, 117, 110, 116]  // rowCount
  const KEY_PREV_HASH: Text :=
    [112, 114, 101, 118, 67, 104, 101, 99, 107, 112, 111, 105, 110, 116, 72, 97, 115, 104]  // prevCheckpointHash

  function Sealed(at: Text, head: ChainHead, prev: Option<Text>): Js {
    Obj([Entry(KEY_CHECKPOINT_AT, Str(at)),
         Entry(KEY_HEAD_ID, Str(head.headId)),
         Entry(KEY_HEAD_ENTRY_HASH, Nullable(head.headEntryHash)),
         Entry(KEY_ROW_COUNT, Str(head.rowCount)),
         Entry(KEY_PREV_HASH, Nullable(prev))])
  }

  function SealText(cp: Checkpoint): Text {
    Canonical(Sealed(cp.checkpointAt, cp.head, cp.prevCheckpointHash))
  }

  function BuildCheckpoint(hash: Hash, head: ChainHead, prev: Option<Text>, at: Text): Checkpoint {
    Checkpoint(at, head, prev, hash(Canonical(Sealed(at, head, prev))))
  }

  /** Rebuild the record from its own sealed fields and compare the seals. */
  predicate VerifyCheckpoint(hash: Hash, cp: Checkpoint) {
    BuildCheckpoint(hash, cp.head, cp.prevCheckpointHash, cp.checkpointAt).checkpointHash == cp.checkpointHash
  }

  // ---- The sealed text pins every field -------------------------------------------------------

  lemma SealedIsWellFormed(at: Text, head: ChainHead, prev: Option<Text>)
    ensures WellFormed(Sealed(at, head, prev))
  {
  }

  lemma SealedAligned(c: Checkpoint, d: Checkpoint, x: seq<Entry<Js>>, y: seq<Entry<Js>>)
    requires x == Sealed(c.checkpointAt, c.head, c.prevCheckpointHash).members
    requires y == Sealed(d.checkpointAt, d.head, d.prevCheckpointHash).members
    ensures Aligned(x, y)
  {
  }

  lemma EqualSealTextsEqualTrees(c: Checkpoint, d: Checkpoint)
    requires SealText(c) == SealText(d)
    ensures Norm(Sealed(c.checkpointAt, c.head, c.prevCheckpointHash)) ==
            Norm(Sealed(d.checkpointAt, d.head, d.prevCheckpointHash))
  {
    SealedIsWellFormed(c.checkpointAt, c.head, c.prevCheckpointHash);
    SealedIsWellFormed(d.checkpointAt, d.head, d.prevCheckpointHash);
    CanonicalFaithful(Sealed(c.checkpointAt, c.head, c.prevCheckpointHash),
                      Sealed(d.checkpointAt, d.head, d.prevCheckpointHash));
  }

  lemma SealFieldsFromValues(c: Checkpoint, d: Checkpoint, x: seq<Entry<Js>>, y: seq<Entry<Js>>)
    requires x == Sealed(c.checkpointAt, c.head, c.prevCheckpointHash).members
    requires y == Sealed(d.checkpointAt, d.head, d.prevCheckpointHash).members
    requires forall i | 0 <= i < |x| :: Norm(x[i].value) == Norm(y[i].value)
    ensures c.checkpointAt == d.checkpointAt && c.head == d.head && c.prevCheckpointHash == d.prevCheckpointHash
  {
    assert Norm(x[0].value) == Norm(y[0].value) && Norm(x[1].value) == Norm(y[1].value);
    assert Norm(x[2].value) == Norm(y[2].value);
    assert Norm(x[3].value) == Norm(y[3].value) && Norm(x[4].value) == Norm(y[4].value);
    NullableRecovered(c.head.headEntryHash, d.head.headEntryHash);
    NullableRecovered(c.prevCheckpointHash, d.prevCheckpointHash);
  }

  /** An object that holds each sealed field under its own name. */
  ghost predicate NamesSealed(v: Value, cp: Checkpoint) {
    && Member(v, Literal("checkpointAt")) == Some(VStr(cp.checkpointAt))
    && Member(v, Literal("headId")) == Some(VStr(cp.head.headId))
    && Member(v, Literal("headEntryHash")) == Some(PrintedOption(cp.head.headEntryHash))
    && Member(v, Literal("rowCount")) == Some(VStr(cp.head.rowCount))
    && Member(v, Literal("prevCheckpointHash")) == Some(PrintedOption(cp.prevCheckpointHash))
  }

  lemma SealKeysAreSpelled()
    ensures KEY_CHECKPOINT_AT == Literal("checkpointAt") && KEY_HEAD_ID == Literal("headId")
    ensures KEY_HEAD_ENTRY_HASH == Literal("headEntryHash") && KEY_ROW_COUNT == Literal("rowCount")
    ensures KEY_PREV_HASH == Literal("prevCheckpointHash")
  {
  }

  lemma SealedFieldIsKept(cp: Checkpoint, i: nat, name: Text, v: Js)
    requires i < 5 && Sealed(cp.checkpointAt, cp.head, cp.prevCheckpointHash).members[i] == Entry(name, v)
    requires !v.Undefined?
    ensures Member(Norm(Sealed(cp.checkpointAt, cp.head, cp.prevCheckpointHash)), name) == Some(Norm(v))
  {
    SealedIsWellFormed(cp.checkpointAt, cp.head, cp.prevCheckpointHash);
    MemberIsKept(Sealed(cp.checkpointAt, cp.head, cp.prevCheckpointHash).members, Entry(name, v));
  }

  lemma SealedFieldsAreKept(cp: Checkpoint)
    ensures NamesSealed(Norm(Sealed(cp.checkpointAt, cp.head, cp.prevCheckpointHash)), cp)
  {
    SealKeysAreSpelled();
    SealedFieldIsKept(cp, 0, KEY_CHECKPOINT_AT, Str(cp.checkpointAt));
    SealedFieldIsKept(cp, 1, KEY_HEAD_ID, Str(cp.head.headId));
    SealedFieldIsKept(cp, 2, KEY_HEAD_ENTRY_HASH, Nullable(cp.head.headEntryHash));
    SealedFieldIsKept(cp, 3, KEY_ROW_COUNT, Str(cp.head.rowCount));
    SealedFieldIsKept(cp, 4, KEY_PREV_HASH, Nullable(cp.prevCheckpointHash));
  }

  /** The sealed text is a JSON object that names each sealed field of the checkpoint. */
  lemma SealTextNamesFields(cp: Checkpoint)
    ensures exists v :: ParseValue(SealText(cp)) == Parsed(v, []) && NamesSealed(v, cp)
  {
    SealedIsWellFormed(cp.checkpointAt, cp.head, cp.prevCheckpointHash);
    CanonicalParses(Sealed(cp.checkpointAt, cp.head, cp.prevCheckpointHash));
    SealedFieldsAreKept(cp);
  }

  lemma SealTextInjective(c: Checkpoint, d: Checkpoint)
    requires SealText(c) == SealText(d)
    ensures c.checkpointAt == d.checkpointAt && c.head == d.head && c.prevCheckpointHash == d.prevCheckpointHash
  {
    EqualSealTextsEqualTrees(c, d);
    var x := Sealed(c.checkpointAt, c.head, c.prevCheckpointHash).members;
    var y := Sealed(d.checkpointAt, d.head, d.prevCheckpointHash).members;
    SealedAligned(c, d, x, y);
    ValuesRecovered(x, y);
    SealFieldsFromValues(c, d, x, y);
  }

  // ---- Linked checkpoints ---------------------------------------------------------------------

  /** The seal verifies and names the predecessor's seal; the first checkpoint names none. */
  ghost predicate LinksAt(hash: Hash, cps: seq<Checkpoint>, i: nat)
    requires i < |cps|
  {
    && VerifyCheckpoint(hash, cps[i])
    && cps[i].prevCheckpointHash == (if i == 0 then None else Some(cps[i - 1].checkpointHash))
  }

  ghost predicate LinkedCheckpoints(hash: Hash, cps: seq<Checkpoint>) {
    forall i | 0 <= i < |cps| :: LinksAt(hash, cps, i)
  }

  ghost predicate NoSealCollision(hash: Hash, a: seq<Checkpoint>, b: seq<Checkpoint>) {
    forall c, d | c in a && d in b :: hash(SealText(c)) == hash(SealText(d)) ==> SealText(c) == SealText(d)
  }

  /** A list of checkpoints grows by building the next one on the last one's seal. */
  lemma BuildExtendsLinks(hash: Hash, cps: seq<Checkpoint>, head: ChainHead, at: Text)
    requires LinkedCheckpoints(hash, cps)
    ensures var prev := if cps == [] then None else Some(cps[|cps| - 1].checkpointHash);
            LinkedCheckpoints(hash, cps + [BuildCheckpoint(hash, head, prev, at)])
  {
    var prev := if cps == [] then None else Some(cps[|cps| - 1].checkpointHash);
    var cps' := cps + [BuildCheckpoint(hash, head, prev, at)];
    forall i | 0 <= i < |cps'| ensures LinksAt(hash, cps', i) {
      if i < |cps| {
        assert LinksAt(hash, cps, i);
      }
    }
  }

  lemma SameSealSameCheckpoint(hash: Hash, c: Checkpoint, d: Checkpoint)
    requires VerifyCheckpoint(hash, c) && VerifyCheckpoint(hash, d) && NoSealCollision(hash, [c], [d])
    requires c.checkpointHash == d.checkpointHash
    ensures c == d
  {
    assert c in [c] && d in [d];
    SealTextInjective(c, d);
  }

  lemma LinksPrefix(hash: Hash, cps: seq<Checkpoint>, n: nat)
    requires LinkedCheckpoints(hash, cps) && n <= |cps|
    ensures LinkedCheckpoints(hash, cps[..n])
  {
    forall i | 0 <= i < n ensures LinksAt(hash, cps[..n], i) {
      assert LinksAt(hash, cps, i);
    }
  }

  lemma NoSealCollisionWithin(
        hash: Hash, a: seq<Checkpoint>, b: seq<Checkpoint>, a': seq<Checkpoint>, b': seq<Checkpoint>)
    requires NoSealCollision(hash, a, b)
    requires (forall x <- a' :: x in a) && (forall x <- b' :: x in b)
    ensures NoSealCollision(hash, a', b')
  {
  }

  /** Two linked checkpoint lists that end in the same seal are the same list. */
  lemma {:induction false} SameSealSameCheckpoints(hash: Hash, a: seq<Checkpoint>, b: seq<Checkpoint>)
    requires LinkedCheckpoints(hash, a) && LinkedCheckpoints(hash, b) && NoSealCollision(hash, a, b)
    requires a != [] && b != [] && a[|a| - 1].checkpointHash == b[|b| - 1].checkpointHash
    ensures a == b
    decreases |a|
  {
    var m, n := |a| - 1, |b| - 1;
    assert LinksAt(hash, a, m) && LinksAt(hash, b, n);
    NoSealCollisionWithin(hash, a, b, [a[m]], [b[n]]);
    SameSealSameCheckpoint(hash, a[m], b[n]);
    if m > 0 {
      LinksPrefix(hash, a, m);
      LinksPrefix(hash, b, n);
      NoSealCollisionWithin(hash, a, b, a[..m], b[..n]);
      SameSealSameCheckpoints(hash, a[..m], b[..n]);
    }
    assert a == a[..m] + [a[m]] && b == b[..n] + [b[n]];
  }

  /** A change to any sealed field is caught by the offline check, short of a collision. */
  lemma ChangedCheckpointFailsCheck(hash: Hash, c: Checkpoint, d: Checkpoint)
    requires VerifyCheckpoint(hash, c) && c.checkpointHash == d.checkpointHash && c != d
    requires NoSealCollision(hash, [c], [d])
    ensures !VerifyCheckpoint(hash, d)
  {
    if VerifyCheckpoint(hash, d) {
      SameSealSameCheckpoint(hash, c, d);
    }
  }

  /**
    A checkpoint anchors the chain of the brand that wrote the head row: two logs that agree with the
    same checkpoint hold the same rows of that brand.
   */
  lemma CheckpointAnchorsHeadBrand(hash: Hash, cp: Checkpoint, a: Log, b: Log)
    requires DigestsAreHex(hash) && LogValid(RowHashOf(hash), a) && LogValid(RowHashOf(hash), b)
    requires (forall r <- a.rows :: IsEntry(r.entry)) && (forall r <- b.rows :: IsEntry(r.entry))
    requires NoCollision(hash, a.rows, b.rows)
    requires a.rows != [] && Some(a.rows[|a.rows| - 1].entryHash) == cp.head.headEntryHash
    requires b.rows != [] && Some(b.rows[|b.rows| - 1].entryHash) == cp.head.headEntryHash
    ensures var brand := a.rows[|a.rows| - 1].entry.brandId;
            SameChain(BrandRows(a.rows, brand), BrandRows(b.rows, b.rows[|b.rows| - 1].entry.brandId))
            && b.rows[|b.rows| - 1].entry.brandId == brand
  {
    var r, s := a.rows[|a.rows| - 1], b.rows[|b.rows| - 1];
    var x, y := BrandRows(a.rows, r.entry.brandId), BrandRows(b.rows, s.entry.brandId);
    assert ChainValid(RowHashOf(hash), x) && ChainValid(RowHashOf(hash), y);
    NewestIsLast(a.rows, r.entry.brandId);
    NewestIsLast(b.rows, s.entry.brandId);
    assert x[|x| - 1] == r && y[|y| - 1] == s;
    SameHeadSameChain(hash, x, y);
    assert SameRow(x[|x| - 1], y[|y| - 1]);
  }

  lemma {:induction false} BrandRowsPrefix(rows: seq<LogRow>, n: nat, brand: Text)
    requires n <= |rows|
    ensures BrandRows(rows[..n], brand) <= BrandRows(rows, brand)
  {
    if n < |rows| {
      BrandRowsPrefix(rows[..|rows| - 1], n, brand);
      assert rows[..|rows| - 1][..n] == rows[..n];
    } else {
      assert rows[..n] == rows;
    }
  }

  lemma LogPrefix(digest: RowHash, log: Log, n: nat)
    requires LogValid(digest, log) && n <= |log.rows|
    ensures LogValid(digest, Log(log.rows[..n], log.nextId))
  {
    forall b ensures ChainValid(digest, BrandRows(log.rows[..n], b)) {
      BrandRowsPrefix(log.rows, n, b);
      var all, part := BrandRows(log.rows, b), BrandRows(log.rows[..n], b);
      assert part == all[..|part|];
      ChainPrefix(digest, all, |part|);
    }
  }

  lemma NoCollisionWithin(hash: Hash, a: seq<LogRow>, b: seq<LogRow>, b': seq<LogRow>)
    requires NoCollision(hash, a, b) && forall r <- b' :: r in b
    ensures NoCollision(hash, a, b')
  {
  }

  /** The rows of `b` up to the anchored one are a log of their own. */
  lemma AnchorsAt(hash: Hash, cp: Checkpoint, a: Log, b: Log, cut: Log)
    requires DigestsAreHex(hash) && LogValid(RowHashOf(hash), a) && LogValid(RowHashOf(hash), cut)
    requires (forall r <- a.rows :: IsEntry(r.entry)) && (forall r <- b.rows :: IsEntry(r.entry))
    requires NoCollision(hash, a.rows, b.rows) && cut.rows <= b.rows
    requires a.rows != [] && Some(a.rows[|a.rows| - 1].entryHash) == cp.head.headEntryHash
    requires cut.rows != [] && Some(cut.rows[|cut.rows| - 1].entryHash) == cp.head.headEntryHash
    ensures var brand := a.rows[|a.rows| - 1].entry.brandId;
            cut.rows[|cut.rows| - 1].entry.brandId == brand
            && SameChain(BrandRows(a.rows, brand), BrandRows(cut.rows, brand))
  {
    forall r <- cut.rows ensures r in b.rows {
      var j :| 0 <= j < |cut.rows| && cut.rows[j] == r;
      assert b.rows[j] == r;
    }
    NoCollisionWithin(hash, a.rows, b.rows, cut.rows);
    CheckpointAnchorsHeadBrand(hash, cp, a, cut);
  }

  /**
    And it goes on doing so while the log grows: any later valid log that still holds a row with the anchored
    hash, wherever it stands, holds exactly the anchored rows of that brand up to it.
   */
  lemma CheckpointAnchorsPrefix(hash: Hash, cp: Checkpoint, a: Log, b: Log, i: nat)
    requires DigestsAreHex(hash) && LogValid(RowHashOf(hash), a) && LogValid(RowHashOf(hash), b)
    requires (forall r <- a.rows :: IsEntry(r.entry)) && (forall r <- b.rows :: IsEntry(r.entry))
    requires NoCollision(hash, a.rows, b.rows)
    requires a.rows != [] && Some(a.rows[|a.rows| - 1].entryHash) == cp.head.headEntryHash
    requires i < |b.rows| && Some(b.rows[i].entryHash) == cp.head.headEntryHash
    ensures var brand := a.rows[|a.rows| - 1].entry.brandId;
            && b.rows[i].entry.brandId == brand
            && SameChain(BrandRows(a.rows, brand), BrandRows(b.rows[..i + 1], brand))
            && BrandRows(b.rows[..i + 1], brand) <= BrandRows(b.rows, brand)
  {
    LogPrefix(RowHashOf(hash), b, i + 1);
    AnchorsAt(hash, cp, a, b, Log(b.rows[..i + 1], b.nextId));
    BrandRowsPrefix(b.rows, i + 1, b.rows[i].entry.brandId);
  }

  /**
    A later table that no longer holds the anchored hash where the checkpoint saw it did not come from
    appends alone.
   */
  lemma DisagreementIsTampering(digest: RowHash, cp: Checkpoint, log: Log, later: seq<LogRow>)
    requires LogValid(digest, log) && log.rows != []
    requires Some(log.rows[|log.rows| - 1].entryHash) == cp.head.headEntryHash
    requires |later| < |log.rows| || Some(later[|log.rows| - 1].entryHash) != cp.head.headEntryHash
    ensures forall entries: seq<AuditEntry> :: AppendAll(digest, log, entries).rows != later
  {
    forall entries: seq<AuditEntry> ensures AppendAll(digest, log, entries).rows != later {
      RunKeepsChains(digest, log, entries);
    }
  }

  /**
    Other brands are not anchored: two valid logs with the same head row, and so with the same checkpoint,
    whose other brand has different rows.
   */
  lemma OtherBrandsAreNotAnchored(digest: RowHash, e: AuditEntry, e': AuditEntry, head: AuditEntry)
    requires e.brandId == e'.brandId != head.brandId && e != e' && head.idempotencyKey.None?
    ensures var a := AppendAll(digest, EMPTY_LOG, [e, head]);
            var b := AppendAll(digest, EMPTY_LOG, [e', head]);
            && LogValid(digest, a) && LogValid(digest, b)
            && |a.rows| == |b.rows| == 2 && a.rows[1] == b.rows[1]
            && a.rows[0] in BrandRows(a.rows, e.brandId) && a.rows[0] !in BrandRows(b.rows, e.brandId)
  {
    TwoAppends(digest, e, head);
    TwoAppends(digest, e', head);
    RunKeepsChains(digest, EMPTY_LOG, [e, head]);
    RunKeepsChains(digest, EMPTY_LOG, [e', head]);
  }

  lemma TwoAppends(digest: RowHash, e: AuditEntry, head: AuditEntry)
    requires e.brandId != head.brandId && head.idempotencyKey.None?
    ensures var first := LogRow(1, e, Restored(e.payload), None, digest(None, e));
            var rows := AppendAll(digest, EMPTY_LOG, [e, head]).rows;
            && rows == [first, LogRow(2, head, Restored(head.payload), None, digest(None, head))]
            && BrandRows(rows, e.brandId) == [first]
  {
    var first := LogRow(1, e, Restored(e.payload), None, digest(None, e));
    var second := LogRow(2, head, Restored(head.payload), None, digest(None, head));
    assert [e, head][1..] == [head] && [head][1..] == [];
    assert Appended(digest, EMPTY_LOG, e) == Log([first], 2);
    assert [first][..0] == [] && [first, second][..1] == [first] && [first] + [second] == [first, second];
    assert NewestRow([first], head.brandId) == NewestRow([], head.brandId) == None;
    assert BrandRows([first], e.brandId) == BrandRows([], e.brandId) + [first] == [first];
    assert !Conflicts([first], head.idempotencyKey);
    assert Appended(digest, Log([first], 2), head) == Log([first, second], 3);
    assert AppendAll(digest, Log([first], 2), [head]) == Log([first, second], 3);
  }
}
