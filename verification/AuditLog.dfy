/** The audit table: per-brand hash chains built by serialized appends, and what their heads prove. */
module AuditLog {
  import opened Options
  import opened Texts
  import opened CanonicalJson
  import opened StoredJson
  import opened AuditEntries

  /** `entry` as it was appended and hashed; `stored` is what its payload column reads back as. */
  datatype LogRow = LogRow(id: nat, entry: AuditEntry, stored: Js, prevHash: Option<Text>, entryHash: Text)

  /** The table and its id sequence. */
  datatype Log = Log(rows: seq<LogRow>, nextId: nat)

  const EMPTY_LOG := Log([], 1)

  function BrandRows(rows: seq<LogRow>, brand: Text): seq<LogRow> {
    if rows == [] then []
    else
      var last := rows[|rows| - 1];
      BrandRows(rows[..|rows| - 1], brand) + if last.entry.brandId == brand then [last] else []
  }

  /** `ORDER BY id DESC LIMIT 1` over the rows of one brand. */
  function NewestRow(rows: seq<LogRow>, brand: Text): Option<LogRow> {
    if rows == [] then None
    else
      var last := rows[|rows| - 1];
      var best := NewestRow(rows[..|rows| - 1], brand);
      if last.entry.brandId == brand && (best.None? || best.value.id < last.id) then Some(last) else best
  }

  /** A unique index ignores NULL keys. */
  ghost predicate Conflicts(rows: seq<LogRow>, key: Option<Text>) {
    key.Some? && exists r <- rows :: r.entry.idempotencyKey == key
  }

  function PrevHash(rows: seq<LogRow>, brand: Text): Option<Text> {
    match NewestRow(rows, brand)
    case None => None
    case Some(r) => Some(r.entryHash)
  }

  /** One append: the id sequence advances even when the insert does nothing. */
  ghost function Appended(digest: RowHash, log: Log, e: AuditEntry): Log {
    var prev := PrevHash(log.rows, e.brandId);
    var row := LogRow(log.nextId, e, Restored(e.payload), prev, digest(prev, e));
    Log(if Conflicts(log.rows, e.idempotencyKey) then log.rows else log.rows + [row], log.nextId + 1)
  }

  ghost function AppendAll(digest: RowHash, log: Log, entries: seq<AuditEntry>): Log
    decreases |entries|
  {
    if entries == [] then log else AppendAll(digest, Appended(digest, log, entries[0]), entries[1..])
  }

  /** A row links to the row before it in the chain and carries its own hash. */
  ghost predicate LinkedAt(digest: RowHash, chain: seq<LogRow>, i: nat)
    requires i < |chain|
  {
    && chain[i].prevHash == (if i == 0 then None else Some(chain[i - 1].entryHash))
    && chain[i].entryHash == digest(chain[i].prevHash, chain[i].entry)
  }

  ghost predicate ChainValid(digest: RowHash, chain: seq<LogRow>) {
    forall i | 0 <= i < |chain| :: LinkedAt(digest, chain, i)
  }

  ghost predicate IdsIncrease(rows: seq<LogRow>) {
    forall i, j | 0 <= i < j < |rows| :: rows[i].id < rows[j].id
  }

  ghost predicate LogValid(digest: RowHash, log: Log) {
    && log.nextId > 0
    && (forall r <- log.rows :: 0 < r.id < log.nextId)
    && IdsIncrease(log.rows)
    && (forall b :: ChainValid(digest, BrandRows(log.rows, b)))
  }

  // ---- Appends keep every chain valid ---------------------------------------------------------

  lemma NewestIsLast(rows: seq<LogRow>, brand: Text)
    requires IdsIncrease(rows)
    ensures forall r <- BrandRows(rows, brand) :: r in rows
    ensures var chain := BrandRows(rows, brand);
            NewestRow(rows, brand) == if chain == [] then None else Some(chain[|chain| - 1])
  {
    if rows != [] {
      var before := rows[..|rows| - 1];
      NewestIsLast(before, brand);
      assert forall r <- before :: r.id < rows[|rows| - 1].id;
    }
  }

  /** Whatever the order of the table: the row of the brand with the greatest id, if it has any. */
  lemma {:induction false} NewestHasGreatestId(rows: seq<LogRow>, brand: Text)
    ensures match NewestRow(rows, brand)
            case None => forall r <- rows :: r.entry.brandId != brand
            case Some(n) => n in rows && n.entry.brandId == brand
                            && forall r <- rows :: r.entry.brandId == brand ==> r.id <= n.id
  {
    if rows != [] {
      NewestHasGreatestId(rows[..|rows| - 1], brand);
      assert rows == rows[..|rows| - 1] + [rows[|rows| - 1]];
    }
  }

  /** The row an append adds continues the chain of its brand. */
  lemma RowContinuesChain(digest: RowHash, rows: seq<LogRow>, row: LogRow)
    requires IdsIncrease(rows) && ChainValid(digest, BrandRows(rows, row.entry.brandId))
    requires row.prevHash == PrevHash(rows, row.entry.brandId)
    requires row.entryHash == digest(row.prevHash, row.entry)
    ensures ChainValid(digest, BrandRows(rows, row.entry.brandId) + [row])
  {
    NewestIsLast(rows, row.entry.brandId);
    var before := BrandRows(rows, row.entry.brandId);
    ChainExtends(digest, before, row);
  }

  lemma ChainExtends(digest: RowHash, chain: seq<LogRow>, row: LogRow)
    requires ChainValid(digest, chain) && row.entryHash == digest(row.prevHash, row.entry)
    requires row.prevHash == if chain == [] then None else Some(chain[|chain| - 1].entryHash)
    ensures ChainValid(digest, chain + [row])
  {
    forall i | 0 <= i < |chain + [row]| ensures LinkedAt(digest, chain + [row], i) {
      if i < |chain| {
        assert LinkedAt(digest, chain, i);
      }
    }
  }

  lemma ChainPrefix(digest: RowHash, chain: seq<LogRow>, n: nat)
    requires ChainValid(digest, chain) && n <= |chain|
    ensures ChainValid(digest, chain[..n])
  {
    forall i | 0 <= i < n ensures LinkedAt(digest, chain[..n], i) {
      assert LinkedAt(digest, chain, i);
    }
  }

  lemma AppendKeepsChains(digest: RowHash, log: Log, e: AuditEntry)
    requires LogValid(digest, log)
    ensures LogValid(digest, Appended(digest, log, e))
  {
    var log' := Appended(digest, log, e);
    if !Conflicts(log.rows, e.idempotencyKey) {
      var row := log'.rows[|log.rows|];
      assert log'.rows[..|log.rows|] == log.rows;
      RowContinuesChain(digest, log.rows, row);
      forall b ensures ChainValid(digest, BrandRows(log'.rows, b)) {
        assert ChainValid(digest, BrandRows(log.rows, b));
        assert BrandRows(log.rows, b) + [] == BrandRows(log.rows, b);
      }
    }
  }

  /**
    Any serialized sequence of appends, brands interleaved in any way, only extends the table and keeps
    the rows of every brand a valid chain.
   */
  lemma {:induction false} RunKeepsChains(digest: RowHash, log: Log, entries: seq<AuditEntry>)
    requires LogValid(digest, log)
    ensures LogValid(digest, AppendAll(digest, log, entries))
    ensures log.rows <= AppendAll(digest, log, entries).rows
    decreases |entries|
  {
    if entries != [] {
      AppendKeepsChains(digest, log, entries[0]);
      RunKeepsChains(digest, Appended(digest, log, entries[0]), entries[1..]);
    }
  }

  // ---- What the table contains after a run ----------------------------------------------------

  ghost predicate SeenKey(entries: seq<AuditEntry>, key: Option<Text>) {
    key.Some? && exists e <- entries :: e.idempotencyKey == key
  }

  /** The entries that are accepted: the first with each idempotency key, and all without one. */
  ghost function Accepted(entries: seq<AuditEntry>): seq<AuditEntry> {
    if entries == [] then []
    else
      var last := entries[|entries| - 1];
      var before := entries[..|entries| - 1];
      Accepted(before) + if SeenKey(before, last.idempotencyKey) then [] else [last]
  }

  function EntriesOf(rows: seq<LogRow>): seq<AuditEntry> {
    seq(|rows|, i requires 0 <= i < |rows| => rows[i].entry)
  }

  lemma AppendAllSplit(digest: RowHash, log: Log, entries: seq<AuditEntry>, e: AuditEntry)
    ensures AppendAll(digest, log, entries + [e]) == Appended(digest, AppendAll(digest, log, entries), e)
    decreases |entries|
  {
    if entries == [] {
      assert [e][1..] == [];
    } else {
      assert (entries + [e])[1..] == entries[1..] + [e];
      AppendAllSplit(digest, Appended(digest, log, entries[0]), entries[1..], e);
    }
  }

  lemma AcceptedKeys(entries: seq<AuditEntry>, key: Option<Text>)
    ensures SeenKey(Accepted(entries), key) <==> SeenKey(entries, key)
  {
  }

  lemma ConflictsAreSeenKeys(rows: seq<LogRow>, key: Option<Text>)
    ensures Conflicts(rows, key) <==> SeenKey(EntriesOf(rows), key)
  {
    forall r <- rows ensures r.entry in EntriesOf(rows) {
      var i :| 0 <= i < |rows| && rows[i] == r;
      assert EntriesOf(rows)[i] == r.entry;
    }
    forall e <- EntriesOf(rows) ensures exists r <- rows :: r.entry == e {
      var i :| 0 <= i < |rows| && EntriesOf(rows)[i] == e;
      assert rows[i] in rows;
    }
  }

  lemma EntriesAppended(digest: RowHash, log: Log, e: AuditEntry)
    ensures EntriesOf(Appended(digest, log, e).rows) ==
            EntriesOf(log.rows) + if Conflicts(log.rows, e.idempotencyKey) then [] else [e]
  {
  }

  lemma AcceptedSnoc(entries: seq<AuditEntry>, e: AuditEntry)
    ensures Accepted(entries + [e]) == Accepted(entries) + if SeenKey(entries, e.idempotencyKey) then [] else [e]
  {
    assert (entries + [e])[..|entries|] == entries;
  }

  /** The table after any run holds exactly the accepted entries, in order. */
  lemma {:induction false} LogContents(digest: RowHash, entries: seq<AuditEntry>)
    ensures EntriesOf(AppendAll(digest, EMPTY_LOG, entries).rows) == Accepted(entries)
  {
    if entries != [] {
      var last, before := entries[|entries| - 1], entries[..|entries| - 1];
      var log := AppendAll(digest, EMPTY_LOG, before);
      assert entries == before + [last];
      LogContents(digest, before);
      AppendAllSplit(digest, EMPTY_LOG, before, last);
      EntriesAppended(digest, log, last);
      ConflictsAreSeenKeys(log.rows, last.idempotencyKey);
      AcceptedKeys(before, last.idempotencyKey);
      AcceptedSnoc(before, last);
    }
  }

  /** The id of a row is the number of the attempt that wrote it: an attempt that inserts nothing uses one up. */
  lemma {:induction false} IdsNumberAttempts(digest: RowHash, entries: seq<AuditEntry>)
    ensures var log := AppendAll(digest, EMPTY_LOG, entries);
            && log.nextId == |entries| + 1
            && forall r <- log.rows :: 0 < r.id <= |entries| && entries[r.id - 1] == r.entry
  {
    if entries != [] {
      var last, before := entries[|entries| - 1], entries[..|entries| - 1];
      assert entries == before + [last];
      IdsNumberAttempts(digest, before);
      AppendAllSplit(digest, EMPTY_LOG, before, last);
    }
  }

  // ---- Tamper evidence ------------------------------------------------------------------------

  /** Where two of these rows have the same hash, they link to the same row and hold the same content. */
  ghost predicate HashesPin(digest: RowHash, a: seq<LogRow>, b: seq<LogRow>) {
    forall r, s | r in a && s in b :: digest(r.prevHash, r.entry) == digest(s.prevHash, s.entry) ==>
                                        r.prevHash == s.prevHash && SameContent(r.entry, s.entry)
  }

  ghost predicate SameRow(r: LogRow, s: LogRow) {
    SameContent(r.entry, s.entry) && r.prevHash == s.prevHash && r.entryHash == s.entryHash
  }

  ghost predicate SameChain(a: seq<LogRow>, b: seq<LogRow>) {
    |a| == |b| && forall i | 0 <= i < |a| :: SameRow(a[i], b[i])
  }

  lemma SameChainExtends(a: seq<LogRow>, b: seq<LogRow>)
    requires a != [] && b != [] && SameRow(a[|a| - 1], b[|b| - 1])
    requires SameChain(a[..|a| - 1], b[..|b| - 1])
    ensures SameChain(a, b)
  {
  }

  lemma {:induction false} SameHeadSameRows(digest: RowHash, a: seq<LogRow>, b: seq<LogRow>)
    requires ChainValid(digest, a) && ChainValid(digest, b) && HashesPin(digest, a, b)
    requires a != [] && b != [] && a[|a| - 1].entryHash == b[|b| - 1].entryHash
    ensures SameChain(a, b)
    decreases |a|
  {
    var m, n := |a| - 1, |b| - 1;
    assert LinkedAt(digest, a, m) && LinkedAt(digest, b, n);
    assert SameRow(a[m], b[n]) by {
      assert a[m] in a && b[n] in b;
    }
    if m > 0 {
      ChainPrefix(digest, a, m);
      ChainPrefix(digest, b, n);
      assert HashesPin(digest, a[..m], b[..n]) by {
        assert forall x <- a[..m] :: x in a;
        assert forall x <- b[..n] :: x in b;
      }
      SameHeadSameRows(digest, a[..m], b[..n]);
    }
    SameChainExtends(a, b);
  }

  /** No two different texts hashed for these rows have the same digest. */
  ghost predicate NoCollision(hash: Hash, a: seq<LogRow>, b: seq<LogRow>) {
    forall r, s | r in a && s in b ::
      EntryHash(hash, r.prevHash, r.entry) == EntryHash(hash, s.prevHash, s.entry) ==>
        HashInput(r.prevHash, r.entry) == HashInput(s.prevHash, s.entry)
  }

  ghost predicate WellFormedRows(rows: seq<LogRow>) {
    forall r <- rows :: IsLink(r.prevHash) && IsEntry(r.entry)
  }

  lemma CollisionFreeHashesPin(hash: Hash, a: seq<LogRow>, b: seq<LogRow>)
    requires WellFormedRows(a) && WellFormedRows(b) && NoCollision(hash, a, b)
    ensures HashesPin(RowHashOf(hash), a, b)
  {
    var digest := RowHashOf(hash);
    forall r, s | r in a && s in b && digest(r.prevHash, r.entry) == digest(s.prevHash, s.entry)
      ensures r.prevHash == s.prevHash && SameContent(r.entry, s.entry)
    {
      HashInputInjective(r.prevHash, r.entry, s.prevHash, s.entry);
    }
  }

  lemma ChainIsWellFormed(hash: Hash, chain: seq<LogRow>)
    requires DigestsAreHex(hash) && ChainValid(RowHashOf(hash), chain) && forall r <- chain :: IsEntry(r.entry)
    ensures WellFormedRows(chain)
  {
    forall r <- chain ensures IsLink(r.prevHash) {
      var i :| 0 <= i < |chain| && chain[i] == r;
      assert LinkedAt(RowHashOf(hash), chain, i);
      if i > 0 {
        assert LinkedAt(RowHashOf(hash), chain, i - 1);
        DigestIsLink(hash, chain[i - 1]);
      }
    }
  }

  lemma DigestIsLink(hash: Hash, r: LogRow)
    requires DigestsAreHex(hash) && r.entryHash == RowHashOf(hash)(r.prevHash, r.entry)
    ensures IsDigest(r.entryHash)
  {
  }

  /**
    Two valid SHA-256 chains that end in the same hash hold the same entries in the same order: no row
    can be altered, inserted, removed or reordered without changing the head, short of a collision.
   */
  lemma SameHeadSameChain(hash: Hash, a: seq<LogRow>, b: seq<LogRow>)
    requires DigestsAreHex(hash) && ChainValid(RowHashOf(hash), a) && ChainValid(RowHashOf(hash), b)
    requires (forall r <- a :: IsEntry(r.entry)) && (forall r <- b :: IsEntry(r.entry)) && NoCollision(hash, a, b)
    requires a != [] && b != [] && a[|a| - 1].entryHash == b[|b| - 1].entryHash
    ensures SameChain(a, b)
  {
    ChainIsWellFormed(hash, a);
    ChainIsWellFormed(hash, b);
    CollisionFreeHashesPin(hash, a, b);
    SameHeadSameRows(RowHashOf(hash), a, b);
  }

  // ---- The table as it is read --------------------------------------------------------------

  function AsRead(r: LogRow): AuditEntry {
    r.entry.(payload := r.stored)
  }

  /** The rows as a later walk of the chain sees them. */
  function ReadBack(rows: seq<LogRow>): (read: seq<LogRow>)
    ensures |read| == |rows| && forall i | 0 <= i < |rows| :: read[i] == rows[i].(entry := AsRead(rows[i]))
  {
    seq(|rows|, i requires 0 <= i < |rows| => rows[i].(entry := AsRead(rows[i])))
  }

  /** A row hashes to the same text when read back exactly when its payload can be restored. */
  lemma StoredRowRehashes(prev: Option<Text>, e: AuditEntry)
    requires IsEntry(e)
    ensures HashInput(prev, e.(payload := Restored(e.payload))) == HashInput(prev, e) <==> Restorable(e.payload)
  {
    var read := e.(payload := Restored(e.payload));
    RestoredExact(e.payload);
    RestoredWellFormed(e.payload);
    SamePrefix((match prev case None => GENESIS case Some(h) => h) + SEPARATOR,
               Canonical(EntryForHash(read)), Canonical(EntryForHash(e)));
    if Canonical(EntryForHash(read)) == Canonical(EntryForHash(e)) {
      EntryTextDeterminesContent(read, e);
    }
    if Restorable(e.payload) {
      SamePayloadSameText(read, e);
    }
  }

  lemma SamePrefix(head: Text, a: Text, b: Text)
    ensures head + a == head + b <==> a == b
  {
    assert (head + a)[|head|..] == a && (head + b)[|head|..] == b;
  }

  /** What the table holds after any run of appends of well-formed entries. */
  ghost predicate StoredAsAppended(rows: seq<LogRow>) {
    forall r <- rows :: r.stored == Restored(r.entry.payload) && IsEntry(r.entry)
  }

  lemma {:induction false} RunStores(digest: RowHash, log: Log, entries: seq<AuditEntry>)
    requires StoredAsAppended(log.rows) && forall e <- entries :: IsEntry(e)
    ensures StoredAsAppended(AppendAll(digest, log, entries).rows)
    decreases |entries|
  {
    if entries != [] {
      RunStores(digest, Appended(digest, log, entries[0]), entries[1..]);
    }
  }

  lemma BrandRowsMembers(rows: seq<LogRow>, brand: Text)
    ensures forall r :: r in BrandRows(rows, brand) <==> r in rows && r.entry.brandId == brand
  {
    if rows != [] {
      BrandRowsMembers(rows[..|rows| - 1], brand);
      assert rows == rows[..|rows| - 1] + [rows[|rows| - 1]];
    }
  }

  lemma {:induction false} ReadBackByBrand(rows: seq<LogRow>, brand: Text)
    ensures BrandRows(ReadBack(rows), brand) == ReadBack(BrandRows(rows, brand))
  {
    if rows != [] {
      var before, last := rows[..|rows| - 1], rows[|rows| - 1];
      ReadBackByBrand(before, brand);
      assert ReadBack(rows)[..|rows| - 1] == ReadBack(before);
    }
  }

  /** No row reads back as another text with the same digest. */
  ghost predicate NoReadCollision(hash: Hash, rows: seq<LogRow>) {
    forall r <- rows :: EntryHash(hash, r.prevHash, AsRead(r)) == EntryHash(hash, r.prevHash, r.entry) ==>
                          HashInput(r.prevHash, AsRead(r)) == HashInput(r.prevHash, r.entry)
  }

  /** A valid chain is still valid when read back exactly when every row rehashes. */
  lemma ChainReadBack(digest: RowHash, chain: seq<LogRow>)
    requires ChainValid(digest, chain)
    ensures ChainValid(digest, ReadBack(chain)) <==>
            forall r <- chain :: digest(r.prevHash, AsRead(r)) == digest(r.prevHash, r.entry)
  {
    var read := ReadBack(chain);
    assert forall i | 0 <= i < |chain| :: LinkedAt(digest, chain, i) && chain[i] in chain;
    if ChainValid(digest, read) {
      forall r <- chain ensures digest(r.prevHash, AsRead(r)) == digest(r.prevHash, r.entry) {
        var i :| 0 <= i < |chain| && chain[i] == r;
        assert LinkedAt(digest, read, i);
      }
    }
  }

  lemma RowRehashes(hash: Hash, rows: seq<LogRow>, r: LogRow)
    requires StoredAsAppended(rows) && NoReadCollision(hash, rows) && r in rows
    ensures RowHashOf(hash)(r.prevHash, AsRead(r)) == RowHashOf(hash)(r.prevHash, r.entry) <==>
            Restorable(r.entry.payload)
  {
    StoredRowRehashes(r.prevHash, r.entry);
  }

  ghost predicate AllChainsReadBack(hash: Hash, rows: seq<LogRow>) {
    forall b :: ChainValid(RowHashOf(hash), BrandRows(ReadBack(rows), b))
  }

  lemma BrandReadBack(hash: Hash, log: Log, brand: Text)
    requires LogValid(RowHashOf(hash), log) && StoredAsAppended(log.rows) && NoReadCollision(hash, log.rows)
    ensures ChainValid(RowHashOf(hash), BrandRows(ReadBack(log.rows), brand)) <==>
            forall r <- log.rows :: r.entry.brandId == brand ==> Restorable(r.entry.payload)
  {
    ReadBackByBrand(log.rows, brand);
    BrandRowsMembers(log.rows, brand);
    assert ChainValid(RowHashOf(hash), BrandRows(log.rows, brand));
    ChainReadBack(RowHashOf(hash), BrandRows(log.rows, brand));
    forall r <- log.rows
      ensures RowHashOf(hash)(r.prevHash, AsRead(r)) == RowHashOf(hash)(r.prevHash, r.entry) <==>
              Restorable(r.entry.payload)
    {
      RowRehashes(hash, log.rows, r);
    }
  }

  lemma LogReadBack(hash: Hash, log: Log)
    requires LogValid(RowHashOf(hash), log) && StoredAsAppended(log.rows) && NoReadCollision(hash, log.rows)
    ensures AllChainsReadBack(hash, log.rows) <==> forall r <- log.rows :: Restorable(r.entry.payload)
  {
    if AllChainsReadBack(hash, log.rows) {
      forall r <- log.rows ensures Restorable(r.entry.payload) {
        BrandReadBack(hash, log, r.entry.brandId);
      }
    }
    if forall r <- log.rows :: Restorable(r.entry.payload) {
      forall b ensures ChainValid(RowHashOf(hash), BrandRows(ReadBack(log.rows), b)) {
        BrandReadBack(hash, log, b);
      }
    }
  }

  lemma EveryEntryRestorable(rows: seq<LogRow>)
    ensures (forall r <- rows :: Restorable(r.entry.payload)) <==> forall e <- EntriesOf(rows) :: Restorable(e.payload)
  {
    var entries := EntriesOf(rows);
    forall i | 0 <= i < |rows| ensures entries[i] == rows[i].entry && rows[i] in rows && entries[i] in entries {
    }
    if forall e <- entries :: Restorable(e.payload) {
      forall r <- rows ensures Restorable(r.entry.payload) {
        var i :| 0 <= i < |rows| && rows[i] == r;
        assert entries[i] in entries;
      }
    }
  }

  /**
    After any serialized appends every brand's chain, walked over the table as it reads back, is valid if and
    only if no accepted payload holds a function member or a Date, short of a collision: for those the stored
    text and the hashed text differ, and an honest row looks altered.
   */
  lemma StoredChainsAreValid(hash: Hash, entries: seq<AuditEntry>)
    requires forall e <- entries :: IsEntry(e)
    requires NoReadCollision(hash, AppendAll(RowHashOf(hash), EMPTY_LOG, entries).rows)
    ensures AllChainsReadBack(hash, AppendAll(RowHashOf(hash), EMPTY_LOG, entries).rows) <==>
            forall e <- Accepted(entries) :: Restorable(e.payload)
  {
    var log := AppendAll(RowHashOf(hash), EMPTY_LOG, entries);
    RunKeepsChains(RowHashOf(hash), EMPTY_LOG, entries);
    RunStores(RowHashOf(hash), EMPTY_LOG, entries);
    LogReadBack(hash, log);
    LogContents(RowHashOf(hash), entries);
    EveryEntryRestorable(log.rows);
  }

  // ---- The writer -----------------------------------------------------------------------------

  /** The writer over its table. */
  class DbAuditWriter {
    const hash: Hash
    var rows: seq<LogRow>
    var nextId: nat

    ghost function State(): Log
      reads this
    {
      Log(rows, nextId)
    }

    constructor (hash: Hash)
      ensures State() == EMPTY_LOG && this.hash == hash
    {
      this.hash := hash;
      rows := [];
      nextId := 1;
    }

    /** Does the unique index already hold this key? */
    method HasKey(key: Option<Text>) returns (found: bool)
      ensures found <==> Conflicts(rows, key)
    {
      found := false;
      for i := 0 to |rows|
        invariant found <==> Conflicts(rows[..i], key)
      {
        assert rows[..i + 1] == rows[..i] + [rows[i]];
        if key.Some? && rows[i].entry.idempotencyKey == key {
          found := true;
        }
      }
      assert rows[..|rows|] == rows;
    }

    /** The hash is returned even when the insert conflicted; the id is then zero. */
    method Append(e: AuditEntry) returns (id: nat, entryHash: Text)
      requires LogValid(RowHashOf(hash), State()) && IsEntry(e)
      modifies this
      ensures State() == Appended(RowHashOf(hash), old(State()), e) && LogValid(RowHashOf(hash), State())
      ensures entryHash == RowHashOf(hash)(PrevHash(old(rows), e.brandId), e)
      ensures Conflicts(old(rows), e.idempotencyKey) ==> id == 0 && rows == old(rows)
      ensures !Conflicts(old(rows), e.idempotencyKey) ==>
                id > 0
                && rows == old(rows) + [LogRow(id, e, Restored(e.payload), PrevHash(old(rows), e.brandId), entryHash)]
    {
      AppendKeepsChains(RowHashOf(hash), State(), e);
      var prev := PrevHash(rows, e.brandId);
      entryHash := ComputeEntryHash(hash, prev, e);
      id := 0;
      var conflict := HasKey(e.idempotencyKey);
      if !conflict {
        id := nextId;
        rows := rows + [LogRow(nextId, e, Restored(e.payload), prev, entryHash)];
      }
      nextId := nextId + 1;
    }
  }
}
