/**
  Tenant context of database sessions: each business query runs in one transaction that first drops to the
  application role and sets the caller's three ids.

  A connection serves lists of statements; a delivery may fail at any statement, be lost on the way there, be
  served without its answer coming back, or kill the connection before or after any statement. Calls on one
  client are awaited one at a time.
 */
module RlsSession {
  import opened Options

  /** What row-level security reads: the role, the three ids and the `app.role` escape; '' when unset. */
  datatype Settings = Settings(role: string, brand: string, workspace: string, user: string, escape: string)

  datatype Transaction = Idle | Open | Aborted

  /** `session` is what SET LOCAL falls back to when the transaction ends. */
  datatype Backend = Backend(alive: bool, txn: Transaction, session: Settings, current: Settings)

  datatype Statement =
    | Begin
    | SetLocalRole(role: string)
    | SetLocalBrand(brand: string)
    | SetLocalWorkspace(workspace: string)
    | SetLocalUser(user: string)
    | SetLocalEscape(escape: string)
    | Business(id: nat)
    | Commit
    | Rollback
    | ResetIds

  /** A business statement and the settings in force when it ran. */
  datatype Entry = Entry(id: nat, under: Settings)

  datatype Connection = Connection(backend: Backend, log: seq<Entry>)

  /** What becomes of one round trip. `Lost` never reaches the server; `Unanswered` is served, its answer lost. */
  datatype Fate = Delivered | RefusedAt(n: nat) | Lost | Unanswered | DiedAt(n: nat)

  // ---- The server ---------------------------------------------------------------------------

  function Ended(b: Backend): Backend {
    b.(txn := Idle, current := b.session)
  }

  /** Outside a transaction SET LOCAL has no effect. */
  function SetLocal(c: Connection, s: Settings): Connection {
    if c.backend.txn.Open? then c.(backend := c.backend.(current := s)) else c
  }

  /** One statement. `None` is an error reply; inside a transaction it aborts the transaction. */
  function Serve(c: Connection, s: Statement): Option<Connection> {
    var b := c.backend;
    if b.txn.Aborted? && !s.Commit? && !s.Rollback? then None
    else match s
      case Begin => Some(c.(backend := b.(txn := Open)))
      case SetLocalRole(role) => Some(SetLocal(c, b.current.(role := role)))
      case SetLocalBrand(brand) => Some(SetLocal(c, b.current.(brand := brand)))
      case SetLocalWorkspace(workspace) => Some(SetLocal(c, b.current.(workspace := workspace)))
      case SetLocalUser(user) => Some(SetLocal(c, b.current.(user := user)))
      case SetLocalEscape(escape) => Some(SetLocal(c, b.current.(escape := escape)))
      case Business(id) => Some(c.(log := c.log + [Entry(id, b.current)]))
      case Commit => Some(c.(backend := Ended(b)))
      case Rollback => Some(c.(backend := Ended(b)))
      case ResetIds =>
        var cleared := b.current.(brand := "", workspace := "", user := "");
        Some(c.(backend := b.(current := cleared, session := if b.txn.Open? then b.session else cleared)))
  }

  /** An error reply: an open transaction is aborted, a refused COMMIT rolls it back. */
  function Refuse(c: Connection, s: Statement): Connection {
    if s.Commit? || s.Rollback? then c.(backend := Ended(c.backend))
    else if c.backend.txn.Open? then c.(backend := c.backend.(txn := Aborted))
    else c
  }

  /** A list of statements in one round trip stops at the first error. */
  function ServeAll(c: Connection, stmts: seq<Statement>): (Connection, bool)
    decreases |stmts|
  {
    if stmts == [] then (c, true)
    else match Serve(c, stmts[0])
         case None => (Refuse(c, stmts[0]), false)
         case Some(c') => ServeAll(c', stmts[1..])
  }

  /** One round trip with its fate; the flag is what the client sees. */
  function Send(c: Connection, stmts: seq<Statement>, f: Fate): (Connection, bool) {
    if !c.backend.alive then (c, false)
    else match f
      case Delivered => ServeAll(c, stmts)
      case RefusedAt(n) =>
        if n >= |stmts| then ServeAll(c, stmts)
        else
          var (c', ok) := ServeAll(c, stmts[..n]);
          (if ok then Refuse(c', stmts[n]) else c', false)
      case Lost => (c, false)
      case Unanswered => (ServeAll(c, stmts).0, false)
      case DiedAt(n) =>
        var c' := ServeAll(c, if n < |stmts| then stmts[..n] else stmts).0;
        (c'.(backend := c'.backend.(alive := false)), false)
  }

  /** In an aborted transaction nothing runs and nothing is set until COMMIT or ROLLBACK ends it. */
  lemma AbortedRunsNothing(c: Connection, stmts: seq<Statement>, f: Fate)
    requires c.backend.txn.Aborted? && forall s <- stmts :: s != Commit && s != Rollback
    ensures var c' := Send(c, stmts, f).0;
            c'.log == c.log && c'.backend == c.backend.(alive := c'.backend.alive)
    ensures stmts != [] ==> !Send(c, stmts, f).1
    ensures c.backend.alive ==>
              forall end | end in {Commit, Rollback} ::
                Send(c, [end], Delivered) ==
                  (c.(backend := c.backend.(txn := Idle, current := c.backend.session)), true)
  {
    if stmts != [] {
      assert stmts[0] in stmts && Serve(c, stmts[0]).None?;
    }
    assert [Commit][1..] == [] && [Rollback][1..] == [];
  }

  // ---- The context --------------------------------------------------------------------------

  /** An empty escape is no escape. */
  datatype Context = Context(brandId: string, workspaceId: string, userId: string, role: string)

  const NIL_UUID: string := "00000000-0000-0000-0000-000000000000"

  predicate IsHex(c: char) {
    '0' <= c <= '9' || 'a' <= c <= 'f' || 'A' <= c <= 'F'
  }

  predicate IsUuid(s: string) {
    |s| == 36 && forall i | 0 <= i < 36 :: if i in {8, 13, 18, 23} then s[i] == '-' else IsHex(s[i])
  }

  predicate IsEscape(s: string) {
    forall c <- s :: 'a' <= c <= 'z' || c == '_'
  }

  ghost predicate AllHex(s: string) {
    forall c <- s :: c in "0123456789abcdefABCDEF"
  }

  lemma HexDigits(c: char)
    ensures IsHex(c) <==> c in "0123456789abcdefABCDEF"
  {
    var digits := "0123456789abcdefABCDEF";
    if IsHex(c) {
      var i := if c <= '9' then c as int - 48 else if c <= 'F' then c as int - 65 + 16 else c as int - 97 + 10;
      assert digits[i] == c;
    }
  }

  /** Hex groups of 8, 4, 4, 4 and 12 digits with dashes between them. */
  lemma UuidForm(s: string)
    ensures IsUuid(s) <==>
            && |s| == 36 && s[8] == s[13] == s[18] == s[23] == '-'
            && AllHex(s[..8]) && AllHex(s[9..13]) && AllHex(s[14..18]) && AllHex(s[19..23]) && AllHex(s[24..])
  {
    forall c: char ensures IsHex(c) <==> c in "0123456789abcdefABCDEF" {
      HexDigits(c);
    }
    if |s| == 36 {
      HexPart(s, 0, 8);
      HexPart(s, 9, 13);
      HexPart(s, 14, 18);
      HexPart(s, 19, 23);
      HexPart(s, 24, 36);
    }
  }

  lemma HexPart(s: string, from: nat, to: nat)
    requires from <= to <= |s|
    ensures AllHex(s[from..to]) <==> forall i | from <= i < to :: IsHex(s[i])
  {
    var part := s[from..to];
    forall i | from <= i < to ensures s[i] in part {
      assert part[i - from] == s[i];
    }
    forall c <- part ensures IsHex(c) <==> c in "0123456789abcdefABCDEF" {
      HexDigits(c);
    }
    forall i | from <= i < to ensures IsHex(s[i]) <==> s[i] in "0123456789abcdefABCDEF" {
      HexDigits(s[i]);
    }
  }

  /** A missing or empty id is the nil uuid; `None`: the id is malformed and the call throws. */
  function GucValue(v: string): Option<string> {
    if v == "" then Some(NIL_UUID) else if IsUuid(v) then Some(v) else None
  }

  /** Whatever is interpolated into the quoted literal holds hexadecimal digits and dashes only. */
  lemma GucValueIsPlain(v: string)
    ensures GucValue(v).Some? ==> IsUuid(GucValue(v).value) && forall c <- GucValue(v).value :: IsHex(c) || c == '-'
  {
    if GucValue(v).Some? {
      var s := GucValue(v).value;
      forall c <- s ensures IsHex(c) || c == '-' {
        var i :| 0 <= i < |s| && s[i] == c;
      }
    }
  }

  /** The settings the caller's own context stands for. */
  function SettingsOf(appRole: string, x: Context): Option<Settings> {
    if !IsEscape(x.role) then None
    else match (GucValue(x.brandId), GucValue(x.workspaceId), GucValue(x.userId))
         case (Some(b), Some(w), Some(u)) => Some(Settings(appRole, b, w, u, x.role))
         case _ => None
  }

  function EscapeOf(s: Settings): seq<Statement> {
    if s.escape == "" then [] else [SetLocalEscape(s.escape)]
  }

  function Locals(s: Settings): seq<Statement> {
    [SetLocalRole(s.role)]
    + ([SetLocalBrand(s.brand)] + ([SetLocalWorkspace(s.workspace)] + ([SetLocalUser(s.user)] + EscapeOf(s))))
  }

  function Setup(s: Settings): seq<Statement> {
    [Begin] + Locals(s)
  }

  // ---- One transaction ----------------------------------------------------------------------

  /** A business statement of the caller and the fate of its round trip. */
  datatype Call = Call(id: nat, f: Fate)

  datatype Faults = Faults(setup: Fate, commit: Fate, rollback: Fate)

  /** The caller's statements in turn and then COMMIT, up to the first failure. */
  function Committed(c: Connection, calls: seq<Call>, commit: Fate): (Connection, bool)
    decreases |calls|
  {
    if calls == [] then Send(c, [Commit], commit)
    else
      var (c1, ok1) := Send(c, [Business(calls[0].id)], calls[0].f);
      if ok1 then Committed(c1, calls[1..], commit) else (c1, false)
  }

  /** The connection after one transaction under the settings `s`; any failure sends ROLLBACK. */
  function Transacted(c: Connection, s: Settings, calls: seq<Call>, f: Faults): (Connection, bool) {
    var (c1, ok1) := Send(c, Setup(s), f.setup);
    var (c2, ok2) := if ok1 then Committed(c1, calls, f.commit) else (c1, false);
    if ok2 then (c2, true) else (Send(c2, [Rollback], f.rollback).0, false)
  }

  /** A client of one connection. */
  class Client {
    var connection: Connection
    const appRole: string

    constructor (connection: Connection, appRole: string)
      ensures this.connection == connection && this.appRole == appRole
    {
      this.connection := connection;
      this.appRole := appRole;
    }

    method Query(stmts: seq<Statement>, f: Fate) returns (ok: bool)
      modifies this
      ensures (connection, ok) == Send(old(connection), stmts, f)
    {
      var (c, answer) := Send(connection, stmts, f);
      connection := c;
      ok := answer;
    }

    /** Open a transaction for a caller that runs its own statements; a malformed context sends nothing. */
    method BeginRlsTxn(x: Context, f: Fate) returns (ok: bool)
      modifies this
      ensures match SettingsOf(appRole, x)
              case None => !ok && connection == old(connection)
              case Some(s) => (connection, ok) == Send(old(connection), Setup(s), f)
    {
      var settings := SettingsOf(appRole, x);
      if settings.None? {
        return false;
      }
      ok := Query(Setup(settings.value), f);
    }

    /** Set-up, business query and COMMIT in turn; any failure sends ROLLBACK and reports the failure. */
    method ExecuteInRlsTxn(x: Context, call: Call, f: Faults) returns (ok: bool)
      modifies this
      ensures match SettingsOf(appRole, x)
              case None => !ok && connection == old(connection)
              case Some(s) => (connection, ok) == Transacted(old(connection), s, [call], f)
    {
      var settings := SettingsOf(appRole, x);
      if settings.None? {
        return false;
      }
      ok := Query(Setup(settings.value), f.setup);
      ghost var c1 := connection;
      if ok {
        ok := Query([Business(call.id)], call.f);
        if ok {
          ok := Query([Commit], f.commit);
        }
        assert [call][1..] == [] && (connection, ok) == Committed(c1, [call], f.commit);
      }
      if !ok {
        var _ := Query([Rollback], f.rollback);
      }
    }
  }

  // ---- Between transactions ----------------------------------------------------------------------

  /** Nothing of any caller is left: no transaction, the login role, no ids, no escape. */
  predicate Clean(b: Backend, login: string) {
    b.alive ==> b.txn.Idle? && b.session == Settings(login, "", "", "", "") && b.current == b.session
  }

  /** The transaction is open or aborted when ROLLBACK is sent. */
  predicate LeftOpen(calls: seq<Call>, f: Faults, setupLength: nat) {
    match f.setup
    case Lost => false
    case Unanswered => true
    case DiedAt(_) => false
    case RefusedAt(n) => 0 < n && (n < setupLength || LeftOpenLater(calls, f.commit))
    case Delivered => LeftOpenLater(calls, f.commit)
  }

  predicate LeftOpenLater(calls: seq<Call>, commit: Fate)
    decreases |calls|
  {
    if calls == [] then commit.Lost?
    else match calls[0].f
         case Lost => true
         case Unanswered => true
         case DiedAt(_) => false
         case RefusedAt(n) => n == 0 || LeftOpenLater(calls[1..], commit)
         case Delivered => LeftOpenLater(calls[1..], commit)
  }

  /** The ROLLBACK that is needed gets lost while the connection lives on. */
  predicate Stranded(calls: seq<Call>, f: Faults, setupLength: nat) {
    f.rollback.Lost? && LeftOpen(calls, f, setupLength)
  }

  /** The log of calls that ran under `s`. */
  function RanUnder(calls: seq<Call>, s: Settings): seq<Entry> {
    if calls == [] then [] else [Entry(calls[0].id, s)] + RanUnder(calls[1..], s)
  }

  predicate IsLocal(s: Statement) {
    !s.Begin? && !s.Business? && !s.Commit? && !s.Rollback? && !s.ResetIds?
  }

  /** SET LOCAL statements in an open transaction change nothing but the current settings. */
  lemma {:induction false} LocalsServed(c: Connection, stmts: seq<Statement>)
    requires c.backend.txn.Open? && forall s <- stmts :: IsLocal(s)
    ensures var (c', ok) := ServeAll(c, stmts);
            ok && c'.log == c.log && c'.backend == c.backend.(current := c'.backend.current)
    decreases |stmts|
  {
    if stmts != [] {
      assert IsLocal(stmts[0]);
      LocalsServed(Serve(c, stmts[0]).value, stmts[1..]);
    }
  }

  /** Outside a transaction a SET LOCAL leaves nothing behind. */
  lemma {:induction false} IdleKeepsNothing(c: Connection, stmts: seq<Statement>)
    requires c.backend.txn.Idle? && forall s <- stmts :: IsLocal(s)
    ensures ServeAll(c, stmts) == (c, true)
    decreases |stmts|
  {
    if stmts != [] {
      assert IsLocal(stmts[0]);
      IdleKeepsNothing(c, stmts[1..]);
    }
  }

  /** However far the set-up gets past BEGIN, it leaves an open transaction over the same session. */
  lemma SetupPrefix(c: Connection, s: Settings, n: nat)
    requires c.backend.txn.Idle? && 0 < n <= |Setup(s)|
    ensures var (c', ok) := ServeAll(c, Setup(s)[..n]);
            ok && c'.log == c.log && c'.backend == c.backend.(txn := Open, current := c'.backend.current)
  {
    var stmts := Setup(s)[..n];
    assert stmts[0] == Begin && forall t <- stmts[1..] :: IsLocal(t);
    LocalsServed(c.(backend := c.backend.(txn := Open)), stmts[1..]);
  }

  lemma ServeOne(c: Connection, s: Statement)
    ensures ServeAll(c, [s]) == match Serve(c, s) case None => (Refuse(c, s), false) case Some(c') => (c', true)
    ensures ServeAll(c, [s][..0]) == (c, true)
  {
  }

  lemma ServeFirst(c: Connection, s: Statement, rest: seq<Statement>)
    requires Serve(c, s).Some?
    ensures ServeAll(c, [s] + rest) == ServeAll(Serve(c, s).value, rest)
  {
  }

  lemma EscapeInForce(c: Connection, s: Settings)
    requires c.backend.txn.Open?
    ensures var escape := if s.escape == "" then c.backend.current.escape else s.escape;
            ServeAll(c, EscapeOf(s)) == (SetLocal(c, c.backend.current.(escape := escape)), true)
  {
  }

  /**
    In an open transaction the set-up statements after BEGIN put the given settings in force; without an
    escape of its own the one in force stays.
   */
  lemma LocalsInForce(c: Connection, s: Settings)
    requires c.backend.txn.Open?
    ensures var escape := if s.escape == "" then c.backend.current.escape else s.escape;
            ServeAll(c, Locals(s)) == (SetLocal(c, s.(escape := escape)), true)
  {
    var c1 := Serve(c, SetLocalRole(s.role)).value;
    var c2 := Serve(c1, SetLocalBrand(s.brand)).value;
    var c3 := Serve(c2, SetLocalWorkspace(s.workspace)).value;
    var c4 := Serve(c3, SetLocalUser(s.user)).value;
    ServeFirst(c, SetLocalRole(s.role),
               [SetLocalBrand(s.brand)] + ([SetLocalWorkspace(s.workspace)] + ([SetLocalUser(s.user)] + EscapeOf(s))));
    ServeFirst(c1, SetLocalBrand(s.brand), [SetLocalWorkspace(s.workspace)] + ([SetLocalUser(s.user)] + EscapeOf(s)));
    ServeFirst(c2, SetLocalWorkspace(s.workspace), [SetLocalUser(s.user)] + EscapeOf(s));
    ServeFirst(c3, SetLocalUser(s.user), EscapeOf(s));
    EscapeInForce(c4, s);
  }

  /** A set-up that was served whole puts exactly the caller's settings in force. */
  lemma SetupServed(c: Connection, s: Settings)
    requires c.backend.txn.Idle? && c.backend.current.escape == ""
    ensures ServeAll(c, Setup(s)) == (c.(backend := c.backend.(txn := Open, current := s)), true)
  {
    var c1 := c.(backend := c.backend.(txn := Open));
    ServeFirst(c, Begin, Locals(s));
    LocalsInForce(c1, s);
  }

  /** After the set-up round trip: not begun, dead, or in a transaction over an untouched session. */
  lemma AfterSetup(c: Connection, s: Settings, f: Fate)
    requires c.backend.alive && c.backend.txn.Idle? && c.backend.current.escape == ""
    ensures var (c1, ok) := Send(c, Setup(s), f);
            && c1.log == c.log && c1.backend.session == c.backend.session
            && (ok <==> f.Delivered? || (f.RefusedAt? && f.n >= |Setup(s)|))
            && (ok || f.Unanswered? ==> c1.backend == c.backend.(txn := Open, current := s))
            && (c1.backend.alive <==> !f.DiedAt?)
            && (f.Lost? || f == RefusedAt(0) ==> c1 == c)
            && (f.RefusedAt? && 0 < f.n < |Setup(s)| ==> c1.backend.txn.Aborted?)
  {
    SetupServed(c, s);
    assert Setup(s)[..|Setup(s)|] == Setup(s);
    if f.RefusedAt? || f.DiedAt? {
      if 0 < f.n < |Setup(s)| {
        SetupPrefix(c, s, f.n);
      }
      assert Setup(s)[..0] == [];
    }
  }

  /** The log grew by some of the calls, in order and under `s`. */
  ghost predicate Grew(before: seq<Entry>, after: seq<Entry>, calls: seq<Call>, s: Settings) {
    exists n: nat :: n <= |calls| && after == before + RanUnder(calls[..n], s)
  }

  lemma GrewByNone(log: seq<Entry>, calls: seq<Call>, s: Settings)
    ensures Grew(log, log, calls, s)
  {
    assert calls[..0] == [] && log + RanUnder([], s) == log;
  }

  lemma GrewByOneMore(log: seq<Entry>, after: seq<Entry>, calls: seq<Call>, s: Settings)
    requires calls != [] && Grew(log + [Entry(calls[0].id, s)], after, calls[1..], s)
    ensures Grew(log, after, calls, s)
  {
    var n: nat :| n <= |calls[1..]| && after == log + [Entry(calls[0].id, s)] + RanUnder(calls[1..][..n], s);
    assert calls[..n + 1][1..] == calls[1..][..n];
    assert after == log + RanUnder(calls[..n + 1], s);
  }

  /** The round trip of one business statement inside the transaction. */
  lemma CallUnder(c: Connection, s: Settings, call: Call)
    requires c.backend.alive && c.backend.txn.Open? && c.backend.current == s
    ensures var (c', ok) := Send(c, [Business(call.id)], call.f);
            && (ok <==> call.f.Delivered? || (call.f.RefusedAt? && call.f.n > 0))
            && (ok ==> c' == c.(log := c.log + [Entry(call.id, s)]))
            && (!ok ==> c'.log == c.log || c'.log == c.log + [Entry(call.id, s)])
            && c'.backend.session == c.backend.session
            && (c'.backend.alive <==> !call.f.DiedAt?)
            && (c'.backend.alive ==> !c'.backend.txn.Idle?)
  {
    ServeOne(c, Business(call.id));
  }

  /** The caller's statements and COMMIT inside the transaction that the set-up opened. */
  lemma {:induction false} CommittedUnder(c: Connection, s: Settings, calls: seq<Call>, commit: Fate)
    requires c.backend.alive && c.backend.txn.Open? && c.backend.current == s
    ensures var (c', ok) := Committed(c, calls, commit);
            && Grew(c.log, c'.log, calls, s)
            && (ok ==> c'.log == c.log + RanUnder(calls, s) && c'.backend == Ended(c.backend))
            && c'.backend.session == c.backend.session
            && (c'.backend.alive ==>
                  if LeftOpenLater(calls, commit) then !c'.backend.txn.Idle? else c'.backend == Ended(c.backend))
            && (LeftOpenLater(calls, commit) ==> c'.backend.alive && !ok)
    decreases |calls|
  {
    if calls == [] {
      ServeOne(c, Commit);
      GrewByNone(c.log, calls, s);
      assert c.log + RanUnder([], s) == c.log;
    } else {
      CallUnder(c, s, calls[0]);
      var (c1, ok1) := Send(c, [Business(calls[0].id)], calls[0].f);
      if ok1 {
        CommittedUnder(c1, s, calls[1..], commit);
        GrewByOneMore(c.log, Committed(c1, calls[1..], commit).0.log, calls, s);
        assert c1.log + RanUnder(calls[1..], s) == c.log + RanUnder(calls, s);
      } else if c1.log == c.log {
        GrewByNone(c.log, calls, s);
      } else {
        GrewByNone(c1.log, calls[1..], s);
        GrewByOneMore(c.log, c1.log, calls, s);
      }
    }
  }

  /**
    One transaction on a clean connection. What runs of it runs under exactly the settings of its own context,
    in order; and the connection is clean again unless the ROLLBACK it needs is lost on a live connection.
   */
  lemma TransactionIsIsolated(c: Connection, login: string, s: Settings, calls: seq<Call>, f: Faults)
    requires Clean(c.backend, login)
    ensures var (c', ok) := Transacted(c, s, calls, f);
            && Grew(c.log, c'.log, calls, s)
            && (ok ==> c'.log == c.log + RanUnder(calls, s))
            && (Clean(c'.backend, login) <==> !(c.backend.alive && Stranded(calls, f, |Setup(s)|)))
  {
    GrewByNone(c.log, calls, s);
    if c.backend.alive {
      AfterSetup(c, s, f.setup);
      var (c1, ok1) := Send(c, Setup(s), f.setup);
      if ok1 {
        CommittedUnder(c1, s, calls, f.commit);
      }
      ServeOne(if ok1 then Committed(c1, calls, f.commit).0 else c1, Rollback);
    }
  }

  /** Without a fault a query succeeds, its statement ran once, and the session is as it was. */
  lemma DeliveredQuerySucceeds(c: Connection, login: string, s: Settings, id: nat)
    requires Clean(c.backend, login) && c.backend.alive
    ensures Transacted(c, s, [Call(id, Delivered)], Faults(Delivered, Delivered, Delivered))
         == (c.(log := c.log + [Entry(id, s)]), true)
  {
    AfterSetup(c, s, Delivered);
    var c1 := Send(c, Setup(s), Delivered).0;
    OneCall(c1, s, Call(id, Delivered), Delivered);
  }

  /** One statement and COMMIT, both delivered. */
  lemma OneCall(c: Connection, s: Settings, call: Call, commit: Fate)
    requires c.backend.alive && c.backend.txn.Open? && c.backend.current == s && call.f.Delivered?
    ensures Committed(c, [call], commit) == Send(c.(log := c.log + [Entry(call.id, s)]), [Commit], commit)
    ensures commit.Delivered? ==>
              Committed(c, [call], commit) ==
              (c.(log := c.log + [Entry(call.id, s)], backend := Ended(c.backend)), true)
  {
    CallUnder(c, s, call);
    assert [call][1..] == [];
    ServeOne(c.(log := c.log + [Entry(call.id, s)]), Commit);
  }

  // ---- Whole runs ---------------------------------------------------------------------------

  datatype Operation =
    | Checkout(f: Fate)
    | Transaction(x: Context, calls: seq<Call>, faults: Faults)

  function Operate(c: Connection, appRole: string, op: Operation): Connection {
    match op
    case Checkout(f) => Send(c, [ResetIds], f).0
    case Transaction(x, calls, faults) =>
      match SettingsOf(appRole, x)
      case None => c
      case Some(s) => Transacted(c, s, calls, faults).0
  }

  function Run(c: Connection, appRole: string, ops: seq<Operation>): Connection
    decreases |ops|
  {
    if ops == [] then c else Run(Operate(c, appRole, ops[0]), appRole, ops[1..])
  }

  /** Every ROLLBACK that is needed reaches the server, or the connection is dead. */
  predicate RollbackLands(op: Operation) {
    op.Transaction? ==> !Stranded(op.calls, op.faults, 5) && !Stranded(op.calls, op.faults, 6)
  }

  /** What one operation may add to the log: the first few of its own statements, under its own settings. */
  ghost predicate LoggedBy(added: seq<Entry>, appRole: string, op: Operation) {
    match op
    case Checkout(_) => added == []
    case Transaction(x, calls, _) =>
      match SettingsOf(appRole, x)
      case None => added == []
      case Some(s) => Grew([], added, calls, s)
  }

  /** The log is made of the operations' own parts, one after the other. */
  ghost predicate LoggedInTurn(added: seq<Entry>, appRole: string, ops: seq<Operation>)
    decreases |ops|
  {
    if ops == [] then added == []
    else exists n: nat ::
           n <= |added| && LoggedBy(added[..n], appRole, ops[0]) && LoggedInTurn(added[n..], appRole, ops[1..])
  }

  lemma CheckoutKeepsClean(c: Connection, login: string, f: Fate)
    requires Clean(c.backend, login)
    ensures Clean(Send(c, [ResetIds], f).0.backend, login) && Send(c, [ResetIds], f).0.log == c.log
  {
  }

  /**
    A checkout clears the ids of an idle connection, and nothing but the ids: it makes the connection clean
    exactly when nothing but ids was left on it.
   */
  lemma CheckoutClearsIds(c: Connection, login: string)
    requires c.backend.alive && c.backend.txn.Idle? && c.backend.current == c.backend.session
    ensures var b := Send(c, [ResetIds], Delivered).0.backend;
            && b.session == b.current == c.backend.session.(brand := "", workspace := "", user := "")
            && (Clean(b, login) <==> c.backend.session.role == login && c.backend.session.escape == "")
  {
    ServeOne(c, ResetIds);
  }

  lemma OperationIsIsolated(c: Connection, login: string, appRole: string, op: Operation)
    requires Clean(c.backend, login) && RollbackLands(op)
    ensures var c' := Operate(c, appRole, op);
            && Clean(c'.backend, login)
            && c.log <= c'.log && LoggedBy(c'.log[|c.log|..], appRole, op)
  {
    match op
    case Checkout(f) => CheckoutKeepsClean(c, login, f);
    case Transaction(x, calls, faults) =>
      if SettingsOf(appRole, x).Some? {
        var s := SettingsOf(appRole, x).value;
        assert |Setup(s)| == 5 || |Setup(s)| == 6;
        TransactionIsIsolated(c, login, s, calls, faults);
        var c' := Transacted(c, s, calls, faults).0;
        var n: nat :| n <= |calls| && c'.log == c.log + RanUnder(calls[..n], s);
        assert c'.log[|c.log|..] == [] + RanUnder(calls[..n], s);
      }
  }

  /**
    For any sequence of checkouts and queries with any failures: the statements of each call ran in turn, in
    order, under the application role with the three ids and the escape of that very call; and nothing is left
    behind.
   */
  lemma {:induction false} RunsAreIsolated(c: Connection, login: string, appRole: string, ops: seq<Operation>)
    requires Clean(c.backend, login) && forall op <- ops :: RollbackLands(op)
    ensures Clean(Run(c, appRole, ops).backend, login)
    ensures c.log <= Run(c, appRole, ops).log
    ensures LoggedInTurn(Run(c, appRole, ops).log[|c.log|..], appRole, ops)
    decreases |ops|
  {
    if ops != [] {
      assert RollbackLands(ops[0]);
      var c' := Operate(c, appRole, ops[0]);
      OperationIsIsolated(c, login, appRole, ops[0]);
      RunsAreIsolated(c', login, appRole, ops[1..]);
      var added, n := Run(c, appRole, ops).log[|c.log|..], |c'.log| - |c.log|;
      assert added[..n] == c'.log[|c.log|..] && added[n..] == Run(c, appRole, ops).log[|c'.log|..];
    }
  }

  predicate IsLetter(c: char) {
    c in "abcdefghijklmnopqrstuvwxyz_"
  }

  lemma EscapeLetters(c: char)
    ensures ('a' <= c <= 'z' || c == '_') <==> IsLetter(c)
  {
    var letters := "abcdefghijklmnopqrstuvwxyz_";
    if 'a' <= c <= 'z' {
      assert letters[c as int - 97] == c;
    } else if c == '_' {
      assert letters[26] == c;
    }
  }

  /**
    What the ids of a statement are: the caller's own, or the nil uuid for each one not given. An id that is no uuid
    and an escape with anything but small letters and underscores throw, and nothing else does.
   */
  lemma OwnIdsOrNil(appRole: string, x: Context)
    ensures SettingsOf(appRole, x).Some? <==>
            && (forall c <- x.role :: IsLetter(c))
            && forall v <- [x.brandId, x.workspaceId, x.userId] :: v == "" || IsUuid(v)
    ensures match SettingsOf(appRole, x)
            case None => true
            case Some(s) =>
              && s.role == appRole && s.escape == x.role
              && s.brand == (if x.brandId == "" then NIL_UUID else x.brandId)
              && s.workspace == (if x.workspaceId == "" then NIL_UUID else x.workspaceId)
              && s.user == (if x.userId == "" then NIL_UUID else x.userId)
  {
    var vs := [x.brandId, x.workspaceId, x.userId];
    assert vs[0] in vs && vs[1] in vs && vs[2] in vs;
    forall c <- x.role ensures ('a' <= c <= 'z' || c == '_') <==> IsLetter(c) {
      EscapeLetters(c);
    }
  }

  /**
    Without that proviso the escape leaks: a query whose COMMIT and ROLLBACK are lost on a live connection
    leaves its `app.role` to the next caller, past the checkout.
   */
  lemma LostRollbackLeaksEscape(c: Connection, login: string, s: Settings, t: Settings, id: nat)
    requires Clean(c.backend, login) && c.backend.alive && s.escape != "" && t.escape == ""
    ensures var first := Transacted(c, s, [Call(0, Delivered)], Faults(Delivered, Lost, Lost)).0;
            var reset := Send(first, [ResetIds], Delivered).0;
            var next := Transacted(reset, t, [Call(id, Delivered)], Faults(Delivered, Delivered, Delivered)).0;
            Entry(id, t.(escape := s.escape)) in next.log
  {
    AfterSetup(c, s, Delivered);
    var c0 := c.(backend := c.backend.(txn := Open, current := s));
    OneCall(c0, s, Call(0, Delivered), Lost);
    var first := Transacted(c, s, [Call(0, Delivered)], Faults(Delivered, Lost, Lost)).0;
    assert first.backend == c0.backend;
    ServeOne(first, ResetIds);
    var reset := Send(first, [ResetIds], Delivered).0;
    assert reset.backend.txn.Open? && reset.backend.current.escape == s.escape;
    ServeFirst(reset, Begin, Locals(t));
    LocalsInForce(reset, t);
    OneCall(ServeAll(reset, Setup(t)).0, t.(escape := s.escape), Call(id, Delivered), Delivered);
  }
}
