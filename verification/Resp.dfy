/**
  The RESP2 exchange behind a feature-flag read: commands as arrays of bulk strings, replies read one at a
  time from a byte stream. A byte string is a text whose units are below 256; nothing depends on the bound.
 */
module Resp {
  import opened Options
  import opened Texts
  import opened Decimals
  import opened Segments

  type Bytes = Text

  const CR: CodeUnit := 13
  const LF: CodeUnit := 10
  const CRLF: Bytes := [13, 10]
  const STAR: CodeUnit := 42
  const PLUS: CodeUnit := 43
  const DOLLAR: CodeUnit := 36

  // ---- Commands -----------------------------------------------------------------------------

  function Bulk(arg: Bytes): Bytes {
    [DOLLAR] + (Digits(|arg|) + (CRLF + (arg + CRLF)))
  }

  function Bulks(args: seq<Bytes>): Bytes {
    if args == [] then [] else Bulk(args[0]) + Bulks(args[1..])
  }

  function Encode(args: seq<Bytes>): Bytes {
    [STAR] + (Digits(|args|) + (CRLF + Bulks(args)))
  }

  lemma BulksSnoc(args: seq<Bytes>, arg: Bytes)
    ensures Bulks(args + [arg]) == Bulks(args) + Bulk(arg)
  {
    if args == [] {
      assert args + [arg] == [arg] && [arg][1..] == [];
    } else {
      assert (args + [arg])[1..] == args[1..] + [arg];
      BulksSnoc(args[1..], arg);
    }
  }

  /** The encoder: one header, then each argument with its length. */
  method EncodeCommand(args: seq<Bytes>) returns (out: Bytes)
    ensures out == Encode(args)
  {
    var header := [STAR] + Digits(|args|) + CRLF;
    out := header;
    for i := 0 to |args|
      invariant out == header + Bulks(args[..i])
    {
      assert args[..i + 1] == args[..i] + [args[i]];
      BulksSnoc(args[..i], args[i]);
      var bulk := [DOLLAR] + Digits(|args[i]|) + CRLF + args[i] + CRLF;
      assert bulk == Bulk(args[i]);
      out := out + bulk;
    }
    assert args[..|args|] == args;
  }

  /** A decimal line: digits up to CR LF. */
  datatype Line = NoLine | Line(number: nat, rest: Bytes)

  function DigitSpan(s: Bytes): (n: nat)
    ensures n <= |s| && AllDigits(s[..n]) && (n < |s| ==> !IsDigit(s[n]))
  {
    if s == [] || !IsDigit(s[0]) then 0
    else
      var n := DigitSpan(s[1..]);
      assert s[..n + 1] == [s[0]] + s[1..][..n];
      n + 1
  }

  function ReadNumber(s: Bytes): (l: Line)
    ensures l.Line? ==> |l.rest| < |s|
  {
    var n := DigitSpan(s);
    if n == 0 || |s| < n + 2 || s[n..n + 2] != CRLF then NoLine else Line(NatOf(s[..n]), s[n + 2..])
  }

  lemma SpanOf(d: Bytes, rest: Bytes)
    requires AllDigits(d) && (rest == [] || !IsDigit(rest[0]))
    ensures DigitSpan(d + rest) == |d|
  {
    if d == [] {
      assert d + rest == rest;
    } else {
      assert (d + rest)[1..] == d[1..] + rest;
      SpanOf(d[1..], rest);
    }
  }

  lemma LineReadBack(n: nat, rest: Bytes)
    ensures ReadNumber(Digits(n) + (CRLF + rest)) == Line(n, rest)
  {
    DigitsReadBack(n);
    SpanOf(Digits(n), CRLF + rest);
    CutLine(Digits(n), rest);
  }

  lemma CutLine(d: Bytes, rest: Bytes)
    ensures var s := d + (CRLF + rest);
            s[..|d|] == d && s[|d|..|d| + 2] == CRLF && s[|d| + 2..] == rest
  {
  }

  /** What a server reads: `n` bulk strings from the front of the stream. */
  datatype Args = NoArgs | Args(args: seq<Bytes>, rest: Bytes)

  /** A payload of known length and the CR LF after it. */
  function ReadPayload(length: nat, s: Bytes): Args {
    if |s| < length + 2 || s[length..length + 2] != CRLF then NoArgs else Args([s[..length]], s[length + 2..])
  }

  function ReadBulk(s: Bytes): Args {
    if s == [] || s[0] != DOLLAR then NoArgs
    else match ReadNumber(s[1..])
         case NoLine => NoArgs
         case Line(length, rest) => ReadPayload(length, rest)
  }

  function ReadBulks(n: nat, s: Bytes): Args
    decreases n
  {
    if n == 0 then Args([], s)
    else match ReadBulk(s)
         case NoArgs => NoArgs
         case Args(first, rest) =>
           match ReadBulks(n - 1, rest)
           case NoArgs => NoArgs
           case Args(args, rest') => Args(first + args, rest')
  }

  function Decode(s: Bytes): Args {
    if s == [] || s[0] != STAR then NoArgs
    else match ReadNumber(s[1..])
         case NoLine => NoArgs
         case Line(n, rest) => ReadBulks(n, rest)
  }

  lemma PayloadReadBack(arg: Bytes, tail: Bytes)
    ensures ReadPayload(|arg|, arg + (CRLF + tail)) == Args([arg], tail)
  {
  }

  lemma BulkReadBack(arg: Bytes, tail: Bytes)
    ensures ReadBulk(Bulk(arg) + tail) == Args([arg], tail)
  {
    var payload := arg + (CRLF + tail);
    var s := [DOLLAR] + (Digits(|arg|) + (CRLF + payload));
    assert Bulk(arg) + tail == s;
    assert s[1..] == Digits(|arg|) + (CRLF + payload);
    LineReadBack(|arg|, payload);
    PayloadReadBack(arg, tail);
  }

  lemma {:induction false} BulksReadBack(args: seq<Bytes>, rest: Bytes)
    ensures ReadBulks(|args|, Bulks(args) + rest) == Args(args, rest)
  {
    if args == [] {
      assert Bulks(args) + rest == rest;
    } else {
      BulksReadBack(args[1..], rest);
      Associative(Bulk(args[0]), Bulks(args[1..]), rest);
      BulkReadBack(args[0], Bulks(args[1..]) + rest);
      assert args == [args[0]] + args[1..];
    }
  }

  /** Decoding a command gives its arguments byte for byte, CR and LF included, and leaves the stream after it alone. */
  lemma CommandReadBack(args: seq<Bytes>, rest: Bytes)
    ensures Decode(Encode(args) + rest) == Args(args, rest)
  {
    var body := Bulks(args) + rest;
    var s := [STAR] + (Digits(|args|) + (CRLF + body));
    assert Encode(args) + rest == s;
    assert s[1..] == Digits(|args|) + (CRLF + body);
    LineReadBack(|args|, body);
    BulksReadBack(args, rest);
  }

  // ---- Replies ------------------------------------------------------------------------------

  /** `Simple` and `Failure` hold one line of text. */
  datatype Reply = Simple(text: Bytes) | Failure(text: Bytes) | Integer(n: int) | Null | BulkString(data: Bytes)

  predicate OneLine(s: Bytes) {
    LF !in s && (s == [] || s[|s| - 1] != CR)
  }

  predicate Sendable(r: Reply) {
    r.Simple? || r.Failure? ==> OneLine(r.text)
  }

  function Wire(r: Reply): Bytes {
    match r
    case Simple(text) => [PLUS] + (text + CRLF)
    case Failure(text) => [MINUS] + (text + CRLF)
    case Integer(n) => [COLON] + (Signed(n) + CRLF)
    case Null => [DOLLAR] + (Signed(-1) + CRLF)
    case BulkString(data) => Bulk(data)
  }

  /** What the reader returns; `Raised` when it throws. `rest` is where the next read starts. */
  datatype Outcome = Raised | Got(reply: Reply, rest: Bytes)

  /** `readline`: through the first LF, or everything. */
  function LineLength(s: Bytes): (n: nat)
    ensures n <= |s|
  {
    if s == [] then 0 else if s[0] == LF then 1 else 1 + LineLength(s[1..])
  }

  /** `rstrip(b"\\r\\n")` */
  function Stripped(s: Bytes): Bytes {
    if s != [] && (s[|s| - 1] == CR || s[|s| - 1] == LF) then Stripped(s[..|s| - 1]) else s
  }

  /** `data[:i]` */
  function Prefix(data: Bytes, i: int): Bytes {
    if i >= 0 then (if i <= |data| then data[..i] else data)
    else if |data| + i >= 0 then data[..|data| + i] else []
  }

  /** The payload after a bulk header: `read(i + 2)` reads everything when its argument is negative. */
  function ReadData(i: int, rest: Bytes): Outcome {
    var wanted := if i + 2 < 0 || i + 2 > |rest| then |rest| else i + 2;
    if wanted < i + 2 then Raised else Got(BulkString(Prefix(rest[..wanted], i)), rest[wanted..])
  }

  /** The reply a line introduces, `rest` being the stream after the line. */
  function ReadBody(prefix: CodeUnit, body: Bytes, rest: Bytes): Outcome {
    if prefix == PLUS then Got(Simple(body), rest)
    else if prefix == COLON then
      match IntOf(body)
      case None => Raised
      case Some(i) => Got(Integer(i), rest)
    else if prefix == DOLLAR then
      match IntOf(body)
      case None => Raised
      case Some(i) => if i == -1 then Got(Null, rest) else ReadData(i, rest)
    else Raised
  }

  /** One reply from the front of the stream. */
  function ReadReply(s: Bytes): Outcome {
    var n := LineLength(s);
    if n == 0 then Raised else ReadBody(s[0], Stripped(s[1..n]), s[n..])
  }

  lemma LineLengthOf(line: Bytes, rest: Bytes)
    requires LF !in line
    ensures LineLength(line + (CRLF + rest)) == |line| + 2
  {
    var s := line + (CRLF + rest);
    if line == [] {
      assert s == CRLF + rest && s[1..][0] == LF;
      assert LineLength(s[1..]) == 1;
    } else {
      assert s[1..] == line[1..] + (CRLF + rest);
      LineLengthOf(line[1..], rest);
    }
  }

  lemma StrippedLine(text: Bytes)
    requires OneLine(text)
    ensures Stripped(text + CRLF) == text
  {
    var s := text + CRLF;
    assert s[..|s| - 1] == text + [CR];
    assert (text + [CR])[..|text|] == text;
    assert Stripped(text) == text;
    assert Stripped(text + [CR]) == text;
  }

  /** A reply line is read whole, and the rest of the stream is left for its payload or the next reply. */
  lemma ReplyLine(prefix: CodeUnit, text: Bytes, rest: Bytes)
    requires OneLine(text) && prefix != LF
    ensures ReadReply([prefix] + (text + CRLF) + rest) == ReadBody(prefix, text, rest)
  {
    var s := [prefix] + (text + CRLF) + rest;
    assert s == ([prefix] + text) + (CRLF + rest);
    LineLengthOf([prefix] + text, rest);
    assert s[1..|text| + 3] == text + CRLF && s[|text| + 3..] == rest;
    StrippedLine(text);
  }

  lemma NumbersAreLines(n: int)
    ensures OneLine(Signed(n))
  {
    DigitsReadBack(if n < 0 then -n else n);
    var s := Signed(n);
    forall u <- s ensures u != LF && u != CR {
      assert n < 0 ==> s == [MINUS] + Digits(-n);
    }
  }

  /**
    Reading a reply returns it and consumes exactly its own bytes, whatever follows in the stream; an
    error reply raises.
   */
  lemma ReplyReadBack(r: Reply, rest: Bytes)
    requires Sendable(r)
    ensures ReadReply(Wire(r) + rest) == if r.Failure? then Raised else Got(r, rest)
  {
    match r
    case Simple(text) => ReplyLine(PLUS, text, rest);
    case Failure(text) => ReplyLine(MINUS, text, rest);
    case Integer(n) =>
      NumbersAreLines(n);
      SignedReadBack(n);
      ReplyLine(COLON, Signed(n), rest);
    case Null =>
      NumbersAreLines(-1);
      SignedReadBack(-1);
      ReplyLine(DOLLAR, Signed(-1), rest);
    case BulkString(data) => BulkReply(data, rest);
  }

  lemma BulkReply(data: Bytes, rest: Bytes)
    ensures ReadReply(Bulk(data) + rest) == Got(BulkString(data), rest)
  {
    var after := data + (CRLF + rest);
    assert Bulk(data) + rest == [DOLLAR] + (Signed(|data|) + CRLF) + after;
    NumbersAreLines(|data|);
    SignedReadBack(|data|);
    ReplyLine(DOLLAR, Signed(|data|), after);
    var i := |data|;
    assert after[..i + 2] == data + CRLF && after[i + 2..] == rest;
    assert Prefix(data + CRLF, i) == data;
  }

  lemma NoLineEnd(s: Bytes)
    requires LF !in s
    ensures LineLength(s) == |s|
  {
    if s != [] {
      assert s[0] in s && forall u <- s[1..] :: u in s;
    }
  }

  /** A text of digits, and the first of the two line-end bytes after it or not, is stripped to the digits. */
  lemma StrippedDigits(digits: Bytes, end: Bytes)
    requires AllDigits(digits) && (end == [] || end == [CR])
    ensures Stripped(digits + end) == digits
  {
    assert digits != [] ==> digits[|digits| - 1] in digits && IsDigit(digits[|digits| - 1]);
    if end == [CR] {
      assert (digits + end)[..|digits + end| - 1] == digits;
    } else {
      assert digits + end == digits;
    }
  }

  /** A header cut off: whatever number is left of the length, no payload follows. */
  lemma CutHeaderRaises(digits: Bytes, end: Bytes)
    requires AllDigits(digits) && (end == [] || end == [CR])
    ensures ReadReply([DOLLAR] + (digits + end)) == Raised
  {
    var s := [DOLLAR] + (digits + end);
    forall u <- s ensures u != LF {
      assert u in digits ==> IsDigit(u);
    }
    NoLineEnd(s);
    StrippedDigits(digits, end);
    assert s[1..|s|] == digits + end && s[|s|..] == [];
    assert digits != [] ==> digits[0] in digits && IsDigit(digits[0]) && IntOf(digits) == Some(NatOf(digits));
    assert ReadReply(s) == ReadBody(DOLLAR, digits, []);
  }

  lemma ShortPayloadRaises(i: nat, payload: Bytes)
    requires |payload| < i + 2
    ensures ReadReply([DOLLAR] + (Digits(i) + (CRLF + payload))) == Raised
  {
    NumbersAreLines(i);
    SignedReadBack(i);
    ReplyLine(DOLLAR, Signed(i), payload);
    assert [DOLLAR] + (Digits(i) + (CRLF + payload)) == [DOLLAR] + (Signed(i) + CRLF) + payload;
  }

  /** A bulk reply that the connection cuts off anywhere raises: no flag is read off a part of a value. */
  lemma CutBulkRaises(data: Bytes, k: nat)
    requires k < |Bulk(data)|
    ensures ReadReply(Bulk(data)[..k]) == Raised
  {
    var digits := Digits(|data|);
    DigitsReadBack(|data|);
    var n := 1 + |digits|;
    assert Bulk(data) == [DOLLAR] + digits + CRLF + (data + CRLF);
    if k == 0 {
      assert Bulk(data)[..k] == [];
    } else if k <= n {
      assert Bulk(data)[..k] == [DOLLAR] + (digits[..k - 1] + []);
      CutHeaderRaises(digits[..k - 1], []);
    } else if k == n + 1 {
      assert Bulk(data)[..k] == [DOLLAR] + (digits + [CR]);
      CutHeaderRaises(digits, [CR]);
    } else {
      var payload := (data + CRLF)[..k - n - 2];
      assert Bulk(data)[..k] == [DOLLAR] + (digits + (CRLF + payload));
      ShortPayloadRaises(|data|, payload);
    }
  }

  // ---- One flag read ------------------------------------------------------------------------

  /** `AUTH` */
  const AUTH: Bytes := [65, 85, 84, 72]
  /** `SELECT` */
  const SELECT: Bytes := [83, 69, 76, 69, 67, 84]
  /** `GET` */
  const GET: Bytes := [71, 69, 84]
  /** `flag` */
  const FLAG: Bytes := [102, 108, 97, 103]
  /** `true` */
  const TRUE: Bytes := [116, 114, 117, 101]

  /** The commands of one read, in order: AUTH with a password, SELECT for a database other than 0, GET. */
  function Commands(password: Bytes, db: int, key: Bytes): seq<seq<Bytes>> {
    (if password == [] then [] else [[AUTH, password]])
    + (if db == 0 then [] else [[SELECT, Signed(db)]])
    + [[GET, key]]
  }

  /** Authenticate if there is a password, then select if the database is not the default one, and ask last. */
  lemma CommandsInOrder(password: Bytes, db: int, key: Bytes)
    ensures var commands, auth, select := Commands(password, db, key), Literal("AUTH"), Literal("SELECT");
            && commands != [] && commands[|commands| - 1] == [Literal("GET"), key]
            && (password != [] ==> |commands| > 1 && commands[0] == [auth, password])
            && (db != 0 ==> |commands| > 1 && |commands[|commands| - 2]| == 2
                            && commands[|commands| - 2][0] == select && IntOf(commands[|commands| - 2][1]) == Some(db))
            && |commands| == 1 + (if password != [] then 1 else 0) + (if db != 0 then 1 else 0)
  {
    assert AUTH == Literal("AUTH") && SELECT == Literal("SELECT") && GET == Literal("GET");
    SignedReadBack(db);
  }

  function Wires(replies: seq<Reply>): Bytes {
    if replies == [] then [] else Wire(replies[0]) + Wires(replies[1..])
  }

  /** Read one reply after each command and keep the last; `None`: one of the reads raised. */
  function Exchange(commands: seq<seq<Bytes>>, stream: Bytes): Option<Reply>
    requires commands != []
  {
    match ReadReply(stream)
    case Raised => None
    case Got(reply, rest) => if |commands| == 1 then Some(reply) else Exchange(commands[1..], rest)
  }

  /** The bytes written meanwhile: no command follows a reply that raised. */
  function Written(commands: seq<seq<Bytes>>, stream: Bytes): Bytes
    requires commands != []
  {
    match ReadReply(stream)
    case Raised => Encode(commands[0])
    case Got(reply, rest) =>
      if |commands| == 1 then Encode(commands[0]) else Encode(commands[0]) + Written(commands[1..], rest)
  }

  /** Send each command and read its reply before the next. `stream` is all that the server will ever send. */
  method RedisGet(password: Bytes, db: int, key: Bytes, stream: Bytes) returns (sent: Bytes, result: Option<Reply>)
    ensures result == Exchange(Commands(password, db, key), stream)
    ensures sent == Written(Commands(password, db, key), stream)
  {
    sent := [];
    var rest := stream;
    ghost var commands := Commands(password, db, key);
    if password != [] {
      var bytes := EncodeCommand([AUTH, password]);
      sent := sent + bytes;
      match ReadReply(rest) {
        case Raised => return sent, None;
        case Got(_, rest') => rest := rest';
      }
      commands := commands[1..];
    }
    assert Exchange(Commands(password, db, key), stream) == Exchange(commands, rest);
    assert Written(Commands(password, db, key), stream) == sent + Written(commands, rest);
    if db != 0 {
      var bytes := EncodeCommand([SELECT, Signed(db)]);
      ghost var before := sent;
      sent := sent + bytes;
      match ReadReply(rest) {
        case Raised => return sent, None;
        case Got(_, rest') =>
          Associative(before, bytes, Written(commands[1..], rest'));
          rest := rest';
      }
      commands := commands[1..];
    }
    assert commands == [[GET, key]];
    var bytes := EncodeCommand([GET, key]);
    sent := sent + bytes;
    match ReadReply(rest) {
      case Raised => result := None;
      case Got(reply, _) => result := Some(reply);
    }
  }

  /**
    The i-th reply read is the reply to the i-th command: over the replies of a server that answers in
    order, the result is the reply to GET, and nothing at all when any of them is an error.
   */
  lemma {:induction false} ExchangeIsInOrder(commands: seq<seq<Bytes>>, replies: seq<Reply>, rest: Bytes)
    requires |commands| == |replies| > 0 && forall r <- replies :: Sendable(r)
    ensures Exchange(commands, Wires(replies) + rest)
         == if exists r <- replies :: r.Failure? then None else Some(replies[|replies| - 1])
    decreases |commands|
  {
    var tail := Wires(replies[1..]) + rest;
    Associative(Wire(replies[0]), Wires(replies[1..]), rest);
    ReplyReadBack(replies[0], tail);
    assert replies == [replies[0]] + replies[1..];
    if |commands| > 1 {
      ExchangeIsInOrder(commands[1..], replies[1..], rest);
    }
  }

  /** The brand-first key; `None` is the error on an empty segment or one with a colon. */
  function FlagKey(brand: Bytes, flag: Bytes): Option<Bytes> {
    if brand == [] || flag == [] || !ColonFree(brand) || !ColonFree(flag) then None
    else Some(Join(COLON, [brand, FLAG, flag]))
  }

  /** The bytes of the protocol: a count after `*`, a length after `$`, and the first byte of each kind of reply. */
  lemma WireIsSpelled(args: seq<Bytes>, text: Bytes, n: int)
    ensures var end := Literal("\r\n");
            && Encode(args) == Literal("*") + (Digits(|args|) + (end + Bulks(args)))
            && Bulk(text) == Literal("$") + (Digits(|text|) + (end + (text + end)))
            && Wire(Simple(text)) == Literal("+") + (text + end)
            && Wire(Failure(text)) == Literal("-") + (text + end)
            && Wire(Integer(n)) == Literal(":") + (Signed(n) + end)
            && Wire(BulkString(text)) == Bulk(text)
            && Wire(Null) == Literal("$") + (Signed(-1) + end)
  {
    SpelledBytes();
  }

  lemma SpelledBytes()
    ensures [STAR] == Literal("*") && [DOLLAR] == Literal("$") && CRLF == Literal("\r\n")
    ensures [PLUS] == Literal("+") && [MINUS] == Literal("-") && [COLON] == Literal(":")
  {
  }

  function Encodes(commands: seq<seq<Bytes>>): Bytes {
    if commands == [] then [] else Encode(commands[0]) + Encodes(commands[1..])
  }

  /** The replies up to the first error, that one included. */
  function Answered(replies: seq<Reply>): (n: nat)
    ensures n <= |replies|
    ensures forall i | 0 <= i < n - 1 :: !replies[i].Failure?
    ensures n < |replies| ==> n > 0 && replies[n - 1].Failure?
  {
    if replies == [] then 0 else if replies[0].Failure? then 1 else 1 + Answered(replies[1..])
  }

  /** The commands go out in order, up to the first one that is answered by an error, and none after it. */
  lemma {:induction false} WrittenInOrder(commands: seq<seq<Bytes>>, replies: seq<Reply>, rest: Bytes)
    requires |commands| == |replies| > 0 && forall r <- replies :: Sendable(r)
    ensures Written(commands, Wires(replies) + rest) == Encodes(commands[..Answered(replies)])
    decreases |commands|
  {
    var tail := Wires(replies[1..]) + rest;
    Associative(Wire(replies[0]), Wires(replies[1..]), rest);
    ReplyReadBack(replies[0], tail);
    var sent := commands[..Answered(replies)];
    assert sent[0] == commands[0] && forall r <- replies[1..] :: r in replies;
    if |commands| > 1 && !replies[0].Failure? {
      WrittenInOrder(commands[1..], replies[1..], rest);
      assert sent[1..] == commands[1..][..Answered(replies[1..])];
    } else {
      assert sent == [commands[0]] && sent[1..] == [] && Encode(commands[0]) + [] == Encode(commands[0]);
    }
  }

  /** A flag has a key exactly when brand and flag are non-empty and free of colons; the brand leads. */
  lemma FlagKeyIsSpelled(brand: Bytes, flag: Bytes)
    ensures FlagKey(brand, flag) ==
            if brand == [] || flag == [] || 58 in brand || 58 in flag then None
            else Some(brand + Literal(":flag:") + flag)
  {
    JoinedThree(brand, FLAG, flag);
    assert Literal(":flag:") == [58] + FLAG + [58];
    assert brand + [58] + (FLAG + [58] + flag) == brand + ([58] + FLAG + [58]) + flag;
  }

  /** Two flags share a key only when brand and flag agree. */
  lemma FlagKeyIsInjective(brand: Bytes, flag: Bytes, brand': Bytes, flag': Bytes)
    requires FlagKey(brand, flag).Some? && FlagKey(brand', flag').Some?
    ensures FlagKey(brand, flag) == FlagKey(brand', flag') <==> brand == brand' && flag == flag'
  {
    var a, b := [brand, FLAG, flag], [brand', FLAG, flag'];
    JoinedInjective(a, b);
    if a == b {
      assert a[0] == b[0] && a[2] == b[2];
    }
  }

  function ValueOf(r: Option<Reply>): Option<Bytes> {
    match r
    case Some(BulkString(data)) => Some(data)
    case Some(Simple(text)) => Some(text)
    case _ => None
  }

  /** Fail closed: anything but the stored text `true` is off. */
  method IsFlagEnabled(brand: Bytes, flag: Bytes, password: Bytes, db: int, stream: Bytes) returns (on: bool)
    ensures on <==> FlagKey(brand, flag).Some?
                    && ValueOf(Exchange(Commands(password, db, FlagKey(brand, flag).value), stream)) == Some(TRUE)
  {
    if brand == [] || flag == [] {
      return false;
    }
    var key := FlagKey(brand, flag);
    if key.None? {
      return false;
    }
    var _, reply := RedisGet(password, db, key.value, stream);
    on := ValueOf(reply) == Some(TRUE);
  }

  /** With a server that answers in order a flag is on exactly when no answer is an error and GET's answer is `true`. */
  lemma FlagIsOnExactly(brand: Bytes, flag: Bytes, password: Bytes, db: int, replies: seq<Reply>, rest: Bytes)
    requires FlagKey(brand, flag).Some?
    requires var key := FlagKey(brand, flag).value;
             |replies| == |Commands(password, db, key)| && forall r <- replies :: Sendable(r)
    ensures var last := replies[|replies| - 1];
            ValueOf(Exchange(Commands(password, db, FlagKey(brand, flag).value), Wires(replies) + rest)) == Some(TRUE)
            <==>
              && (forall r <- replies :: !r.Failure?)
              && (last == BulkString(Literal("true")) || last == Simple(Literal("true")))
  {
    assert TRUE == Literal("true");
    ExchangeIsInOrder(Commands(password, db, FlagKey(brand, flag).value), replies, rest);
  }
}
