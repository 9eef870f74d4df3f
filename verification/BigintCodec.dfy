/**
  The stored form of a cached value: JSON in which a bigint is a one-member tagged object.

  `JSON.stringify` visits a value top down with the replacer, `JSON.parse` rebuilds it bottom up and
  hands every rebuilt value to the reviver. `BigInt(text)` throws on some texts and accepts many that
  no bigint prints as, so it is a parameter of which only the reading back of printed bigints is used.
 */
module BigintCodec {
  import opened Options
  import opened Texts
  import opened Decimals
  import opened JsonText

  datatype Tree =
    | TNull
    | TBool(b: bool)
    | TNum(lexeme: Text)
    | TStr(s: Text)
    | TBig(i: int)
    | TArr(elems: seq<Tree>)
    | TObj(members: seq<Entry<Tree>>)

  /** `__brain_bigint__` */
  const TAG: Text := [95, 95, 98, 114, 97, 105, 110, 95, 98, 105, 103, 105, 110, 116, 95, 95]

  lemma TagIsSpelled()
    ensures TAG == Literal("__brain_bigint__")
  {
  }

  type BigIntParser = Text -> Option<int>

  ghost predicate ReadsPrinted(parse: BigIntParser) {
    forall i: int :: parse(Signed(i)) == Some(i)
  }

  /** Numbers carry a number text. */
  predicate Finite(t: Tree) {
    match t
    case TNum(lexeme) => IsNumber(lexeme)
    case TArr(elems) => forall e <- elems :: Finite(e)
    case TObj(members) => forall m <- members :: Finite(m.value)
    case _ => true
  }

  // ---- Encoding -----------------------------------------------------------------------------

  function Replaced(t: Tree): Value {
    match t
    case TNull => VNull
    case TBool(b) => VBool(b)
    case TNum(lexeme) => VNum(lexeme)
    case TStr(s) => VStr(s)
    case TBig(i) => VObj([Entry(TAG, VStr(Signed(i)))])
    case TArr(elems) => VArr(ReplacedElems(elems))
    case TObj(members) => VObj(ReplacedMembers(members))
  }

  function ReplacedElems(elems: seq<Tree>): seq<Value> {
    if elems == [] then [] else [Replaced(elems[0])] + ReplacedElems(elems[1..])
  }

  function ReplacedMembers(members: seq<Entry<Tree>>): seq<Entry<Value>> {
    if members == [] then []
    else [Entry(members[0].key, Replaced(members[0].value))] + ReplacedMembers(members[1..])
  }

  function Encode(t: Tree): Text {
    Print(Replaced(t))
  }

  // ---- Decoding -----------------------------------------------------------------------------

  /** The string under the reserved key, when there is one. */
  function TagText(members: seq<Entry<Tree>>): Option<Text> {
    if members == [] then None
    else if members[0].key == TAG then
      if members[0].value.TStr? then Some(members[0].value.s) else None
    else TagText(members[1..])
  }

  /** In an object, whose keys are distinct, it is the string under that key and under no other. */
  lemma TagTextMeans(members: seq<Entry<Tree>>, s: Text)
    requires DistinctKeys(members)
    ensures TagText(members) == Some(s) <==> Entry(Literal("__brain_bigint__"), TStr(s)) in members
  {
    TagIsSpelled();
    if members != [] {
      DistinctTail(members);
      TagTextMeans(members[1..], s);
      assert members == [members[0]] + members[1..];
    }
  }

  /** The reviver on an object whose members are already revived. `None`: `BigInt` throws. */
  function Untagged(parse: BigIntParser, members: seq<Entry<Tree>>): Option<Tree> {
    match TagText(members)
    case None => Some(TObj(members))
    case Some(s) => match parse(s)
                    case None => None
                    case Some(i) => Some(TBig(i))
  }

  function Revived(parse: BigIntParser, v: Value): Option<Tree> {
    match v
    case VNull => Some(TNull)
    case VBool(b) => Some(TBool(b))
    case VNum(lexeme) => Some(TNum(lexeme))
    case VStr(s) => Some(TStr(s))
    case VArr(elems) => (match RevivedElems(parse, elems)
                         case None => None
                         case Some(ts) => Some(TArr(ts)))
    case VObj(members) => (match RevivedMembers(parse, members)
                           case None => None
                           case Some(ts) => Untagged(parse, ts))
  }

  function RevivedElems(parse: BigIntParser, elems: seq<Value>): Option<seq<Tree>> {
    if elems == [] then Some([])
    else match (Revived(parse, elems[0]), RevivedElems(parse, elems[1..]))
         case (Some(t), Some(ts)) => Some([t] + ts)
         case _ => None
  }

  function RevivedMembers(parse: BigIntParser, members: seq<Entry<Value>>): Option<seq<Entry<Tree>>> {
    if members == [] then Some([])
    else match (Revived(parse, members[0].value), RevivedMembers(parse, members[1..]))
         case (Some(t), Some(ts)) => Some([Entry(members[0].key, t)] + ts)
         case _ => None
  }

  /** `JSON.parse(raw, bigintReviver)`; `None` when it throws. */
  function Decode(parse: BigIntParser, raw: Text): Option<Tree> {
    match ParseValue(raw)
    case NoParse => None
    case Parsed(v, rest) => if rest == [] then Revived(parse, v) else None
  }

  /** `get` on a stored text: a malformed entry and a stored null are both misses. */
  function Hit(parse: BigIntParser, raw: Text): Option<Tree> {
    if Decode(parse, raw) == Some(TNull) then None else Decode(parse, raw)
  }

  // ---- The round trip -----------------------------------------------------------------------

  /** No object anywhere in the tree has a string under the reserved key. */
  predicate TagFree(t: Tree) {
    match t
    case TArr(elems) => forall e <- elems :: TagFree(e)
    case TObj(members) => TagText(members).None? && forall m <- members :: TagFree(m.value)
    case _ => true
  }

  lemma {:induction false} ReplacedPrintable(t: Tree)
    requires Finite(t)
    ensures Printable(Replaced(t))
  {
    match t
    case TArr(elems) => ReplacedElemsPrintable(elems);
    case TObj(members) => ReplacedMembersPrintable(members);
    case _ =>
  }

  lemma {:induction false} ReplacedElemsPrintable(elems: seq<Tree>)
    requires forall e <- elems :: Finite(e)
    ensures forall v <- ReplacedElems(elems) :: Printable(v)
  {
    if elems != [] {
      ReplacedPrintable(elems[0]);
      ReplacedElemsPrintable(elems[1..]);
    }
  }

  lemma {:induction false} ReplacedMembersPrintable(members: seq<Entry<Tree>>)
    requires forall m <- members :: Finite(m.value)
    ensures forall n <- ReplacedMembers(members) :: Printable(n.value)
  {
    if members != [] {
      ReplacedPrintable(members[0].value);
      ReplacedMembersPrintable(members[1..]);
    }
  }

  /** Replacing and reviving gives the tree back exactly when nothing in it looks like a tag. */
  lemma {:induction false} RevivedReplaced(parse: BigIntParser, t: Tree)
    requires ReadsPrinted(parse)
    ensures Revived(parse, Replaced(t)) == Some(t) <==> TagFree(t)
  {
    match t
    case TBig(i) => BigRevived(parse, i);
    case TArr(elems) => RevivedReplacedElems(parse, elems);
    case TObj(members) => RevivedReplacedMembers(parse, members);
    case _ =>
  }

  lemma BigRevived(parse: BigIntParser, i: int)
    requires ReadsPrinted(parse)
    ensures Revived(parse, Replaced(TBig(i))) == Some(TBig(i))
  {
    var tagged := [Entry(TAG, VStr(Signed(i)))];
    var revived := [Entry(TAG, TStr(Signed(i)))];
    assert tagged[1..] == [] && revived + [] == revived;
    assert Revived(parse, tagged[0].value) == Some(TStr(Signed(i)));
    assert RevivedMembers(parse, tagged) == Some(revived);
  }

  lemma {:induction false} RevivedReplacedElems(parse: BigIntParser, elems: seq<Tree>)
    requires ReadsPrinted(parse)
    ensures RevivedElems(parse, ReplacedElems(elems)) == Some(elems) <==> forall e <- elems :: TagFree(e)
  {
    if elems != [] {
      RevivedReplaced(parse, elems[0]);
      RevivedReplacedElems(parse, elems[1..]);
      assert ReplacedElems(elems)[1..] == ReplacedElems(elems[1..]);
      Uncons(elems);
    }
  }

  lemma {:induction false} RevivedReplacedMembers(parse: BigIntParser, members: seq<Entry<Tree>>)
    requires ReadsPrinted(parse)
    ensures RevivedMembers(parse, ReplacedMembers(members)) == Some(members) <==>
            forall m <- members :: TagFree(m.value)
  {
    if members != [] {
      RevivedReplaced(parse, members[0].value);
      RevivedReplacedMembers(parse, members[1..]);
      assert ReplacedMembers(members)[1..] == ReplacedMembers(members[1..]);
      Uncons(members);
    }
  }

  lemma Uncons<T>(s: seq<T>)
    requires s != []
    ensures s == [s[0]] + s[1..]
    ensures forall h: T, r: seq<T> :: [h] + r == s ==> h == s[0] && r == s[1..]
  {
  }

  /** Decoding the stored form returns the value, exactly for the trees free of the reserved tag. */
  lemma CodecRoundTrip(parse: BigIntParser, t: Tree)
    requires Finite(t) && ReadsPrinted(parse)
    ensures Decode(parse, Encode(t)) == Some(t) <==> TagFree(t)
  {
    ReplacedPrintable(t);
    ParserUndoesPrinter(Replaced(t));
    RevivedReplaced(parse, t);
  }

  /** A stored value is served back as itself exactly when it is tag-free and not null. */
  lemma StoredValueIsAHit(parse: BigIntParser, t: Tree)
    requires Finite(t) && ReadsPrinted(parse)
    ensures Hit(parse, Encode(t)) == Some(t) <==> TagFree(t) && !t.TNull?
  {
    CodecRoundTrip(parse, t);
  }

  /** The assumption on `BigInt` is met by plain decimal reading. */
  lemma DecimalReadingIsEnough()
    ensures ReadsPrinted(t => IntOf(t))
  {
    forall i: int ensures (t => IntOf(t))(Signed(i)) == Some(i) {
      SignedReadBack(i);
    }
  }
}
