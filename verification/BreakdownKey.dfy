/**
  The canonical key of a row's breakdown dimensions: `name=value` pairs, escaped, sorted by name and
  joined with '|'. A parser for such keys shows that nothing is lost.
 */
module BreakdownKey {
  import opened Lexicographic
  import opened Options
  import opened Texts

  const BACKSLASH: CodeUnit := 92
  const BAR: CodeUnit := 124
  const EQUALS: CodeUnit := 61

  // ---- Escaping -----------------------------------------------------------------------------

  /** `s.replace(/c/g, '\\c')` */
  function Replace(c: CodeUnit, s: Text): Text {
    if s == [] then [] else (if s[0] == c then [BACKSLASH, c] else [s[0]]) + Replace(c, s[1..])
  }

  /** Three global replacements, one after the other. */
  function EscapeToken(s: Text): Text {
    Replace(EQUALS, Replace(BAR, Replace(BACKSLASH, s)))
  }

  predicate IsDelimiter(u: CodeUnit) {
    u == BACKSLASH || u == BAR || u == EQUALS
  }

  /** A backslash in front of every delimiter, in one pass. */
  function Escaped(s: Text): Text {
    if s == [] then [] else (if IsDelimiter(s[0]) then [BACKSLASH, s[0]] else [s[0]]) + Escaped(s[1..])
  }

  lemma ReplaceConcat(c: CodeUnit, a: Text, b: Text)
    ensures Replace(c, a + b) == Replace(c, a) + Replace(c, b)
  {
    if a == [] {
      assert a + b == b;
    } else {
      assert (a + b)[1..] == a[1..] + b;
      ReplaceConcat(c, a[1..], b);
    }
  }

  lemma ReplaceShort(c: CodeUnit, u: CodeUnit, v: CodeUnit)
    ensures Replace(c, [u]) == if u == c then [BACKSLASH, c] else [u]
    ensures u != c && v != c ==> Replace(c, [u, v]) == [u, v]
    ensures u != c ==> Replace(c, [u, c]) == [u, BACKSLASH, c]
  {
    assert [u][1..] == [] && [u, v][1..] == [v] && [v][1..] == [] && [u, c][1..] == [c] && [c][1..] == [];
    assert Replace(c, []) == [];
  }

  /** The three passes do not disturb each other: no backslash added by one is escaped by the next. */
  lemma {:induction false} ThreePassesAreOne(s: Text)
    ensures EscapeToken(s) == Escaped(s)
  {
    if s != [] {
      var u, t := s[0], s[1..];
      ThreePassesAreOne(t);
      assert s == [u] + t;
      var r1 := Replace(BACKSLASH, [u]);
      ReplaceConcat(BACKSLASH, [u], t);
      ReplaceConcat(BAR, r1, Replace(BACKSLASH, t));
      ReplaceConcat(EQUALS, Replace(BAR, r1), Replace(BAR, Replace(BACKSLASH, t)));
      ReplaceShort(BACKSLASH, u, u);
      ReplaceShort(BAR, u, u);
      ReplaceShort(EQUALS, u, u);
      ReplaceShort(BAR, BACKSLASH, BACKSLASH);
      ReplaceShort(EQUALS, BACKSLASH, BACKSLASH);
      ReplaceShort(EQUALS, BACKSLASH, BAR);
      assert Replace(EQUALS, Replace(BAR, r1)) == if IsDelimiter(u) then [BACKSLASH, u] else [u];
    }
  }

  // ---- The key ------------------------------------------------------------------------------

  /** A dimension as given: null and undefined are both `None`. */
  type Dimensions = seq<Entry<Option<Text>>>

  predicate IsPresent(e: Entry<Option<Text>>) {
    e.value.Some? && e.value.value != []
  }

  function PresentOne(d: Entry<Option<Text>>): seq<Entry<Text>> {
    if IsPresent(d) then [Entry(d.key, d.value.value)] else []
  }

  /** The dimensions present on the row, in the order given. */
  function Present(dims: Dimensions): seq<Entry<Text>> {
    if dims == [] then []
    else PresentOne(dims[0]) + Present(dims[1..])
  }

  function PairText(p: Entry<Text>): Text {
    EscapeToken(p.key) + [EQUALS] + EscapeToken(p.value)
  }

  function PairTexts(pairs: seq<Entry<Text>>): seq<Text> {
    if pairs == [] then [] else [PairText(pairs[0])] + PairTexts(pairs[1..])
  }

  function Key(dims: Dimensions): Text {
    Join(BAR, PairTexts(Present(Sort(dims))))
  }

  lemma PairTextsConcat(a: seq<Entry<Text>>, b: seq<Entry<Text>>)
    ensures PairTexts(a + b) == PairTexts(a) + PairTexts(b)
  {
    if a == [] {
      assert a + b == b;
    } else {
      assert (a + b)[1..] == a[1..] + b;
      PairTextsConcat(a[1..], b);
    }
  }

  lemma {:induction false} PresentSnoc(dims: Dimensions, d: Entry<Option<Text>>)
    ensures Present(dims + [d]) == Present(dims) + PresentOne(d)
  {
    if dims == [] {
      assert dims + [d] == [d] && [d][1..] == [];
    } else {
      assert (dims + [d])[1..] == dims[1..] + [d];
      PresentSnoc(dims[1..], d);
    }
  }

  /** The loop over the sorted names. */
  method CanonicalBreakdownKey(dims: Dimensions) returns (key: Text)
    ensures key == Key(dims)
  {
    var sorted := Sort(dims);
    var pairs: seq<Text> := [];
    for i := 0 to |sorted|
      invariant pairs == PairTexts(Present(sorted[..i]))
    {
      assert sorted[..i + 1] == sorted[..i] + [sorted[i]];
      PresentSnoc(sorted[..i], sorted[i]);
      PairTextsConcat(Present(sorted[..i]), PresentOne(sorted[i]));
      match sorted[i].value
      case None =>
      case Some(value) =>
        if value != [] {
          pairs := pairs + [EscapeToken(sorted[i].key) + [EQUALS] + EscapeToken(value)];
        }
    }
    assert sorted[..|sorted|] == sorted;
    key := Join(BAR, pairs);
  }

  // ---- Reading a key back -------------------------------------------------------------------

  datatype Read<+T> = Malformed | Read(value: T, rest: Text)

  /** A token up to the next unescaped '|' or '='. */
  function ReadToken(t: Text): (r: Read<Text>)
    ensures r.Read? ==> |r.rest| <= |t|
  {
    if t == [] || t[0] == BAR || t[0] == EQUALS then Read([], t)
    else if t[0] == BACKSLASH then
      if |t| == 1 then Malformed
      else match ReadToken(t[2..])
           case Malformed => Malformed
           case Read(s, rest) => Read([t[1]] + s, rest)
    else match ReadToken(t[1..])
         case Malformed => Malformed
         case Read(s, rest) => Read([t[0]] + s, rest)
  }

  function ReadPair(t: Text): (r: Read<Entry<Text>>)
    ensures r.Read? ==> |r.rest| < |t|
  {
    match ReadToken(t)
    case Malformed => Malformed
    case Read(name, rest) =>
      if rest == [] || rest[0] != EQUALS then Malformed
      else match ReadToken(rest[1..])
           case Malformed => Malformed
           case Read(value, rest') => Read(Entry(name, value), rest')
  }

  /** All pairs of a key; `None` when the text is not one. */
  function ReadKey(t: Text): Option<seq<Entry<Text>>>
    decreases |t|
  {
    if t == [] then Some([])
    else match ReadPair(t)
         case Malformed => None
         case Read(p, rest) =>
           if rest == [] then Some([p])
           else if rest[0] != BAR || |rest| == 1 then None
           else match ReadKey(rest[1..])
                case None => None
                case Some(ps) => Some([p] + ps)
  }

  predicate EndsToken(rest: Text) {
    rest == [] || rest[0] == BAR || rest[0] == EQUALS
  }

  lemma TokenStep(u: CodeUnit, t: Text, s: Text, rest: Text)
    requires ReadToken(t) == Read(s, rest)
    ensures ReadToken((if IsDelimiter(u) then [BACKSLASH, u] else [u]) + t) == Read([u] + s, rest)
  {
  }

  lemma {:induction false} TokenReadBack(s: Text, rest: Text)
    requires EndsToken(rest)
    ensures ReadToken(Escaped(s) + rest) == Read(s, rest)
  {
    if s == [] {
      assert Escaped(s) + rest == rest;
    } else {
      TokenReadBack(s[1..], rest);
      TokenStep(s[0], Escaped(s[1..]) + rest, s[1..], rest);
      var head := if IsDelimiter(s[0]) then [BACKSLASH, s[0]] else [s[0]];
      Associative(head, Escaped(s[1..]), rest);
      assert s == [s[0]] + s[1..];
    }
  }

  lemma PairStep(t: Text, name: Text, more: Text, value: Text, rest: Text)
    requires ReadToken(t) == Read(name, [EQUALS] + more) && ReadToken(more) == Read(value, rest)
    ensures ReadPair(t) == Read(Entry(name, value), rest)
  {
  }

  lemma PairReadBack(p: Entry<Text>, rest: Text)
    requires rest == [] || rest[0] == BAR
    ensures PairText(p) != [] && ReadPair(PairText(p) + rest) == Read(p, rest)
  {
    ThreePassesAreOne(p.key);
    ThreePassesAreOne(p.value);
    var name, value := Escaped(p.key), Escaped(p.value);
    TokenReadBack(p.key, [EQUALS] + (value + rest));
    TokenReadBack(p.value, rest);
    PairStep(name + ([EQUALS] + (value + rest)), p.key, value + rest, p.value, rest);
    Nested(name, [EQUALS], value, rest);
  }

  lemma KeyStart(pairs: seq<Entry<Text>>)
    ensures Join(BAR, PairTexts(pairs)) == [] <==> pairs == []
  {
  }

  lemma KeyLast(t: Text, p: Entry<Text>)
    requires t != [] && ReadPair(t) == Read(p, [])
    ensures ReadKey(t) == Some([p])
  {
  }

  lemma KeyStep(t: Text, p: Entry<Text>, more: Text, ps: seq<Entry<Text>>)
    requires t != [] && ReadPair(t) == Read(p, [BAR] + more) && more != [] && ReadKey(more) == Some(ps)
    ensures ReadKey(t) == Some([p] + ps)
  {
  }

  /** The parser undoes the printer. */
  lemma {:induction false} KeyReadBack(pairs: seq<Entry<Text>>)
    ensures ReadKey(Join(BAR, PairTexts(pairs))) == Some(pairs)
  {
    if |pairs| == 1 {
      PairReadBack(pairs[0], []);
      var t := PairText(pairs[0]);
      assert pairs == [pairs[0]] && t + [] == t && Join(BAR, PairTexts(pairs)) == t;
      KeyLast(t, pairs[0]);
    } else if pairs != [] {
      var more := Join(BAR, PairTexts(pairs[1..]));
      KeyStart(pairs[1..]);
      KeyReadBack(pairs[1..]);
      assert PairTexts(pairs)[1..] == PairTexts(pairs[1..]);
      PairReadBack(pairs[0], [BAR] + more);
      Associative(PairText(pairs[0]), [BAR], more);
      KeyStep(PairText(pairs[0]) + ([BAR] + more), pairs[0], more, pairs[1..]);
      assert pairs == [pairs[0]] + pairs[1..];
    }
  }

  // ---- Which dimensions give the same key ---------------------------------------------------

  /** What is present, from the dimensions alone: every value that is neither null nor empty, and nothing else. */
  lemma {:induction false} PresentIsNonEmpty(dims: Dimensions, name: Text, value: Text)
    ensures Entry(name, value) in Present(dims) <==> value != [] && Entry(name, Some(value)) in dims
  {
    if dims != [] {
      PresentIsNonEmpty(dims[1..], name, value);
      assert dims == [dims[0]] + dims[1..];
    }
  }

  lemma PresentOf(dims: Dimensions)
    ensures forall d <- dims :: IsPresent(d) ==> Entry(d.key, d.value.value) in Present(dims)
    ensures forall p <- Present(dims) :: p.value != [] && Entry(p.key, Some(p.value)) in dims
  {
  }

  lemma IncreasingTail<V>(s: seq<Entry<V>>, e: Entry<V>)
    requires s != [] && Increasing(s) && e in s[1..]
    ensures Below(s[0].key, e.key)
  {
  }

  lemma {:induction false} PresentOfIncreasing(dims: Dimensions)
    requires Increasing(dims)
    ensures Increasing(Present(dims))
  {
    if dims != [] {
      PresentOfIncreasing(dims[1..]);
      PresentOf(dims[1..]);
      var tail := Present(dims[1..]);
      forall j | 0 <= j < |tail| ensures Below(dims[0].key, tail[j].key) {
        assert tail[j] in tail;
        IncreasingTail(dims, Entry(tail[j].key, Some(tail[j].value)));
      }
    }
  }

  /** Sorting first changes the order of the present dimensions and nothing else. */
  lemma PresentAfterSort(dims: Dimensions)
    requires DistinctKeys(dims)
    ensures Increasing(Present(Sort(dims)))
    ensures SameMembers(Present(Sort(dims)), Present(dims))
  {
    SortMembers(dims);
    SortIncreasing(dims);
    PresentOfIncreasing(Sort(dims));
    PresentOf(dims);
    PresentOf(Sort(dims));
    forall p <- Present(Sort(dims)) ensures p in Present(dims) {
      var d := Entry(p.key, Some(p.value));
      assert d in Sort(dims) && d in dims && IsPresent(d);
    }
    forall p <- Present(dims) ensures p in Present(Sort(dims)) {
      var d := Entry(p.key, Some(p.value));
      assert d in dims && d in Sort(dims) && IsPresent(d);
    }
  }

  /** Two sets of dimensions have the same key exactly when their non-empty dimensions agree. */
  lemma KeyIsExact(a: Dimensions, b: Dimensions)
    requires DistinctKeys(a) && DistinctKeys(b)
    ensures Key(a) == Key(b) <==> SameMembers(Present(a), Present(b))
  {
    var p, q := Present(Sort(a)), Present(Sort(b));
    PresentAfterSort(a);
    PresentAfterSort(b);
    if Key(a) == Key(b) {
      KeyReadBack(p);
      KeyReadBack(q);
    }
    if SameMembers(Present(a), Present(b)) {
      IncreasingUnique(p, q);
    }
  }

  /** The key is empty exactly when no dimension is present: base rows keep their identity. */
  lemma EmptyKey(dims: Dimensions)
    requires DistinctKeys(dims)
    ensures Key(dims) == [] <==> Present(dims) == []
  {
    PresentAfterSort(dims);
    KeyStart(Present(Sort(dims)));
    var p, q := Present(Sort(dims)), Present(dims);
    assert p != [] ==> p[0] in q;
    assert q != [] ==> q[0] in p;
  }

  /** The key names each dimension that is neither null nor empty, with its value, in the order of the names. */
  lemma KeyTellsDimensions(dims: Dimensions, name: Text, value: Text)
    requires DistinctKeys(dims)
    ensures var read := ReadKey(Key(dims));
            && read.Some? && Increasing(read.value)
            && (Entry(name, value) in read.value <==> value != [] && Entry(name, Some(value)) in dims)
  {
    PresentAfterSort(dims);
    KeyReadBack(Present(Sort(dims)));
    PresentIsNonEmpty(dims, name, value);
  }

  predicate PlainToken(s: Text) {
    forall u <- s :: u !in {92, 124, 61}
  }

  lemma {:induction false} PlainTokenStays(s: Text)
    requires PlainToken(s)
    ensures Escaped(s) == s
  {
    if s != [] {
      assert s[0] in s && forall u <- s[1..] :: u in s;
      PlainTokenStays(s[1..]);
      assert s == [s[0]] + s[1..];
    }
  }

  /** The documented form: `age=25-34|gender=female`. */
  lemma PlainPairs(a: Text, x: Text, b: Text, y: Text)
    requires PlainToken(a) && PlainToken(x) && PlainToken(b) && PlainToken(y)
    ensures Join(BAR, PairTexts([Entry(a, x), Entry(b, y)])) ==
            a + Literal("=") + x + Literal("|") + (b + Literal("=") + y)
  {
    var p, q := Entry(a, x), Entry(b, y);
    ThreePassesAreOne(a);
    ThreePassesAreOne(x);
    ThreePassesAreOne(b);
    ThreePassesAreOne(y);
    PlainTokenStays(a);
    PlainTokenStays(x);
    PlainTokenStays(b);
    PlainTokenStays(y);
    assert [p, q][1..] == [q];
    assert PairTexts([p, q])[1..] == PairTexts([q]) == [PairText(q)];
    assert Literal("=") == [EQUALS] && Literal("|") == [BAR];
  }

  /** A delimiter is escaped by a backslash in front of it. */
  lemma DelimitersAreEscaped(u: CodeUnit)
    requires [u] == Literal("|") || [u] == Literal("=") || [u] == Literal("\\")
    ensures EscapeToken([u]) == Literal("\\") + [u]
  {
    ThreePassesAreOne([u]);
    assert Literal("|")[0] == 124 && Literal("=")[0] == 61 && Literal("\\") == [92];
    assert u in {92, 124, 61} && [u][1..] == [];
  }
}
