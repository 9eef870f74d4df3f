/** Cutting a column block at its top-level commas, so that the commas of composite types stay put. */
module ColumnSplit {

  /** Parenthesis depth in front of position `i`. */
  function Depth(s: string, i: nat): int
    requires i <= |s|
  {
    if i == 0 then 0
    else Depth(s, i - 1) + if s[i - 1] == '(' then 1 else if s[i - 1] == ')' then -1 else 0
  }

  /** A comma outside all parentheses. */
  predicate Cuts(s: string, i: nat)
    requires i < |s|
  {
    s[i] == ',' && Depth(s, i) == 0
  }

  /** `parts` are the pieces of `s[from..to]` between consecutive cuts. */
  predicate Splits(s: string, parts: seq<string>, from: nat, to: nat)
    requires to <= |s|
    decreases |parts|
  {
    parts != []
    && var end := from + |parts[0]|;
    && end <= to && s[from..end] == parts[0]
    && (forall i | from <= i < end :: !Cuts(s, i))
    && if |parts| == 1 then end == to else end < to && Cuts(s, end) && Splits(s, parts[1..], end + 1, to)
  }

  function Join(parts: seq<string>): string {
    if parts == [] then ""
    else if |parts| == 1 then parts[0]
    else parts[0] + "," + Join(parts[1..])
  }

  /** A cut finishes the buffer and starts an empty one. */
  lemma {:induction false} PieceAdded(s: string, parts: seq<string>, buf: string, from: nat, i: nat)
    requires i < |s| && Splits(s, parts + [buf], from, i) && Cuts(s, i)
    ensures Splits(s, parts + [buf] + [""], from, i + 1)
    decreases |parts|
  {
    var longer := parts + [buf] + [""];
    if parts == [] {
      assert longer[1..] == [""];
    } else {
      assert (parts + [buf])[1..] == parts[1..] + [buf] && longer[1..] == parts[1..] + [buf] + [""];
      PieceAdded(s, parts[1..], buf, from + |parts[0]| + 1, i);
    }
  }

  /** Any other character goes into the buffer. */
  lemma {:induction false} PieceGrows(s: string, parts: seq<string>, buf: string, from: nat, i: nat)
    requires i < |s| && Splits(s, parts + [buf], from, i) && !Cuts(s, i)
    ensures Splits(s, parts + [buf + [s[i]]], from, i + 1)
    decreases |parts|
  {
    var longer := parts + [buf + [s[i]]];
    if parts == [] {
      assert s[from..i + 1] == s[from..i] + [s[i]];
    } else {
      assert (parts + [buf])[1..] == parts[1..] + [buf] && longer[1..] == parts[1..] + [buf + [s[i]]];
      PieceGrows(s, parts[1..], buf, from + |parts[0]| + 1, i);
    }
  }

  /** The character loop: `depth`, a buffer and the finished parts. */
  method SplitTopLevelCommas(columns: string) returns (parts: seq<string>)
    ensures Splits(columns, parts, 0, |columns|)
  {
    parts := [];
    var buf := "";
    var depth := 0;
    for i := 0 to |columns|
      invariant depth == Depth(columns, i)
      invariant Splits(columns, parts + [buf], 0, i)
    {
      var ch := columns[i];
      if ch == '(' {
        depth := depth + 1;
      } else if ch == ')' {
        depth := depth - 1;
      }
      if ch == ',' && depth == 0 {
        PieceAdded(columns, parts, buf, 0, i);
        parts := parts + [buf];
        buf := "";
      } else {
        PieceGrows(columns, parts, buf, 0, i);
        buf := buf + [ch];
      }
    }
    parts := parts + [buf];
  }

  lemma AtComma(s: string, from: nat, end: nat, rest: string)
    requires from <= end < |s| && s[end] == ',' && s[end + 1..] == rest
    ensures s[from..] == s[from..end] + "," + rest
  {
  }

  /** Nothing is lost: the parts join back to the block. */
  lemma {:induction false} PartsJoinBack(s: string, parts: seq<string>, from: nat)
    requires Splits(s, parts, from, |s|)
    ensures Join(parts) == s[from..]
    decreases |parts|
  {
    var end := from + |parts[0]|;
    if |parts| > 1 {
      PartsJoinBack(s, parts[1..], end + 1);
      AtComma(s, from, end, Join(parts[1..]));
    }
  }

  /** There is one way to cut at the top-level commas. */
  lemma {:induction false} SplitIsUnique(s: string, a: seq<string>, b: seq<string>, from: nat)
    requires Splits(s, a, from, |s|) && Splits(s, b, from, |s|)
    ensures a == b
    decreases |a|
  {
    var x, y := from + |a[0]|, from + |b[0]|;
    assert forall i | from <= i < x :: !Cuts(s, i);
    assert forall i | from <= i < y :: !Cuts(s, i);
    assert x == y && a[0] == b[0];
    if |a| > 1 && |b| > 1 {
      SplitIsUnique(s, a[1..], b[1..], x + 1);
      assert a == [a[0]] + a[1..] && b == [b[0]] + b[1..];
    } else {
      assert a == [a[0]] && b == [b[0]];
    }
  }

  /** A column definition by itself: its parentheses close, and no comma stands outside them. */
  predicate IsColumn(c: string) {
    Depth(c, |c|) == 0 && forall i | 0 <= i < |c| :: !Cuts(c, i)
  }

  /** Depth inside a piece counts from the depth in front of it. */
  lemma {:induction false} ShiftedDepth(s: string, from: nat, c: string, i: nat)
    requires from + |c| <= |s| && s[from..from + |c|] == c && i <= |c|
    ensures Depth(s, from + i) == Depth(s, from) + Depth(c, i)
  {
    if i > 0 {
      ShiftedDepth(s, from, c, i - 1);
      assert s[from + i - 1] == s[from..from + |c|][i - 1] == c[i - 1];
    }
  }

  lemma FirstPiece(s: string, from: nat, c: string, tail: string)
    requires from <= |s| && s[from..] == c + tail
    ensures from + |c| <= |s| && s[from..from + |c|] == c && s[from + |c|..] == tail
  {
  }

  lemma ColumnInPlace(s: string, from: nat, c: string)
    requires IsColumn(c) && from + |c| <= |s| && s[from..from + |c|] == c && Depth(s, from) == 0
    ensures Depth(s, from + |c|) == 0
    ensures forall i | from <= i < from + |c| :: !Cuts(s, i)
  {
    ShiftedDepth(s, from, c, |c|);
    forall i | from <= i < from + |c| ensures !Cuts(s, i) {
      ShiftedDepth(s, from, c, i - from);
      assert !Cuts(c, i - from) && s[i] == s[from..from + |c|][i - from];
    }
  }

  lemma CommaInPlace(s: string, end: nat, rest: string)
    requires end <= |s| && s[end..] == "," + rest
    ensures end < |s| && s[end] == ',' && s[end + 1..] == rest && Depth(s, end + 1) == Depth(s, end)
  {
  }

  lemma SplitsFirst(s: string, columns: seq<string>, from: nat)
    requires |columns| > 1 && from + |columns[0]| < |s| && s[from..from + |columns[0]|] == columns[0]
    requires (forall i | from <= i < from + |columns[0]| :: !Cuts(s, i)) && Cuts(s, from + |columns[0]|)
    requires Splits(s, columns[1..], from + |columns[0]| + 1, |s|)
    ensures Splits(s, columns, from, |s|)
  {
  }

  /** Well-formed definitions, composite types included, come back as they were written. */
  lemma {:induction false} ColumnsReadBack(s: string, columns: seq<string>, from: nat)
    requires columns != [] && forall c <- columns :: IsColumn(c)
    requires from <= |s| && s[from..] == Join(columns) && Depth(s, from) == 0
    ensures Splits(s, columns, from, |s|)
    decreases |columns|
  {
    var c := columns[0];
    assert IsColumn(c);
    if |columns| == 1 {
      FirstPiece(s, from, c, "");
      ColumnInPlace(s, from, c);
    } else {
      var rest := Join(columns[1..]);
      assert Join(columns) == c + ("," + rest);
      FirstPiece(s, from, c, "," + rest);
      ColumnInPlace(s, from, c);
      CommaInPlace(s, from + |c|, rest);
      ColumnsReadBack(s, columns[1..], from + |c| + 1);
      SplitsFirst(s, columns, from);
    }
  }

  // ---- Column definitions as they are written -------------------------------------------------

  /** A character outside all parentheses, or a parenthesized group. */
  datatype Item = Plain(c: char) | Group(items: seq<Item>)

  function TextOf(items: seq<Item>): string {
    if items == [] then ""
    else
      (match items[0] case Plain(c) => [c] case Group(inner) => "(" + (TextOf(inner) + ")"))
      + TextOf(items[1..])
  }

  /** Parentheses stand for groups only, and commas only inside them. */
  predicate Written(items: seq<Item>, nested: bool) {
    forall i <- items ::
      match i
      case Plain(c) => c != '(' && c != ')' && (c != ',' || nested)
      case Group(inner) => Written(inner, true)
  }

  /** Balanced, and without a comma outside parentheses unless it is nested itself. */
  predicate Balanced(t: string, nested: bool) {
    && Depth(t, |t|) == 0
    && (forall i | 0 <= i <= |t| :: Depth(t, i) >= 0)
    && (nested || forall i | 0 <= i < |t| :: t[i] == ',' ==> Depth(t, i) > 0)
  }

  lemma DepthInFirst(a: string, b: string, i: nat)
    requires i <= |a|
    ensures Depth(a + b, i) == Depth(a, i)
  {
    ShiftedDepth(a + b, 0, a, i);
  }

  lemma DepthInSecond(a: string, b: string, i: nat)
    requires i <= |b|
    ensures Depth(a + b, |a| + i) == Depth(a, |a|) + Depth(b, i)
  {
    ShiftedDepth(a + b, |a|, b, i);
    DepthInFirst(a, b, |a|);
  }

  lemma BalancedConcat(a: string, b: string, nested: bool)
    requires Balanced(a, nested) && Balanced(b, nested)
    ensures Balanced(a + b, nested)
  {
    forall i | 0 <= i <= |a + b|
      ensures Depth(a + b, i) >= 0
      ensures i < |a + b| && (a + b)[i] == ',' && !nested ==> Depth(a + b, i) > 0
    {
      if i < |a| {
        DepthInFirst(a, b, i);
      } else {
        DepthInSecond(a, b, i - |a|);
      }
    }
    DepthInSecond(a, b, |b|);
  }

  lemma BalancedGroup(t: string, nested: bool)
    requires Balanced(t, true)
    ensures Balanced("(" + (t + ")"), nested)
  {
    var g := "(" + (t + ")");
    assert Depth("(", 0) == 0 && Depth("(", 1) == 1;
    assert Depth(")", 0) == 0 && Depth(")", 1) == -1;
    forall i | 0 <= i <= |t| ensures Depth(g, i + 1) == 1 + Depth(t, i) {
      DepthInSecond("(", t + ")", i);
      DepthInFirst(t, ")", i);
    }
    DepthInSecond("(", t + ")", |t| + 1);
    DepthInSecond(t, ")", 1);
    assert forall i | 0 < i < |g| :: Depth(g, i) == 1 + Depth(t, i - 1);
  }

  lemma {:induction false} WrittenIsBalanced(items: seq<Item>, nested: bool)
    requires Written(items, nested)
    ensures Balanced(TextOf(items), nested)
  {
    if items != [] {
      assert items[0] in items && forall i <- items[1..] :: i in items;
      WrittenIsBalanced(items[1..], nested);
      match items[0]
      case Plain(c) =>
        assert Depth([c], 0) == 0 && Depth([c], 1) == 0;
        BalancedConcat([c], TextOf(items[1..]), nested);
      case Group(inner) =>
        WrittenIsBalanced(inner, true);
        BalancedGroup(TextOf(inner), nested);
        BalancedConcat("(" + (TextOf(inner) + ")"), TextOf(items[1..]), nested);
    }
  }

  function TextsOf(columns: seq<seq<Item>>): (texts: seq<string>)
    ensures |texts| == |columns| && forall i | 0 <= i < |texts| :: texts[i] == TextOf(columns[i])
  {
    seq(|columns|, i requires 0 <= i < |columns| => TextOf(columns[i]))
  }

  /** Composite types stay whole: of the texts of such definitions, joined by commas, they are the only splitting. */
  lemma TypesStayWhole(columns: seq<seq<Item>>, parts: seq<string>)
    requires columns != [] && forall c <- columns :: Written(c, false)
    ensures var s := Join(TextsOf(columns)); Splits(s, parts, 0, |s|) <==> parts == TextsOf(columns)
  {
    var texts := TextsOf(columns);
    var s := Join(texts);
    forall t <- texts ensures IsColumn(t) {
      var i :| 0 <= i < |texts| && texts[i] == t;
      assert columns[i] in columns;
      WrittenIsBalanced(columns[i], false);
    }
    ColumnsReadBack(s, texts, 0);
    if Splits(s, parts, 0, |s|) {
      SplitIsUnique(s, parts, texts, 0);
    }
  }
}
