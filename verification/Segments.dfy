/** Texts assembled from segments with ':' between them: cache keys and event-id seeds. */
module Segments {
  import opened Texts

  const COLON: CodeUnit := 58

  predicate ColonFree(s: Text) {
    COLON !in s
  }

  lemma JoinedCons(s: Text, segs: seq<Text>)
    requires segs != []
    ensures Join(COLON, [s] + segs) == s + [COLON] + Join(COLON, segs)
  {
  }

  lemma JoinedThree(a: Text, b: Text, c: Text)
    ensures Join(COLON, [a, b, c]) == a + [COLON] + (b + [COLON] + c)
  {
    assert [a, b, c] == [a] + ([b] + [c]);
    JoinedCons(b, [c]);
    JoinedCons(a, [b] + [c]);
  }

  /** The first separator ends the first segment. */
  lemma FirstSeparator(sep: CodeUnit, a: Text, x: Text, b: Text, y: Text)
    requires sep !in a && sep !in b
    requires a + [sep] + x == b + [sep] + y
    ensures a == b && x == y
  {
    var s, t := a + [sep] + x, b + [sep] + y;
    assert s[|a|] == sep && t[|b|] == sep;
    assert forall i | 0 <= i < |a| :: s[i] == a[i] && a[i] in a;
    assert forall i | 0 <= i < |b| :: t[i] == b[i] && b[i] in b;
    assert a == s[..|a|] && b == t[..|b|];
    assert x == s[|a| + 1..] && y == t[|b| + 1..];
  }

  lemma FirstColon(a: Text, x: Text, b: Text, y: Text)
    requires ColonFree(a) && ColonFree(b)
    requires a + [COLON] + x == b + [COLON] + y
    ensures a == b && x == y
  {
    FirstSeparator(COLON, a, x, b, y);
  }

  lemma NoColon(a: Text, b: Text, y: Text)
    requires ColonFree(a)
    ensures a != b + [COLON] + y
  {
  }

  /** Colon-free segments can be read back from the joined text. */
  lemma {:induction false} JoinedInjective(a: seq<Text>, b: seq<Text>)
    requires a != [] && b != []
    requires (forall s <- a :: ColonFree(s)) && (forall s <- b :: ColonFree(s))
    ensures Join(COLON, a) == Join(COLON, b) <==> a == b
  {
    if Join(COLON, a) == Join(COLON, b) {
      if |a| == 1 && |b| > 1 {
        NoColon(a[0], b[0], Join(COLON, b[1..]));
      } else if |a| > 1 && |b| == 1 {
        NoColon(b[0], a[0], Join(COLON, a[1..]));
      } else if |a| > 1 && |b| > 1 {
        FirstColon(a[0], Join(COLON, a[1..]), b[0], Join(COLON, b[1..]));
        JoinedInjective(a[1..], b[1..]);
        assert a == [a[0]] + a[1..] && b == [b[0]] + b[1..];
      }
    }
  }

  /** With equally many segments the last one may hold colons. */
  lemma {:induction false} JoinedInjectiveToLast(a: seq<Text>, b: seq<Text>)
    requires |a| == |b| > 0
    requires forall i | 0 <= i < |a| - 1 :: ColonFree(a[i]) && ColonFree(b[i])
    ensures Join(COLON, a) == Join(COLON, b) <==> a == b
  {
    if Join(COLON, a) == Join(COLON, b) && |a| > 1 {
      FirstColon(a[0], Join(COLON, a[1..]), b[0], Join(COLON, b[1..]));
      JoinedInjectiveToLast(a[1..], b[1..]);
      assert a == [a[0]] + a[1..] && b == [b[0]] + b[1..];
    }
  }

  /** Appending `:s` to a joined text adds one segment. */
  lemma {:induction false} JoinedSnoc(a: seq<Text>, s: Text)
    requires a != []
    ensures Join(COLON, a + [s]) == Join(COLON, a) + [COLON] + s
  {
    if |a| == 1 {
      assert (a + [s])[1..] == [s];
    } else {
      JoinedSnoc(a[1..], s);
      assert (a + [s])[1..] == a[1..] + [s];
      assert a[0] + [COLON] + (Join(COLON, a[1..]) + [COLON] + s) == Join(COLON, a) + [COLON] + s;
    }
  }
}
