/**
  The order and the text type shared by the serializers and the merge.

  A JavaScript string is a sequence of UTF-16 code units, and `Array.prototype.sort()` without a
  comparator orders strings by those units. `ORDER BY a DESC, b DESC` compares rows by the same
  lexicographic rule on the listed columns. Both use `Below`.
 */
module Lexicographic {

  /** Strictly before, comparing element by element; a proper prefix comes first. */
  predicate Below(a: seq<int>, b: seq<int>) {
    b != [] && (a == [] || a[0] < b[0] || (a[0] == b[0] && Below(a[1..], b[1..])))
  }

  predicate AtMost(a: seq<int>, b: seq<int>) {
    a == b || Below(a, b)
  }

  /** Below is the order of dictionaries: at the first difference the smaller element, or the end, comes first. */
  lemma {:induction false} BelowMeans(a: seq<int>, b: seq<int>)
    ensures Below(a, b) <==> exists n :: FirstDifference(a, b, n) && n < |b| && (n == |a| || a[n] < b[n])
  {
    if a != [] && b != [] && a[0] == b[0] {
      BelowMeans(a[1..], b[1..]);
      if n :| FirstDifference(a[1..], b[1..], n) && n < |b[1..]| && (n == |a[1..]| || a[1..][n] < b[1..][n]) {
        assert FirstDifference(a, b, n + 1);
      }
      if n :| FirstDifference(a, b, n) && n < |b| && (n == |a| || a[n] < b[n]) {
        assert FirstDifference(a[1..], b[1..], n - 1);
      }
    } else if b != [] {
      assert FirstDifference(a, b, 0);
    }
  }

  /** The texts agree on their first `n` elements and no further. */
  predicate FirstDifference(a: seq<int>, b: seq<int>, n: int) {
    && 0 <= n <= |a| && n <= |b|
    && (forall i | 0 <= i < n :: a[i] == b[i])
    && (n < |a| && n < |b| ==> a[n] != b[n])
  }

  lemma BelowIrreflexive(a: seq<int>)
    ensures !Below(a, a)
  {
  }

  lemma BelowTransitive(a: seq<int>, b: seq<int>, c: seq<int>)
    requires Below(a, b) && Below(b, c)
    ensures Below(a, c)
  {
  }

  lemma BelowTotal(a: seq<int>, b: seq<int>)
    ensures a == b || Below(a, b) || Below(b, a)
  {
  }

  lemma BelowAsymmetric(a: seq<int>, b: seq<int>)
    requires Below(a, b)
    ensures !Below(b, a) && a != b
  {
  }

  lemma AtMostTransitive(a: seq<int>, b: seq<int>, c: seq<int>)
    requires AtMost(a, b) && AtMost(b, c)
    ensures AtMost(a, c)
  {
    if a != b && b != c {
      BelowTransitive(a, b, c);
    }
  }
}

module Options {
  datatype Option<+T> = None | Some(value: T)
}

/** Text as UTF-16 code units, and lists of keyed members sorted by key. */
module Texts {
  import opened Lexicographic

  type CodeUnit = u: int | 0 <= u < 0x1_0000
  type Text = seq<CodeUnit>

  /** One own property of an object, in insertion order within a list of them. */
  datatype Entry<+V> = Entry(key: Text, value: V)

  predicate IsHighSurrogate(u: int) { 0xD800 <= u < 0xDC00 }

  predicate IsLowSurrogate(u: int) { 0xDC00 <= u < 0xE000 }

  predicate IsSurrogate(u: int) { 0xD800 <= u < 0xE000 }

  /** Every surrogate belongs to a pair: the texts on which UTF-8 encoding loses nothing. */
  predicate WellFormedUtf16(t: Text) {
    t == []
    || (!IsSurrogate(t[0]) && WellFormedUtf16(t[1..]))
    || (|t| >= 2 && IsHighSurrogate(t[0]) && IsLowSurrogate(t[1]) && WellFormedUtf16(t[2..]))
  }

  lemma Associative(a: Text, b: Text, c: Text)
    ensures (a + b) + c == a + (b + c)
  {
  }

  lemma Nested(a: Text, b: Text, c: Text, d: Text)
    ensures (a + b + c) + d == a + (b + (c + d))
  {
  }

  /** A literal as code units; '?' stands for what takes two of them. */
  function Literal(s: string): (t: Text)
    ensures |t| == |s|
  {
    seq(|s|, i requires 0 <= i < |s| => if s[i] as int < 0x1_0000 then s[i] as int else 63)
  }

  /** `parts.join(sep)` for a one-unit separator. */
  function Join(sep: CodeUnit, parts: seq<Text>): Text {
    if parts == [] then []
    else if |parts| == 1 then parts[0]
    else parts[0] + [sep] + Join(sep, parts[1..])
  }

  lemma WellFormedConcat(a: Text, b: Text)
    requires WellFormedUtf16(a) && WellFormedUtf16(b)
    ensures WellFormedUtf16(a + b)
  {
    if a == [] {
      assert a + b == b;
    } else if !IsSurrogate(a[0]) {
      assert (a + b)[1..] == a[1..] + b;
      WellFormedConcat(a[1..], b);
    } else {
      assert (a + b)[2..] == a[2..] + b;
      WellFormedConcat(a[2..], b);
    }
  }

  lemma PlainTextIsWellFormed(t: Text)
    requires forall u <- t :: !IsSurrogate(u)
    ensures WellFormedUtf16(t)
  {
  }

  // ---- Sorting by key -----------------------------------------------------------------------

  /** Own property names are unique in a JavaScript object. */
  predicate DistinctKeys<V>(s: seq<Entry<V>>) {
    forall i, j | 0 <= i < j < |s| :: s[i].key != s[j].key
  }

  ghost predicate Increasing<V>(s: seq<Entry<V>>) {
    forall i, j | 0 <= i < j < |s| :: Below(s[i].key, s[j].key)
  }

  ghost predicate SameMembers<V>(a: seq<Entry<V>>, b: seq<Entry<V>>) {
    (forall e <- a :: e in b) && (forall e <- b :: e in a)
  }

  function Insert<V>(e: Entry<V>, s: seq<Entry<V>>): seq<Entry<V>> {
    if s == [] || !Below(s[0].key, e.key) then [e] + s
    else [s[0]] + Insert(e, s[1..])
  }

  /** `Object.keys(o).sort()` applied to the members of `o`. */
  function Sort<V>(s: seq<Entry<V>>): seq<Entry<V>> {
    if s == [] then [] else Insert(s[0], Sort(s[1..]))
  }

  lemma InsertMembers<V>(e: Entry<V>, s: seq<Entry<V>>)
    ensures |Insert(e, s)| == |s| + 1
    ensures SameMembers(Insert(e, s), [e] + s)
  {
  }

  lemma InsertIncreasing<V>(e: Entry<V>, s: seq<Entry<V>>)
    requires Increasing(s)
    requires forall x <- s :: x.key != e.key
    ensures Increasing(Insert(e, s))
  {
    var r := Insert(e, s);
    if s == [] {
    } else if !Below(s[0].key, e.key) {
      BelowTotal(s[0].key, e.key);
      assert s[0] in s;
      forall j | 0 < j < |s| ensures Below(e.key, s[j].key) {
        BelowTransitive(e.key, s[0].key, s[j].key);
      }
    } else {
      var tail := Insert(e, s[1..]);
      assert r == [s[0]] + tail;
      InsertIncreasing(e, s[1..]);
      InsertMembers(e, s[1..]);
      forall x <- tail ensures Below(s[0].key, x.key) {
        assert x in [e] + s[1..];
      }
      forall i, j | 0 <= i < j < |r| ensures Below(r[i].key, r[j].key) {
        assert r[j] == tail[j - 1] && r[j] in tail;
        assert i == 0 || r[i] == tail[i - 1];
      }
    }
  }

  lemma SortMembers<V>(s: seq<Entry<V>>)
    ensures |Sort(s)| == |s|
    ensures SameMembers(Sort(s), s)
  {
    if s != [] {
      var tail := Sort(s[1..]);
      var r := Insert(s[0], tail);
      SortMembers(s[1..]);
      InsertMembers(s[0], tail);
      assert s == [s[0]] + s[1..];
      assert Sort(s) == r;
    }
  }

  lemma SortIncreasing<V>(s: seq<Entry<V>>)
    requires DistinctKeys(s)
    ensures Increasing(Sort(s))
  {
    if s != [] {
      SortIncreasing(s[1..]);
      SortMembers(s[1..]);
      forall x <- Sort(s[1..]) ensures x.key != s[0].key {
        assert x in s[1..];
        var j :| 0 <= j < |s[1..]| && s[1..][j] == x;
        assert s[j + 1] == x;
      }
      InsertIncreasing(s[0], Sort(s[1..]));
    }
  }

  /** An increasing list is determined by its set of members. */
  lemma {:induction false} IncreasingUnique<V>(a: seq<Entry<V>>, b: seq<Entry<V>>)
    requires Increasing(a) && Increasing(b) && SameMembers(a, b)
    ensures a == b
  {
    assert (a == []) == (b == []) by {
      if a != [] { assert a[0] in b; }
      if b != [] { assert b[0] in a; }
    }
    if a != [] {
      SameHead(a, b);
      forall e <- a[1..] ensures e in b[1..] {
        TailMember(a, b, e);
      }
      forall e <- b[1..] ensures e in a[1..] {
        TailMember(b, a, e);
      }
      IncreasingUnique(a[1..], b[1..]);
      assert a == [a[0]] + a[1..] && b == [b[0]] + b[1..];
    }
  }

  lemma SameHead<V>(a: seq<Entry<V>>, b: seq<Entry<V>>)
    requires Increasing(a) && Increasing(b) && SameMembers(a, b) && a != [] && b != []
    ensures a[0] == b[0]
  {
    assert a[0] in b && b[0] in a;
    var j :| 0 <= j < |b| && b[j] == a[0];
    var i :| 0 <= i < |a| && a[i] == b[0];
    assert j == 0 || Below(b[0].key, b[j].key);
    assert i == 0 || Below(a[0].key, a[i].key);
    if Below(a[0].key, b[0].key) {
      BelowAsymmetric(a[0].key, b[0].key);
    }
  }

  lemma TailMember<V>(a: seq<Entry<V>>, b: seq<Entry<V>>, e: Entry<V>)
    requires a != [] && b != [] && a[0] == b[0]
    requires Increasing(a) && e in a[1..] && e in b
    ensures e in b[1..]
  {
    var i :| 0 <= i < |a[1..]| && a[1..][i] == e;
    assert a[i + 1] == e && Below(a[0].key, a[i + 1].key);
    BelowIrreflexive(e.key);
    assert b == [b[0]] + b[1..];
  }

  /** Sorting forgets insertion order: only the set of members matters. */
  lemma SortForgetsOrder<V>(a: seq<Entry<V>>, b: seq<Entry<V>>)
    requires DistinctKeys(a) && DistinctKeys(b) && SameMembers(a, b)
    ensures Sort(a) == Sort(b)
  {
    SortMembers(a);
    SortMembers(b);
    SortIncreasing(a);
    SortIncreasing(b);
    IncreasingUnique(Sort(a), Sort(b));
  }

  /** The first member with a key, as property lookup finds it. */
  ghost predicate HasKey<V>(s: seq<Entry<V>>, k: Text) {
    exists e <- s :: e.key == k
  }

  lemma DistinctTail<V>(s: seq<Entry<V>>)
    requires s != [] && DistinctKeys(s)
    ensures DistinctKeys(s[1..]) && !HasKey(s[1..], s[0].key)
  {
  }

  /** Property lookup. */
  ghost function Get<V>(s: seq<Entry<V>>, k: Text): (v: V)
    requires HasKey(s, k)
    ensures Entry(k, v) in s
  {
    var e :| e in s && e.key == k;
    e.value
  }

  lemma GetIsUnique<V>(s: seq<Entry<V>>, e: Entry<V>)
    requires DistinctKeys(s) && e in s
    ensures HasKey(s, e.key) && Get(s, e.key) == e.value
  {
  }

  lemma KeyDeterminesMember<V>(s: seq<Entry<V>>, d: Entry<V>, e: Entry<V>)
    requires DistinctKeys(s) && d in s && e in s && d.key == e.key
    ensures d == e
  {
  }
}
