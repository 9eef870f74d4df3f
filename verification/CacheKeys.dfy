/** The Redis keys of the analytics cache. All segments but the literals come from callers. */
module CacheKeys {
  import opened Texts
  import opened Segments

  /** `q` */
  const QUERY: Text := [113]
  /** `lock` */
  const LOCK: Text := [108, 111, 99, 107]

  /** What a value key is built from: a metric read, or an ask identified by its query hash. */
  datatype Name =
    | Metric(brand: Text, metric: Text, params: Text, version: Text)
    | Query(brand: Text, hash: Text)

  function SegmentsOf(n: Name): seq<Text> {
    match n
    case Metric(brand, metric, params, version) => [brand, metric, params, version]
    case Query(brand, hash) => [brand, QUERY, hash]
  }

  predicate Plain(n: Name) {
    forall s <- SegmentsOf(n) :: ColonFree(s)
  }

  function KeyOf(n: Name): Text {
    Join(COLON, SegmentsOf(n))
  }

  function LockKey(key: Text): Text {
    key + [COLON] + LOCK
  }

  /** The keys as they are spelled: the brand leads, an ask has the segment `q`, a lock the suffix `:lock`. */
  lemma KeysAreSpelled(n: Name, key: Text)
    ensures LockKey(key) == key + Literal(":lock")
    ensures n.Query? ==> KeyOf(n) == n.brand + Literal(":q:") + n.hash
    ensures var sep := Literal(":");
            n.Metric? ==> KeyOf(n) == n.brand + sep + (n.metric + sep + (n.params + sep + n.version))
  {
    assert Literal(":lock") == [COLON] + LOCK && Literal(":") == [COLON] && Literal(":q:") == [COLON] + QUERY + [COLON];
    if n.Query? {
      JoinedThree(n.brand, QUERY, n.hash);
      assert n.brand + [COLON] + (QUERY + [COLON] + n.hash) == n.brand + ([COLON] + QUERY + [COLON]) + n.hash;
    } else {
      JoinedThree(n.metric, n.params, n.version);
      JoinedCons(n.brand, [n.metric, n.params, n.version]);
      assert SegmentsOf(n) == [n.brand] + [n.metric, n.params, n.version];
    }
  }

  /** Different names have different keys, so metric reads and asks never share an entry. */
  lemma KeysAreInjective(a: Name, b: Name)
    requires Plain(a) && Plain(b)
    ensures KeyOf(a) == KeyOf(b) <==> a == b
  {
    JoinedInjective(SegmentsOf(a), SegmentsOf(b));
    if KeyOf(a) == KeyOf(b) {
      assert |SegmentsOf(a)| == |SegmentsOf(b)|;
      SameSegmentsSameName(a, b);
    }
  }

  lemma SameSegmentsSameName(a: Name, b: Name)
    requires SegmentsOf(a) == SegmentsOf(b)
    ensures a == b
  {
  }

  /**
    A value key is the lock key of a value key in one case only: the metric key with metric `q` and
    version `lock` is the lock key of the ask with the same brand and hash.
   */
  lemma ValueKeyIsLockKey(a: Name, b: Name)
    requires Plain(a) && Plain(b)
    ensures KeyOf(a) == LockKey(KeyOf(b)) <==> b.Query? && a == Metric(b.brand, QUERY, b.hash, LOCK)
  {
    JoinedSnoc(SegmentsOf(b), LOCK);
    JoinedInjective(SegmentsOf(a), SegmentsOf(b) + [LOCK]);
    var s, t := SegmentsOf(a), SegmentsOf(b) + [LOCK];
    if s == t {
      assert s[0] == t[0] && s[1] == t[1] && s[2] == t[2] && s[3] == t[3];
    }
  }

  /** No value key is a lock key once the version `lock` is not used for a metric named `q`. */
  lemma KeysAreSeparate(names: iset<Name>)
    requires forall n <- names :: Plain(n) && !(n.Metric? && n.metric == QUERY && n.version == LOCK)
    ensures forall a, b | a in names && b in names :: KeyOf(a) != LockKey(KeyOf(b))
  {
    forall a, b | a in names && b in names ensures KeyOf(a) != LockKey(KeyOf(b)) {
      ValueKeyIsLockKey(a, b);
    }
  }

  /** The scan `brand:*` finds exactly the value and lock keys of that brand. */
  lemma BrandScan(brand: Text, n: Name)
    requires ColonFree(brand) && Plain(n)
    ensures brand + [COLON] <= KeyOf(n) <==> n.brand == brand
    ensures brand + [COLON] <= LockKey(KeyOf(n)) <==> n.brand == brand
  {
    JoinedSnoc(SegmentsOf(n), LOCK);
    PrefixIsFirstSegment(brand, SegmentsOf(n));
    PrefixIsFirstSegment(brand, SegmentsOf(n) + [LOCK]);
  }

  lemma PrefixIsFirstSegment(brand: Text, segs: seq<Text>)
    requires ColonFree(brand) && |segs| > 1 && ColonFree(segs[0])
    ensures brand + [COLON] <= Join(COLON, segs) <==> segs[0] == brand
  {
    var t := Join(COLON, segs);
    assert t == segs[0] + [COLON] + Join(COLON, segs[1..]);
    if brand + [COLON] <= t {
      FirstColon(brand, t[|brand| + 1..], segs[0], Join(COLON, segs[1..]));
    }
  }
}
