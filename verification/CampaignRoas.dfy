/** The campaign-grain outer join of attributed revenue and ad spend. Amounts are already parsed. */
module CampaignRoas {
  import opened Lexicographic
  import opened Options
  import opened Texts
  import opened Decimals
  import opened ExactRatio

  /** U+241F between the campaign id and the currency of a map key. */
  const SEP: CodeUnit := 0x241F

  /** A row of either side: attributed revenue, or the amount of a spend row. */
  datatype Amount = Amount(campaign: Text, currency: Text, minor: int)

  datatype Spend = Spend(amount: Amount, name: Option<Text>)

  datatype RoasRow = RoasRow(
    campaign: Text, name: Option<Text>, currency: Text, attributed: int, spend: int, ratio: Option<Text>)

  /** An amount under its map key. */
  datatype Keyed = Keyed(key: Text, minor: int)

  function KeyOf(campaign: Text, currency: Text): Text {
    campaign + [SEP] + currency
  }

  /** Where the first separator is; the length when there is none. */
  function SepAt(t: Text): (i: nat)
    ensures i <= |t|
    ensures (forall j | 0 <= j < i :: t[j] != SEP) && (i < |t| ==> t[i] == SEP)
  {
    if t == [] || t[0] == SEP then 0 else 1 + SepAt(t[1..])
  }

  /** `const [campaignId, currencyCode] = key.split(SEP)`: the first two parts. */
  function SplitKey(key: Text): (Text, Text) {
    var rest := if SepAt(key) < |key| then key[SepAt(key) + 1..] else [];
    (key[..SepAt(key)], rest[..SepAt(rest)])
  }

  lemma FirstPart(a: Text, rest: Text)
    requires SEP !in a
    ensures var t := a + [SEP] + rest; SepAt(t) == |a| && t[..|a|] == a && t[|a| + 1..] == rest
  {
    var t := a + [SEP] + rest;
    assert t[|a|] == SEP && forall j | 0 <= j < |a| :: t[j] == a[j] && a[j] in a;
  }

  lemma SplitKeyOf(campaign: Text, currency: Text)
    requires SEP !in campaign && SEP !in currency
    ensures SplitKey(KeyOf(campaign, currency)) == (campaign, currency)
  {
    FirstPart(campaign, currency);
    assert forall j | 0 <= j < |currency| :: currency[j] in currency;
    assert SepAt(currency) == |currency| && currency[..|currency|] == currency;
  }

  lemma PartsArePlain(key: Text)
    ensures SEP !in SplitKey(key).0 && SEP !in SplitKey(key).1
  {
  }

  /** A key splits back into its campaign id and currency exactly when neither holds the separator. */
  lemma SplitKeyExact(campaign: Text, currency: Text)
    ensures SplitKey(KeyOf(campaign, currency)) == (campaign, currency) <==> SEP !in campaign && SEP !in currency
  {
    PartsArePlain(KeyOf(campaign, currency));
    if SEP !in campaign && SEP !in currency {
      SplitKeyOf(campaign, currency);
    }
  }

  // ---- Sums ---------------------------------------------------------------------------------

  /** The amounts under one key. */
  function SumAt(rows: seq<Keyed>, key: Text): int {
    if rows == [] then 0
    else SumAt(rows[..|rows| - 1], key) + if rows[|rows| - 1].key == key then rows[|rows| - 1].minor else 0
  }

  function KeysOf(rows: seq<Keyed>): set<Text> {
    set r | r in rows :: r.key
  }

  function KeyedOf(rows: seq<Amount>): (r: seq<Keyed>)
    ensures |r| == |rows|
    ensures forall i | 0 <= i < |r| :: r[i] == Keyed(KeyOf(rows[i].campaign, rows[i].currency), rows[i].minor)
  {
    seq(|rows|, i requires 0 <= i < |rows| => Keyed(KeyOf(rows[i].campaign, rows[i].currency), rows[i].minor))
  }

  function AmountsOf(spend: seq<Spend>): (r: seq<Amount>)
    ensures |r| == |spend| && forall i | 0 <= i < |r| :: r[i] == spend[i].amount
  {
    seq(|spend|, i requires 0 <= i < |spend| => spend[i].amount)
  }

  /** The name on the last spend row of a key. */
  function NameAt(rows: seq<Spend>, key: Text): Option<Text> {
    if rows == [] then None
    else if KeyOf(rows[|rows| - 1].amount.campaign, rows[|rows| - 1].amount.currency) == key then rows[|rows| - 1].name
    else NameAt(rows[..|rows| - 1], key)
  }

  function AtOrZero(sums: map<Text, int>, key: Text): int {
    if key in sums then sums[key] else 0
  }

  lemma SumSnoc(rows: seq<Keyed>, x: Keyed, key: Text)
    ensures SumAt(rows + [x], key) == SumAt(rows, key) + if x.key == key then x.minor else 0
  {
  }

  /** One of the two map-filling loops. */
  method SumByKey(rows: seq<Keyed>) returns (sums: map<Text, int>)
    ensures sums.Keys == KeysOf(rows)
    ensures forall k :: AtOrZero(sums, k) == SumAt(rows, k)
  {
    sums := map[];
    for i := 0 to |rows|
      invariant sums.Keys == KeysOf(rows[..i])
      invariant forall k :: AtOrZero(sums, k) == SumAt(rows[..i], k)
    {
      ghost var before := sums;
      assert rows[..i + 1] == rows[..i] + [rows[i]];
      sums := sums[rows[i].key := AtOrZero(sums, rows[i].key) + rows[i].minor];
      forall k ensures AtOrZero(sums, k) == SumAt(rows[..i + 1], k) {
        SumSnoc(rows[..i], rows[i], k);
        assert AtOrZero(before, k) == SumAt(rows[..i], k);
      }
    }
    assert rows[..|rows|] == rows;
  }

  function NameOrNone(names: map<Text, Option<Text>>, key: Text): Option<Text> {
    if key in names then names[key] else None
  }

  method NamesByKey(rows: seq<Spend>) returns (names: map<Text, Option<Text>>)
    ensures forall k :: NameOrNone(names, k) == NameAt(rows, k)
  {
    names := map[];
    for i := 0 to |rows|
      invariant forall k :: NameOrNone(names, k) == NameAt(rows[..i], k)
    {
      assert rows[..i + 1] == rows[..i] + [rows[i]] && rows[..i + 1][..i] == rows[..i];
      names := names[KeyOf(rows[i].amount.campaign, rows[i].amount.currency) := rows[i].name];
    }
    assert rows[..|rows|] == rows;
  }

  // ---- Order --------------------------------------------------------------------------------

  /** The comparator: campaign id first, then currency. */
  predicate Before(a: RoasRow, b: RoasRow) {
    Below(a.campaign, b.campaign) || (a.campaign == b.campaign && Below(a.currency, b.currency))
  }

  ghost predicate InOrder(rows: seq<RoasRow>) {
    forall i, j | 0 <= i < j < |rows| :: Before(rows[i], rows[j])
  }

  lemma BeforeTransitive(a: RoasRow, b: RoasRow, c: RoasRow)
    requires Before(a, b) && Before(b, c)
    ensures Before(a, c)
  {
    if Below(a.campaign, b.campaign) && Below(b.campaign, c.campaign) {
      BelowTransitive(a.campaign, b.campaign, c.campaign);
    } else if a.campaign == b.campaign == c.campaign {
      BelowTransitive(a.currency, b.currency, c.currency);
    }
  }

  lemma BeforeTotal(a: RoasRow, b: RoasRow)
    requires (a.campaign, a.currency) != (b.campaign, b.currency)
    ensures Before(a, b) || Before(b, a)
  {
    BelowTotal(a.campaign, b.campaign);
    BelowTotal(a.currency, b.currency);
  }

  /** As the comparator leaves a list: rows that it does not tell apart may stand in any order. */
  ghost predicate Sorted(rows: seq<RoasRow>) {
    forall i, j | 0 <= i < j < |rows| :: !Before(rows[j], rows[i])
  }

  predicate SamePair(a: RoasRow, b: RoasRow) {
    a.campaign == b.campaign && a.currency == b.currency
  }

  ghost predicate DistinctPairs(rows: seq<RoasRow>) {
    forall i, j | 0 <= i < j < |rows| :: !SamePair(rows[i], rows[j])
  }

  lemma BeforeAsymmetric(a: RoasRow, b: RoasRow)
    requires Before(a, b)
    ensures !Before(b, a) && a != b
  {
    BelowIrreflexive(a.campaign);
    BelowIrreflexive(a.currency);
    if Below(a.campaign, b.campaign) {
      BelowAsymmetric(a.campaign, b.campaign);
    } else {
      BelowAsymmetric(a.currency, b.currency);
    }
  }

  lemma NotBeforeTransitive(a: RoasRow, b: RoasRow, c: RoasRow)
    requires !Before(b, a) && !Before(c, b)
    ensures !Before(c, a)
  {
    if Before(c, a) && !SamePair(a, b) {
      BeforeTotal(a, b);
      BeforeTransitive(c, a, b);
    }
  }

  lemma SortedDistinct(rows: seq<RoasRow>)
    requires Sorted(rows) && DistinctPairs(rows)
    ensures InOrder(rows)
  {
    forall i, j | 0 <= i < j < |rows| ensures Before(rows[i], rows[j]) {
      assert !SamePair(rows[i], rows[j]);
      BeforeTotal(rows[i], rows[j]);
    }
  }

  lemma Inserted(rows: seq<RoasRow>, row: RoasRow, i: nat)
    requires Sorted(rows) && i <= |rows|
    requires forall j | 0 <= j < i :: !Before(row, rows[j])
    requires i < |rows| ==> Before(row, rows[i])
    ensures Sorted(rows[..i] + [row] + rows[i..])
  {
    var r := rows[..i] + [row] + rows[i..];
    forall j | i <= j < |rows| ensures !Before(rows[j], row) {
      BeforeAsymmetric(row, rows[i]);
      if j > i {
        NotBeforeTransitive(row, rows[i], rows[j]);
      }
    }
    forall a, b | 0 <= a < b < |r| ensures !Before(r[b], r[a]) {
      assert r[a] == (if a < i then rows[a] else if a == i then row else rows[a - 1]);
      assert r[b] == (if b < i then rows[b] else if b == i then row else rows[b - 1]);
    }
  }

  /** Move a row to its place in a sorted list. */
  method Place(row: RoasRow, rows: seq<RoasRow>) returns (r: seq<RoasRow>)
    requires Sorted(rows)
    ensures multiset(r) == multiset(rows) + multiset{row} && Sorted(r)
  {
    var i := 0;
    while i < |rows| && !Before(row, rows[i])
      invariant i <= |rows| && forall j | 0 <= j < i :: !Before(row, rows[j])
    {
      i := i + 1;
    }
    Inserted(rows, row, i);
    r := rows[..i] + [row] + rows[i..];
    assert rows == rows[..i] + rows[i..];
  }

  /** `out.sort(comparator)` */
  method SortRows(rows: seq<RoasRow>) returns (r: seq<RoasRow>)
    ensures multiset(r) == multiset(rows) && Sorted(r)
  {
    r := [];
    for i := 0 to |rows|
      invariant multiset(r) == multiset(rows[..i]) && Sorted(r)
    {
      assert rows[..i + 1] == rows[..i] + [rows[i]];
      r := Place(rows[i], r);
    }
    assert rows[..|rows|] == rows;
  }

  lemma CountOne(rows: seq<RoasRow>, p: nat)
    requires DistinctPairs(rows) && p < |rows|
    ensures multiset(rows)[rows[p]] == 1
  {
    var x := rows[p];
    assert rows == rows[..p] + ([x] + rows[p + 1..]);
    assert x !in rows[..p] && x !in rows[p + 1..] by {
      assert forall i | 0 <= i < p :: !SamePair(rows[i], rows[p]);
      assert forall i | p < i < |rows| :: !SamePair(rows[p], rows[i]);
    }
  }

  lemma CountTwo(rows: seq<RoasRow>, i: nat, j: nat)
    requires i < j < |rows| && rows[i] == rows[j]
    ensures multiset(rows)[rows[i]] >= 2
  {
    assert rows == rows[..j] + ([rows[j]] + rows[j + 1..]);
    assert rows[i] in rows[..j];
  }

  lemma SamePairOnce(rows: seq<RoasRow>, p: nat, q: nat)
    requires DistinctPairs(rows) && p < |rows| && q < |rows| && SamePair(rows[p], rows[q])
    ensures p == q
  {
  }

  lemma PermutedDistinct(a: seq<RoasRow>, b: seq<RoasRow>)
    requires multiset(a) == multiset(b) && DistinctPairs(a)
    ensures DistinctPairs(b)
  {
    forall i, j | 0 <= i < j < |b| ensures !SamePair(b[i], b[j]) {
      if SamePair(b[i], b[j]) {
        assert b[i] in multiset(b) && b[j] in multiset(b);
        var p :| 0 <= p < |a| && a[p] == b[i];
        var q :| 0 <= q < |a| && a[q] == b[j];
        SamePairOnce(a, p, q);
        CountOne(a, p);
        CountTwo(b, i, j);
      }
    }
  }

  // ---- The join -----------------------------------------------------------------------------

  ghost predicate SepFree(attributed: seq<Amount>, spend: seq<Spend>) {
    (forall a <- attributed :: SEP !in a.campaign && SEP !in a.currency)
    && (forall s <- AmountsOf(spend) :: SEP !in s.campaign && SEP !in s.currency)
  }

  /** The ratio is reported only where money was spent. */
  function JoinedRow(campaign: Text, name: Option<Text>, currency: Text, attributed: int, spend: int): RoasRow {
    RoasRow(campaign, name, currency, attributed, spend,
            if spend > 0 then Some(RatioText(attributed, spend, 4)) else None)
  }

  /** The row of a map key, from both sides. */
  function RowAt(attributed: seq<Amount>, spend: seq<Spend>, key: Text): RoasRow {
    JoinedRow(SplitKey(key).0, NameAt(spend, key), SplitKey(key).1,
              SumAt(KeyedOf(attributed), key), SumAt(KeyedOf(AmountsOf(spend)), key))
  }

  function RowsAt(attributed: seq<Amount>, spend: seq<Spend>, keys: seq<Text>): (r: seq<RoasRow>)
    ensures |r| == |keys| && forall i | 0 <= i < |r| :: r[i] == RowAt(attributed, spend, keys[i])
  {
    seq(|keys|, i requires 0 <= i < |keys| => RowAt(attributed, spend, keys[i]))
  }

  /** The keys of both maps, each once. */
  ghost predicate Lists(keys: seq<Text>, attributed: seq<Amount>, spend: seq<Spend>) {
    && (forall k :: k in keys <==> k in KeysOf(KeyedOf(attributed)) + KeysOf(KeyedOf(AmountsOf(spend))))
    && (forall i, j | 0 <= i < j < |keys| :: keys[i] != keys[j])
  }

  /** What the computation yields for any ids at all: one row for each key of either map, sorted. */
  ghost predicate IsKeyJoin(attributed: seq<Amount>, spend: seq<Spend>, out: seq<RoasRow>) {
    Sorted(out)
    && exists keys: seq<Text> ::
         Lists(keys, attributed, spend) && multiset(out) == multiset(RowsAt(attributed, spend, keys))
  }

  /** The row of a (campaign, currency), from both sides. */
  function RowOf(attributed: seq<Amount>, spend: seq<Spend>, campaign: Text, currency: Text): RoasRow {
    var key := KeyOf(campaign, currency);
    JoinedRow(campaign, NameAt(spend, key), currency,
              SumAt(KeyedOf(attributed), key), SumAt(KeyedOf(AmountsOf(spend)), key))
  }

  predicate Occurs(attributed: seq<Amount>, spend: seq<Spend>, campaign: Text, currency: Text) {
    (exists a <- attributed :: a.campaign == campaign && a.currency == currency)
    || (exists s <- AmountsOf(spend) :: s.campaign == campaign && s.currency == currency)
  }

  /** One row for each (campaign, currency) of either side, once, in order, with the sums of both sides. */
  ghost predicate IsOuterJoin(attributed: seq<Amount>, spend: seq<Spend>, out: seq<RoasRow>) {
    && InOrder(out)
    && (forall r <- out ::
          Occurs(attributed, spend, r.campaign, r.currency) && r == RowOf(attributed, spend, r.campaign, r.currency))
    && (forall a <- attributed :: exists r <- out :: r.campaign == a.campaign && r.currency == a.currency)
    && (forall s <- AmountsOf(spend) :: exists r <- out :: r.campaign == s.campaign && r.currency == s.currency)
  }

  /** A key of one side comes from a row whose ids it splits back into. */
  lemma KeyOfRow(rows: seq<Amount>, key: Text) returns (r: Amount)
    requires key in KeysOf(KeyedOf(rows)) && forall x <- rows :: SEP !in x.campaign && SEP !in x.currency
    ensures r in rows && key == KeyOf(r.campaign, r.currency) && SplitKey(key) == (r.campaign, r.currency)
  {
    var i :| 0 <= i < |rows| && KeyedOf(rows)[i].key == key;
    r := rows[i];
    SplitKeyOf(r.campaign, r.currency);
  }

  /** Every key of either map comes from a row whose ids it splits back into. */
  lemma KeyOrigin(attributed: seq<Amount>, spend: seq<Spend>, key: Text)
    requires SepFree(attributed, spend) && key in KeysOf(KeyedOf(attributed)) + KeysOf(KeyedOf(AmountsOf(spend)))
    ensures var (campaign, currency) := SplitKey(key);
            key == KeyOf(campaign, currency) && Occurs(attributed, spend, campaign, currency)
  {
    if key in KeysOf(KeyedOf(attributed)) {
      var r := KeyOfRow(attributed, key);
    } else {
      var r := KeyOfRow(AmountsOf(spend), key);
    }
  }

  /** The union of the two key sets as a list, in some order. */
  method ListOf(keys: set<Text>) returns (list: seq<Text>)
    ensures forall k :: k in list <==> k in keys
    ensures forall i, j | 0 <= i < j < |list| :: list[i] != list[j]
  {
    list := [];
    var left := keys;
    while left != {}
      invariant left <= keys && forall k :: k in list <==> k in keys && k !in left
      invariant forall i, j | 0 <= i < j < |list| :: list[i] != list[j]
      decreases |left|
    {
      var k :| k in left;
      list := list + [k];
      left := left - {k};
    }
  }

  /** The row of a key, from the three maps. */
  function RowFrom(key: Text, revenue: map<Text, int>, cost: map<Text, int>, names: map<Text, Option<Text>>): RoasRow {
    JoinedRow(SplitKey(key).0, NameOrNone(names, key), SplitKey(key).1, AtOrZero(revenue, key), AtOrZero(cost, key))
  }

  /** The unsorted rows, one for each key. */
  method JoinKeys(keys: seq<Text>, revenue: map<Text, int>, cost: map<Text, int>, names: map<Text, Option<Text>>)
    returns (out: seq<RoasRow>)
    ensures |out| == |keys| && forall i | 0 <= i < |keys| :: out[i] == RowFrom(keys[i], revenue, cost, names)
  {
    out := [];
    for i := 0 to |keys|
      invariant |out| == i && forall j | 0 <= j < i :: out[j] == RowFrom(keys[j], revenue, cost, names)
    {
      out := out + [RowFrom(keys[i], revenue, cost, names)];
    }
  }

  // ---- What a row says ----------------------------------------------------------------------

  /** A text of four places that lies between zero and `n / d`, less than one unit of the last place away from it. */
  predicate TruncatedRatio(t: Text, n: int, d: int) {
    var x := ReadDecimal(t);
    && x.Some? && x.value.places == 4
    && Abs(x.value.units) * d <= Abs(n) * 10000 < (Abs(x.value.units) + 1) * d
    && (x.value.units > 0 ==> n > 0) && (x.value.units < 0 ==> n < 0)
  }

  /** A ratio of revenue over spend where money was spent, and none elsewhere. */
  predicate HasRatio(r: RoasRow) {
    && (r.ratio.Some? <==> r.spend > 0)
    && (r.ratio.Some? ==> TruncatedRatio(r.ratio.value, r.attributed, r.spend))
  }

  lemma JoinedHasRatio(campaign: Text, name: Option<Text>, currency: Text, attributed: int, spend: int)
    ensures HasRatio(JoinedRow(campaign, name, currency, attributed, spend))
  {
    if spend > 0 {
      RatioReadBack(attributed, spend, 4);
      RatioIsTruncated(attributed, spend, 4);
      assert Pow10(4) == 10000;
    }
  }

  lemma RowsHaveRatios(attributed: seq<Amount>, spend: seq<Spend>, out: seq<RoasRow>)
    requires IsKeyJoin(attributed, spend, out)
    ensures forall r <- out :: HasRatio(r)
  {
    var keys: seq<Text> :|
      Lists(keys, attributed, spend) && multiset(out) == multiset(RowsAt(attributed, spend, keys));
    SameElements(out, RowsAt(attributed, spend, keys));
    forall r <- out ensures HasRatio(r) {
      var i :| 0 <= i < |keys| && RowsAt(attributed, spend, keys)[i] == r;
      JoinedHasRatio(r.campaign, r.name, r.currency, r.attributed, r.spend);
    }
  }

  /** Ascending by campaign id, and within a campaign by currency. */
  ghost predicate Ascending(rows: seq<RoasRow>) {
    forall i, j | 0 <= i < j < |rows| ::
      && AtMost(rows[i].campaign, rows[j].campaign)
      && (rows[i].campaign == rows[j].campaign ==> AtMost(rows[i].currency, rows[j].currency))
  }

  lemma SortedAscends(rows: seq<RoasRow>)
    requires Sorted(rows)
    ensures Ascending(rows)
  {
    forall i, j | 0 <= i < j < |rows|
      ensures AtMost(rows[i].campaign, rows[j].campaign)
      ensures rows[i].campaign == rows[j].campaign ==> AtMost(rows[i].currency, rows[j].currency)
    {
      assert !Before(rows[j], rows[i]);
      BelowTotal(rows[i].campaign, rows[j].campaign);
      BelowTotal(rows[i].currency, rows[j].currency);
    }
  }

  /** What one side's rows of a campaign and currency add up to. */
  function PairTotal(rows: seq<Amount>, campaign: Text, currency: Text): int {
    if rows == [] then 0
    else
      PairTotal(rows[1..], campaign, currency)
      + if rows[0].campaign == campaign && rows[0].currency == currency then rows[0].minor else 0
  }

  lemma {:induction false} PairTotalSnoc(rows: seq<Amount>, x: Amount, campaign: Text, currency: Text)
    ensures PairTotal(rows + [x], campaign, currency) ==
            PairTotal(rows, campaign, currency)
            + if x.campaign == campaign && x.currency == currency then x.minor else 0
  {
    if rows != [] {
      assert (rows + [x])[1..] == rows[1..] + [x];
      PairTotalSnoc(rows[1..], x, campaign, currency);
    } else {
      assert rows + [x] == [x];
    }
  }

  lemma SameKey(a: Text, c: Text, a': Text, c': Text)
    requires SEP !in a && SEP !in c && SEP !in a' && SEP !in c'
    ensures KeyOf(a, c) == KeyOf(a', c') <==> a == a' && c == c'
  {
    SplitKeyOf(a, c);
    SplitKeyOf(a', c');
  }

  lemma {:induction false} SumIsPairTotal(rows: seq<Amount>, campaign: Text, currency: Text)
    requires forall x <- rows :: SEP !in x.campaign && SEP !in x.currency
    requires SEP !in campaign && SEP !in currency
    ensures SumAt(KeyedOf(rows), KeyOf(campaign, currency)) == PairTotal(rows, campaign, currency)
  {
    if rows != [] {
      var init, x := rows[..|rows| - 1], rows[|rows| - 1];
      SumIsPairTotal(init, campaign, currency);
      SameKey(x.campaign, x.currency, campaign, currency);
      PairTotalSnoc(init, x, campaign, currency);
      assert rows == init + [x];
      KeyedSnoc(rows);
      SumSnoc(KeyedOf(init), Keyed(KeyOf(x.campaign, x.currency), x.minor), KeyOf(campaign, currency));
    }
  }

  /** The last spend row of a campaign and currency. */
  ghost predicate LastSpend(spend: seq<Spend>, campaign: Text, currency: Text, i: int) {
    && 0 <= i < |spend| && spend[i].amount.campaign == campaign && spend[i].amount.currency == currency
    && forall j | i < j < |spend| :: spend[j].amount.campaign != campaign || spend[j].amount.currency != currency
  }

  lemma {:induction false} NameIsLast(spend: seq<Spend>, campaign: Text, currency: Text)
    requires forall s <- spend :: SEP !in s.amount.campaign && SEP !in s.amount.currency
    requires SEP !in campaign && SEP !in currency
    ensures var name := NameAt(spend, KeyOf(campaign, currency));
            && (forall i | LastSpend(spend, campaign, currency, i) :: name == spend[i].name)
            && (name.Some? ==> exists i :: LastSpend(spend, campaign, currency, i))
  {
    if spend != [] {
      var n := |spend| - 1;
      NameIsLast(spend[..n], campaign, currency);
      SameKey(spend[n].amount.campaign, spend[n].amount.currency, campaign, currency);
      if spend[n].amount.campaign == campaign && spend[n].amount.currency == currency {
        assert LastSpend(spend, campaign, currency, n);
      } else {
        assert forall i :: LastSpend(spend[..n], campaign, currency, i) <==> LastSpend(spend, campaign, currency, i);
      }
    }
  }

  /** The columns of a row, from the input rows of its campaign and currency alone. */
  ghost predicate RowReports(attributed: seq<Amount>, spend: seq<Spend>, r: RoasRow) {
    && r.attributed == PairTotal(attributed, r.campaign, r.currency)
    && r.spend == PairTotal(AmountsOf(spend), r.campaign, r.currency)
    && (forall i | LastSpend(spend, r.campaign, r.currency, i) :: r.name == spend[i].name)
    && (r.name.Some? ==> exists i :: LastSpend(spend, r.campaign, r.currency, i))
  }

  lemma RowsReport(attributed: seq<Amount>, spend: seq<Spend>, out: seq<RoasRow>)
    requires SepFree(attributed, spend) && IsOuterJoin(attributed, spend, out)
    ensures forall r <- out :: RowReports(attributed, spend, r)
  {
    forall s <- spend ensures SEP !in s.amount.campaign && SEP !in s.amount.currency {
      var i :| 0 <= i < |spend| && spend[i] == s;
      assert AmountsOf(spend)[i] in AmountsOf(spend);
    }
    forall r <- out ensures RowReports(attributed, spend, r) {
      SumIsPairTotal(attributed, r.campaign, r.currency);
      SumIsPairTotal(AmountsOf(spend), r.campaign, r.currency);
      NameIsLast(spend, r.campaign, r.currency);
    }
  }

  /**
    Fill both maps, join over the union of their keys, sort the rows. The result is the outer join on
    (campaign, currency) if and only if no id and no currency holds the separator.
   */
  method ComputeCampaignRoas(attributed: seq<Amount>, spend: seq<Spend>) returns (out: seq<RoasRow>)
    ensures IsKeyJoin(attributed, spend, out)
    ensures IsOuterJoin(attributed, spend, out) <==> SepFree(attributed, spend)
    ensures Ascending(out) && forall r <- out :: HasRatio(r)
    ensures SepFree(attributed, spend) ==> forall r <- out :: RowReports(attributed, spend, r)
  {
    var revenue := SumByKey(KeyedOf(attributed));
    var cost := SumByKey(KeyedOf(AmountsOf(spend)));
    var names := NamesByKey(spend);
    var keys := ListOf(revenue.Keys + cost.Keys);
    var rows := JoinKeys(keys, revenue, cost, names);
    out := SortRows(rows);
    assert rows == RowsAt(attributed, spend, keys);
    assert Lists(keys, attributed, spend);
    KeyJoinExact(attributed, spend, out);
    SortedAscends(out);
    RowsHaveRatios(attributed, spend, out);
    if SepFree(attributed, spend) {
      RowsReport(attributed, spend, out);
    }
  }

  lemma SameElements(a: seq<RoasRow>, b: seq<RoasRow>)
    requires multiset(a) == multiset(b)
    ensures forall x :: x in a <==> x in b
  {
    forall x ensures x in a <==> x in b {
      assert x in a <==> x in multiset(a);
    }
  }

  lemma SepFreeIsJoined(attributed: seq<Amount>, spend: seq<Spend>, keys: seq<Text>, out: seq<RoasRow>)
    requires SepFree(attributed, spend) && Lists(keys, attributed, spend) && Sorted(out)
    requires multiset(out) == multiset(RowsAt(attributed, spend, keys))
    ensures IsOuterJoin(attributed, spend, out)
  {
    var rows := RowsAt(attributed, spend, keys);
    RowsOfKeys(attributed, spend, keys, rows);
    SameElements(out, rows);
    PermutedDistinct(rows, out);
    SortedDistinct(out);
  }

  lemma JoinedIsSepFree(attributed: seq<Amount>, spend: seq<Spend>, out: seq<RoasRow>)
    requires IsOuterJoin(attributed, spend, out) && forall r <- out :: SEP !in r.campaign && SEP !in r.currency
    ensures SepFree(attributed, spend)
  {
  }

  /** The rows are the outer join exactly when no id and no currency holds the separator. */
  lemma KeyJoinExact(attributed: seq<Amount>, spend: seq<Spend>, out: seq<RoasRow>)
    requires IsKeyJoin(attributed, spend, out)
    ensures IsOuterJoin(attributed, spend, out) <==> SepFree(attributed, spend)
  {
    var keys: seq<Text> :|
      Lists(keys, attributed, spend) && multiset(out) == multiset(RowsAt(attributed, spend, keys));
    if SepFree(attributed, spend) {
      SepFreeIsJoined(attributed, spend, keys, out);
    }
    if IsOuterJoin(attributed, spend, out) {
      SameElements(out, RowsAt(attributed, spend, keys));
      forall r <- out ensures SEP !in r.campaign && SEP !in r.currency {
        var i :| 0 <= i < |keys| && RowsAt(attributed, spend, keys)[i] == r;
        PartsArePlain(keys[i]);
      }
      JoinedIsSepFree(attributed, spend, out);
    }
  }

  /** A separator inside a campaign id files the row under another campaign and currency. */
  lemma SepInIdMisfiles(a: Text, b: Text, currency: Text)
    requires SEP !in a && SEP !in b
    ensures SplitKey(KeyOf(a + [SEP] + b, currency)) == (a, b)
  {
    var rest := b + [SEP] + currency;
    assert KeyOf(a + [SEP] + b, currency) == a + [SEP] + rest;
    FirstPart(a, rest);
    FirstPart(b, currency);
  }

  /** A separator inside a currency cuts the currency off there. */
  lemma SepInCurrencyMisfiles(campaign: Text, a: Text, b: Text)
    requires SEP !in campaign && SEP !in a
    ensures SplitKey(KeyOf(campaign, a + [SEP] + b)) == (campaign, a)
  {
    FirstPart(campaign, a + [SEP] + b);
    FirstPart(a, b);
  }

  lemma OneKey(x: Amount, keys: seq<Text>)
    requires Lists(keys, [x], [])
    ensures keys == [KeyOf(x.campaign, x.currency)]
  {
    var key := KeyOf(x.campaign, x.currency);
    assert |keys| > 1 ==> keys[0] != keys[1];
    assert KeyedOf([x]) == [Keyed(key, x.minor)] && KeyedOf(AmountsOf([])) == [];
    assert KeyedOf([x])[0] in KeyedOf([x]);
    assert key in keys;
    forall i | 0 <= i < |keys| ensures keys[i] == key {
      assert keys[i] in keys;
    }
  }

  lemma OneKeyRow(x: Amount)
    ensures var key := KeyOf(x.campaign, x.currency);
            RowAt([x], [], key) == RoasRow(SplitKey(key).0, None, SplitKey(key).1, x.minor, 0, None)
  {
    var key := KeyOf(x.campaign, x.currency);
    assert KeyedOf([x]) == [] + [Keyed(key, x.minor)];
    SumSnoc([], Keyed(key, x.minor), key);
  }

  lemma OneKeyJoin(x: Amount, out: seq<RoasRow>)
    requires IsKeyJoin([x], [], out)
    ensures var (campaign, currency) := SplitKey(KeyOf(x.campaign, x.currency));
            out == [RoasRow(campaign, None, currency, x.minor, 0, None)]
  {
    var keys: seq<Text> :| Lists(keys, [x], []) && multiset(out) == multiset(RowsAt([x], [], keys));
    OneKey(x, keys);
    OneKeyRow(x);
    var row := RowAt([x], [], keys[0]);
    assert RowsAt([x], [], keys) == [row] && multiset(out) == multiset{row};
    assert |out| == |multiset(out)| == 1 && out[0] in multiset(out);
  }

  lemma SepMisjoins(x: Amount, out: seq<RoasRow>)
    requires IsKeyJoin([x], [], out) && (SEP in x.campaign || SEP in x.currency)
    ensures !IsOuterJoin([x], [], out)
  {
    KeyJoinExact([x], [], out);
    assert x in [x];
  }

  /**
    The join of one amount whose campaign id, or whose currency, holds the separator: its only row stands
    under other ids, so the amount has no row of its own.
   */
  lemma SeparatedIdsMisjoin(a: Text, b: Text, other: Text, minor: int, out: seq<RoasRow>)
    requires SEP !in a && SEP !in b && SEP !in other
    ensures IsKeyJoin([Amount(a + [SEP] + b, other, minor)], [], out) ==>
              && out == [RoasRow(a, None, b, minor, 0, None)]
              && !IsOuterJoin([Amount(a + [SEP] + b, other, minor)], [], out)
    ensures IsKeyJoin([Amount(other, a + [SEP] + b, minor)], [], out) ==>
              && out == [RoasRow(other, None, a, minor, 0, None)]
              && !IsOuterJoin([Amount(other, a + [SEP] + b, minor)], [], out)
  {
    assert (a + [SEP] + b)[|a|] == SEP;
    if IsKeyJoin([Amount(a + [SEP] + b, other, minor)], [], out) {
      SepInIdMisfiles(a, b, other);
      OneKeyJoin(Amount(a + [SEP] + b, other, minor), out);
      SepMisjoins(Amount(a + [SEP] + b, other, minor), out);
    }
    if IsKeyJoin([Amount(other, a + [SEP] + b, minor)], [], out) {
      SepInCurrencyMisfiles(other, a, b);
      OneKeyJoin(Amount(other, a + [SEP] + b, minor), out);
      SepMisjoins(Amount(other, a + [SEP] + b, minor), out);
    }
  }

  /** Rows of distinct keys are distinct, and cover both sides. */
  lemma RowsOfKeys(attributed: seq<Amount>, spend: seq<Spend>, keys: seq<Text>, rows: seq<RoasRow>)
    requires SepFree(attributed, spend) && Lists(keys, attributed, spend)
    requires |rows| == |keys| && forall i | 0 <= i < |keys| :: rows[i] == RowAt(attributed, spend, keys[i])
    ensures DistinctPairs(rows)
    ensures forall r <- rows ::
              Occurs(attributed, spend, r.campaign, r.currency)
              && r == RowOf(attributed, spend, r.campaign, r.currency)
    ensures forall a <- attributed :: exists r <- rows :: r.campaign == a.campaign && r.currency == a.currency
    ensures forall s <- AmountsOf(spend) :: exists r <- rows :: r.campaign == s.campaign && r.currency == s.currency
  {
    forall i | 0 <= i < |keys|
      ensures keys[i] == KeyOf(rows[i].campaign, rows[i].currency)
      ensures Occurs(attributed, spend, rows[i].campaign, rows[i].currency)
    {
      assert keys[i] in keys;
      KeyOrigin(attributed, spend, keys[i]);
    }
    SideCovered(attributed, spend, keys, rows, attributed);
    SideCovered(attributed, spend, keys, rows, AmountsOf(spend));
  }

  lemma SideCovered(
        attributed: seq<Amount>, spend: seq<Spend>, keys: seq<Text>, rows: seq<RoasRow>, side: seq<Amount>)
    requires forall a <- side :: SEP !in a.campaign && SEP !in a.currency
    requires forall k <- KeysOf(KeyedOf(side)) :: k in keys
    requires |rows| == |keys| && forall i | 0 <= i < |keys| :: rows[i] == RowAt(attributed, spend, keys[i])
    ensures forall a <- side :: exists r <- rows :: r.campaign == a.campaign && r.currency == a.currency
  {
    forall a <- side ensures exists r <- rows :: r.campaign == a.campaign && r.currency == a.currency {
      var i :| 0 <= i < |side| && side[i] == a;
      assert KeyedOf(side)[i] in KeyedOf(side);
      Covered(attributed, spend, keys, rows, a.campaign, a.currency);
    }
  }

  lemma Covered(attributed: seq<Amount>, spend: seq<Spend>, keys: seq<Text>, rows: seq<RoasRow>,
        campaign: Text, currency: Text)
    requires SEP !in campaign && SEP !in currency && KeyOf(campaign, currency) in keys
    requires |rows| == |keys| && forall i | 0 <= i < |keys| :: rows[i] == RowAt(attributed, spend, keys[i])
    ensures exists r <- rows :: r.campaign == campaign && r.currency == currency
  {
    SplitKeyOf(campaign, currency);
    var j :| 0 <= j < |keys| && keys[j] == KeyOf(campaign, currency);
    assert rows[j].campaign == campaign && rows[j].currency == currency;
  }

  // ---- Conservation -------------------------------------------------------------------------

  function TotalRevenue(rows: seq<RoasRow>, currency: Text): int {
    if rows == [] then 0
    else (if rows[0].currency == currency then rows[0].attributed else 0) + TotalRevenue(rows[1..], currency)
  }

  function TotalSpend(rows: seq<RoasRow>, currency: Text): int {
    if rows == [] then 0
    else (if rows[0].currency == currency then rows[0].spend else 0) + TotalSpend(rows[1..], currency)
  }

  function Total(rows: seq<Amount>, currency: Text): int {
    if rows == [] then 0
    else
      var last := rows[|rows| - 1];
      Total(rows[..|rows| - 1], currency) + if last.currency == currency then last.minor else 0
  }

  /** The currency under which an amount is reported. */
  function FiledUnder(a: Amount): Text {
    SplitKey(KeyOf(a.campaign, a.currency)).1
  }

  function FiledTotal(rows: seq<Amount>, currency: Text): int {
    if rows == [] then 0
    else
      var last := rows[|rows| - 1];
      FiledTotal(rows[..|rows| - 1], currency) + if FiledUnder(last) == currency then last.minor else 0
  }

  /** The amounts under the keys of one currency. */
  function KeyTotal(keys: seq<Text>, rows: seq<Keyed>, currency: Text): int {
    if keys == [] then 0
    else (if SplitKey(keys[0]).1 == currency then SumAt(rows, keys[0]) else 0) + KeyTotal(keys[1..], rows, currency)
  }

  lemma {:induction false} TotalsWithout(a: seq<RoasRow>, x: RoasRow, b: seq<RoasRow>, currency: Text)
    ensures TotalRevenue(a + [x] + b, currency) == TotalRevenue([x], currency) + TotalRevenue(a + b, currency)
    ensures TotalSpend(a + [x] + b, currency) == TotalSpend([x], currency) + TotalSpend(a + b, currency)
  {
    if a == [] {
      assert a + [x] + b == [x] + b && a + b == b;
    } else {
      TotalsWithout(a[1..], x, b, currency);
      assert (a + [x] + b)[1..] == a[1..] + [x] + b && (a + b)[1..] == a[1..] + b;
    }
  }

  lemma RestPermuted(a: seq<RoasRow>, b: seq<RoasRow>, i: nat)
    requires multiset(a) == multiset(b) && a != [] && i < |b| && b[i] == a[0]
    ensures b == b[..i] + [a[0]] + b[i + 1..] && multiset(a[1..]) == multiset(b[..i] + b[i + 1..])
  {
    var rest := b[..i] + b[i + 1..];
    assert a == [a[0]] + a[1..] && b == b[..i] + [a[0]] + b[i + 1..];
    assert multiset(rest) == multiset(b) - multiset{a[0]};
    assert multiset(a[1..]) == multiset(a) - multiset{a[0]};
  }

  /** Sorting does not change the totals. */
  lemma {:induction false} PermutedTotals(a: seq<RoasRow>, b: seq<RoasRow>, currency: Text)
    requires multiset(a) == multiset(b)
    ensures TotalRevenue(a, currency) == TotalRevenue(b, currency)
    ensures TotalSpend(a, currency) == TotalSpend(b, currency)
  {
    if a == [] {
      assert |multiset(b)| == 0;
    } else {
      assert a[0] in multiset(a) && a[0] in multiset(b);
      var i :| 0 <= i < |b| && b[i] == a[0];
      RestPermuted(a, b, i);
      PermutedTotals(a[1..], b[..i] + b[i + 1..], currency);
      TotalsWithout(b[..i], a[0], b[i + 1..], currency);
      TotalsWithout([], a[0], a[1..], currency);
      assert [] + [a[0]] + a[1..] == a && [] + a[1..] == a[1..];
    }
  }

  lemma {:induction false} TotalsOfKeys(attributed: seq<Amount>, spend: seq<Spend>, keys: seq<Text>, currency: Text)
    ensures TotalRevenue(RowsAt(attributed, spend, keys), currency) == KeyTotal(keys, KeyedOf(attributed), currency)
    ensures TotalSpend(RowsAt(attributed, spend, keys), currency) == KeyTotal(keys, KeyedOf(AmountsOf(spend)), currency)
  {
    if keys != [] {
      assert RowsAt(attributed, spend, keys)[1..] == RowsAt(attributed, spend, keys[1..]);
      TotalsOfKeys(attributed, spend, keys[1..], currency);
    }
  }

  lemma {:induction false} Absent(keys: seq<Text>, rows: seq<Keyed>, x: Keyed, currency: Text)
    requires x.key !in keys
    ensures KeyTotal(keys, rows + [x], currency) == KeyTotal(keys, rows, currency)
  {
    if keys != [] {
      SumSnoc(rows, x, keys[0]);
      Absent(keys[1..], rows, x, currency);
    }
  }

  /** One more amount adds itself to the total of its key's currency, and nothing elsewhere: its key is listed once. */
  lemma {:induction false} PresentOnce(keys: seq<Text>, rows: seq<Keyed>, x: Keyed, currency: Text)
    requires x.key in keys && forall i, j | 0 <= i < j < |keys| :: keys[i] != keys[j]
    ensures KeyTotal(keys, rows + [x], currency) ==
            KeyTotal(keys, rows, currency) + if SplitKey(x.key).1 == currency then x.minor else 0
  {
    SumSnoc(rows, x, keys[0]);
    if keys[0] == x.key {
      Absent(keys[1..], rows, x, currency);
    } else {
      PresentOnce(keys[1..], rows, x, currency);
    }
  }

  lemma {:induction false} NothingYet(keys: seq<Text>, currency: Text)
    ensures KeyTotal(keys, [], currency) == 0
  {
    if keys != [] {
      NothingYet(keys[1..], currency);
    }
  }

  lemma KeyedSnoc(rows: seq<Amount>)
    requires rows != []
    ensures var last := rows[|rows| - 1];
            KeyedOf(rows) == KeyedOf(rows[..|rows| - 1]) + [Keyed(KeyOf(last.campaign, last.currency), last.minor)]
  {
  }

  lemma {:induction false} AmountsKept(keys: seq<Text>, rows: seq<Amount>, currency: Text)
    requires forall i, j | 0 <= i < j < |keys| :: keys[i] != keys[j]
    requires forall a <- rows :: KeyOf(a.campaign, a.currency) in keys
    ensures KeyTotal(keys, KeyedOf(rows), currency) == FiledTotal(rows, currency)
  {
    if rows == [] {
      NothingYet(keys, currency);
    } else {
      var init, last := rows[..|rows| - 1], rows[|rows| - 1];
      AmountsKept(keys, init, currency);
      KeyedSnoc(rows);
      PresentOnce(keys, KeyedOf(init), Keyed(KeyOf(last.campaign, last.currency), last.minor), currency);
    }
  }

  lemma SideListed(side: seq<Amount>, keys: seq<Text>)
    requires forall k <- KeysOf(KeyedOf(side)) :: k in keys
    ensures forall a <- side :: KeyOf(a.campaign, a.currency) in keys
  {
    forall a <- side ensures KeyOf(a.campaign, a.currency) in keys {
      var i :| 0 <= i < |side| && side[i] == a;
      assert KeyedOf(side)[i] in KeyedOf(side);
    }
  }

  lemma {:induction false} FiledIsTotal(rows: seq<Amount>, currency: Text)
    requires forall a <- rows :: FiledUnder(a) == a.currency
    ensures FiledTotal(rows, currency) == Total(rows, currency)
  {
    if rows != [] {
      FiledIsTotal(rows[..|rows| - 1], currency);
    }
  }

  lemma SepFreeFiles(attributed: seq<Amount>, spend: seq<Spend>)
    requires SepFree(attributed, spend)
    ensures forall a | a in attributed || a in AmountsOf(spend) :: FiledUnder(a) == a.currency
  {
    forall a | a in attributed || a in AmountsOf(spend) ensures FiledUnder(a) == a.currency {
      SplitKeyOf(a.campaign, a.currency);
    }
  }

  /**
    Nothing is lost or doubled, whatever the ids hold: both operands add up, per currency, to the input
    amounts filed under it; and where every amount is filed under its own currency, as it is without
    separators, to the input totals.
   */
  lemma TotalsAreConserved(attributed: seq<Amount>, spend: seq<Spend>, out: seq<RoasRow>, currency: Text)
    requires IsKeyJoin(attributed, spend, out)
    ensures TotalRevenue(out, currency) == FiledTotal(attributed, currency)
    ensures TotalSpend(out, currency) == FiledTotal(AmountsOf(spend), currency)
    ensures (forall a <- attributed :: FiledUnder(a) == a.currency) ==>
              TotalRevenue(out, currency) == Total(attributed, currency)
    ensures (forall a <- AmountsOf(spend) :: FiledUnder(a) == a.currency) ==>
              TotalSpend(out, currency) == Total(AmountsOf(spend), currency)
    ensures SepFree(attributed, spend) ==>
              TotalRevenue(out, currency) == Total(attributed, currency)
              && TotalSpend(out, currency) == Total(AmountsOf(spend), currency)
  {
    var keys: seq<Text> :|
      Lists(keys, attributed, spend) && multiset(out) == multiset(RowsAt(attributed, spend, keys));
    PermutedTotals(out, RowsAt(attributed, spend, keys), currency);
    TotalsOfKeys(attributed, spend, keys, currency);
    SideListed(attributed, keys);
    SideListed(AmountsOf(spend), keys);
    AmountsKept(keys, attributed, currency);
    AmountsKept(keys, AmountsOf(spend), currency);
    if SepFree(attributed, spend) {
      SepFreeFiles(attributed, spend);
    }
    if forall a <- attributed :: FiledUnder(a) == a.currency {
      FiledIsTotal(attributed, currency);
    }
    if forall a <- AmountsOf(spend) :: FiledUnder(a) == a.currency {
      FiledIsTotal(AmountsOf(spend), currency);
    }
  }

  /** The join is determined by its inputs: two outer joins of the same rows are the same list. */
  lemma JoinIsUnique(attributed: seq<Amount>, spend: seq<Spend>, a: seq<RoasRow>, b: seq<RoasRow>)
    requires IsOuterJoin(attributed, spend, a) && IsOuterJoin(attributed, spend, b)
    ensures a == b
  {
    forall r | r in a ensures r in b {
      SameRow(attributed, spend, a, b, r);
    }
    forall r | r in b ensures r in a {
      SameRow(attributed, spend, b, a, r);
    }
    OrderedUnique(a, b);
  }

  lemma SameRow(attributed: seq<Amount>, spend: seq<Spend>, a: seq<RoasRow>, b: seq<RoasRow>, r: RoasRow)
    requires IsOuterJoin(attributed, spend, a) && IsOuterJoin(attributed, spend, b) && r in a
    ensures r in b
  {
  }

  /** The first row of an ordered list is the first of all its members. */
  lemma FirstIsLeast(a: seq<RoasRow>, r: RoasRow)
    requires InOrder(a) && r in a
    ensures r == a[0] || Before(a[0], r)
  {
  }

  lemma {:induction false} OrderedUnique(a: seq<RoasRow>, b: seq<RoasRow>)
    requires InOrder(a) && InOrder(b) && forall r :: r in a <==> r in b
    ensures a == b
  {
    assert (a == []) == (b == []) by {
      if a != [] { assert a[0] in b; }
      if b != [] { assert b[0] in a; }
    }
    if a != [] {
      assert a[0] in b && b[0] in a;
      FirstIsLeast(a, b[0]);
      FirstIsLeast(b, a[0]);
      if a[0] != b[0] {
        BeforeAsymmetric(a[0], b[0]);
      }
      forall r ensures r in a[1..] <==> r in b[1..] {
        TailMember(a, r);
        TailMember(b, r);
      }
      OrderedUnique(a[1..], b[1..]);
      assert a == [a[0]] + a[1..] && b == [b[0]] + b[1..];
    }
  }

  lemma TailMember(a: seq<RoasRow>, r: RoasRow)
    requires a != [] && InOrder(a)
    ensures r in a[1..] <==> r in a && r != a[0]
  {
    assert a == [a[0]] + a[1..];
    if r in a[1..] {
      var i :| 0 <= i < |a[1..]| && a[1..][i] == r;
      assert Before(a[0], a[i + 1]);
      BeforeAsymmetric(a[0], r);
    }
  }
}
