/**
  The never-guess identity resolver of the revenue spine: one SELECT over the identity map and the orders,
  written here clause by clause. Up to the GROUP BY duplicate rows do not matter, so tables are sets of rows;
  what the final SELECT emits is counted by `JoinedRows`. `None` is SQL's NULL.
 */
module RevenueIdentity {
  import opened Lexicographic
  import opened Options
  import opened Texts

  /** A row of the bi-temporal identity map. */
  datatype MapRow = MapRow(
    brand: Option<Text>, hash: Option<Text>, brain: Option<Text>, replacedBy: Option<Text>,
    confidence: Option<int>, isCurrent: bool, systemTo: Option<int>)

  /** An order with its up to three hashed identifiers. */
  datatype Order = Order(
    brand: Option<Text>, id: Option<Text>, email: Option<Text>, phone: Option<Text>, platform: Option<Text>)

  /** `__no_brand__` */
  const NO_BRAND: Text := [95, 95, 110, 111, 95, 98, 114, 97, 110, 100, 95, 95]

  // ---- Which brands -------------------------------------------------------------------------

  /** The brands whose flag is on, or that are forced on. */
  function EnabledBrands(brands: seq<Text>, forced: set<Text>, flagOn: Text -> bool): (on: seq<Text>)
    ensures forall b :: b in on <==> b in brands && b != [] && (b in forced || flagOn(b))
  {
    if brands == [] then []
    else
      var rest := EnabledBrands(brands[1..], forced, flagOn);
      if brands[0] != [] && (brands[0] in forced || flagOn(brands[0])) then [brands[0]] + rest else rest
  }

  /** The IN list; with no brand it holds a placeholder. NULL is in no list. */
  predicate InList(brand: Option<Text>, on: seq<Text>) {
    brand.Some? && brand.value in if on == [] then [NO_BRAND] else on
  }

  // ---- The common table expressions ---------------------------------------------------------

  /** `_idc`: current rows with their merge-reconciled brain. */
  datatype Current = Current(brand: Text, hash: Text, brain: Text, confidence: Option<int>)

  predicate IsCurrent(r: MapRow, on: seq<Text>) {
    r.isCurrent && r.systemTo.None? && r.brain.Some? && r.hash.Some? && InList(r.brand, on)
  }

  function Reconciled(r: MapRow): Text
    requires r.brain.Some?
  {
    if r.replacedBy.Some? && r.replacedBy.value != [] then r.replacedBy.value else r.brain.value
  }

  function IdentityCurrent(rows: set<MapRow>, on: seq<Text>): set<Current> {
    set r | r in rows && IsCurrent(r, on) :: Current(r.brand.value, r.hash.value, Reconciled(r), r.confidence)
  }

  /** One row for each present hash of an order. */
  datatype OrderKey = OrderKey(brand: Text, id: Option<Text>, hash: Text)

  predicate Present(h: Option<Text>) {
    h.Some? && h.value != []
  }

  function OrderKeys(orders: set<Order>, on: seq<Text>): set<OrderKey> {
    (set o | o in orders && InList(o.brand, on) && Present(o.email) :: OrderKey(o.brand.value, o.id, o.email.value))
    + (set o | o in orders && InList(o.brand, on) && Present(o.phone) :: OrderKey(o.brand.value, o.id, o.phone.value))
    + (set o | o in orders && InList(o.brand, on) && Present(o.platform) ::
         OrderKey(o.brand.value, o.id, o.platform.value))
  }

  /** `_cand`, by its grouping columns: brains reached by an order. */
  datatype Candidate = Candidate(brand: Text, id: Option<Text>, brain: Text)

  function Candidates(keys: set<OrderKey>, idc: set<Current>): set<Candidate> {
    set k, c | k in keys && c in idc && c.brand == k.brand && c.hash == k.hash :: Candidate(k.brand, k.id, c.brain)
  }

  /** `max(confidence)` of a candidate's group; NULLs do not count. */
  function Confidences(keys: set<OrderKey>, idc: set<Current>, g: Candidate): set<int> {
    set k, c | k in keys && c in idc && c.brand == k.brand && c.hash == k.hash
               && Candidate(k.brand, k.id, c.brain) == g && c.confidence.Some? :: c.confidence.value
  }

  /** Ahead in `ORDER BY confidence DESC NULLS LAST, brain_id ASC`, `m` and `n` being the two groups' confidences. */
  predicate Ahead(m: set<int>, a: Candidate, n: set<int>, b: Candidate) {
    (m != {} && forall y <- n :: exists x <- m :: x > y)
    || ((m == {}) == (n == {})
        && (forall x <- m :: exists y <- n :: y >= x) && (forall y <- n :: exists x <- m :: x >= y)
        && Below(a.brain, b.brain))
  }

  function Partition(cand: set<Candidate>, brand: Text, id: Option<Text>): set<Candidate> {
    set g | g in cand && g.brand == brand && g.id == id
  }

  /** `row_number()` over the partition of an order. */
  function RowNumber(keys: set<OrderKey>, idc: set<Current>, g: Candidate): nat {
    1 + |set h | h in Partition(Candidates(keys, idc), g.brand, g.id) && h != g
                 && Ahead(Confidences(keys, idc, h), h, Confidences(keys, idc, g), g)|
  }

  /** `_counts` and `_winner`: one row for each group of `_cand`, and one for each of its rows. */
  datatype Count = Count(brand: Text, id: Option<Text>, brains: nat)

  datatype Winner = Winner(brand: Text, id: Option<Text>, brain: Text, rn: nat)

  function Counts(cand: set<Candidate>): set<Count> {
    set g | g in cand :: Count(g.brand, g.id, |Partition(cand, g.brand, g.id)|)
  }

  function Winners(keys: set<OrderKey>, idc: set<Current>): set<Winner> {
    set g | g in Candidates(keys, idc) :: Winner(g.brand, g.id, g.brain, RowNumber(keys, idc, g))
  }

  /** A row of the last join. It drops orders whose id is NULL. */
  datatype Joined = Joined(w: Winner, n: Count)

  /** The rows behind the result: the final SELECT emits one row for each of these, equal or not. */
  function JoinedRows(rows: set<MapRow>, orders: set<Order>, on: seq<Text>): set<Joined> {
    var idc := IdentityCurrent(rows, on);
    var keys := OrderKeys(orders, on);
    set w, n | w in Winners(keys, idc) && n in Counts(Candidates(keys, idc))
               && n.brand == w.brand && w.id.Some? && n.id == w.id && w.rn == 1 && n.brains == 1
      :: Joined(w, n)
  }

  datatype Resolved = Resolved(brand: Text, id: Text, brain: Text)

  function Resolve(rows: set<MapRow>, orders: set<Order>, on: seq<Text>): set<Resolved> {
    set j | j in JoinedRows(rows, orders, on) && j.w.id.Some? :: Resolved(j.w.brand, j.w.id.value, j.w.brain)
  }

  // ---- What it means ------------------------------------------------------------------------

  predicate HasHash(o: Order, h: Text) {
    h != [] && (o.email == Some(h) || o.phone == Some(h) || o.platform == Some(h))
  }

  /**
    From the columns alone: a row of the brand that is current, not closed, and complete maps the hash to `brain`,
    which is the survivor it was merged into or else its own brain.
   */
  predicate MapsTo(r: MapRow, brand: Text, hash: Text, brain: Text) {
    && r.isCurrent && r.systemTo == None
    && r.brand == Some(brand) && r.hash == Some(hash) && r.brain != None
    && (if r.replacedBy == None || r.replacedBy == Some([])
        then r.brain == Some(brain)
        else r.replacedBy == Some(brain))
  }

  /** A present hash of the order reaches the brain. */
  predicate Reaches(rows: set<MapRow>, orders: set<Order>, on: seq<Text>, brand: Text, id: Option<Text>, brain: Text) {
    && (brand in on || (on == [] && brand == Literal("__no_brand__")))
    && exists r <- rows, o <- orders ::
         && o.brand == Some(brand) && o.id == id
         && r.hash.Some? && HasHash(o, r.hash.value) && MapsTo(r, brand, r.hash.value, brain)
  }

  lemma PlaceholderIsSpelled()
    ensures NO_BRAND == Literal("__no_brand__")
  {
  }

  lemma KeysAreHashes(orders: set<Order>, on: seq<Text>, k: OrderKey)
    ensures k in OrderKeys(orders, on) <==>
              InList(Some(k.brand), on)
              && exists o <- orders :: o.brand == Some(k.brand) && o.id == k.id && HasHash(o, k.hash)
  {
    if k in OrderKeys(orders, on) {
      if o :| o in orders && InList(o.brand, on) && Present(o.email)
              && OrderKey(o.brand.value, o.id, o.email.value) == k {
        assert HasHash(o, k.hash);
      } else if o :| o in orders && InList(o.brand, on) && Present(o.phone)
                     && OrderKey(o.brand.value, o.id, o.phone.value) == k {
        assert HasHash(o, k.hash);
      } else {
        var o :| o in orders && InList(o.brand, on) && Present(o.platform)
                 && OrderKey(o.brand.value, o.id, o.platform.value) == k;
        assert HasHash(o, k.hash);
      }
    }
  }

  lemma CandidatesAreReached(rows: set<MapRow>, orders: set<Order>, on: seq<Text>, g: Candidate)
    ensures g in Candidates(OrderKeys(orders, on), IdentityCurrent(rows, on)) <==>
              Reaches(rows, orders, on, g.brand, g.id, g.brain)
  {
    var keys, idc := OrderKeys(orders, on), IdentityCurrent(rows, on);
    PlaceholderIsSpelled();
    if g in Candidates(keys, idc) {
      var k, c :| k in keys && c in idc && c.brand == k.brand && c.hash == k.hash
                  && Candidate(k.brand, k.id, c.brain) == g;
      KeysAreHashes(orders, on, k);
      var o :| o in orders && o.brand == Some(k.brand) && o.id == k.id && HasHash(o, k.hash);
      var r :| r in rows && IsCurrent(r, on) && Current(r.brand.value, r.hash.value, Reconciled(r), r.confidence) == c;
      assert HasHash(o, r.hash.value);
    }
    if Reaches(rows, orders, on, g.brand, g.id, g.brain) {
      var r, o :| r in rows && o in orders && o.brand == Some(g.brand) && o.id == g.id
                  && r.hash.Some? && HasHash(o, r.hash.value) && MapsTo(r, g.brand, r.hash.value, g.brain);
      var k := OrderKey(g.brand, g.id, r.hash.value);
      KeysAreHashes(orders, on, k);
      assert IsCurrent(r, on) && Reconciled(r) == g.brain;
      var c := Current(g.brand, r.hash.value, g.brain, r.confidence);
      assert k in keys && c in idc;
    }
  }

  lemma OneMember<T>(s: set<T>, x: T)
    requires x in s
    ensures |s| == 1 <==> s == {x}
  {
    if |s| == 1 {
      assert |s - {x}| == 0;
      assert s == (s - {x}) + {x};
    }
  }

  /** The join by its parts: an answer is a candidate with an id, row one of a partition of one. */
  lemma ResolvedMeans(rows: set<MapRow>, orders: set<Order>, on: seq<Text>, brand: Text, id: Text, brain: Text)
    ensures var keys, idc := OrderKeys(orders, on), IdentityCurrent(rows, on);
            var g := Candidate(brand, Some(id), brain);
            Resolved(brand, id, brain) in Resolve(rows, orders, on) <==>
              g in Candidates(keys, idc) && RowNumber(keys, idc, g) == 1
              && |Partition(Candidates(keys, idc), brand, Some(id))| == 1
  {
    var keys, idc := OrderKeys(orders, on), IdentityCurrent(rows, on);
    var cand, g := Candidates(keys, idc), Candidate(brand, Some(id), brain);
    if g in cand && RowNumber(keys, idc, g) == 1 && |Partition(cand, brand, Some(id))| == 1 {
      var j := Joined(Winner(brand, Some(id), brain, 1), Count(brand, Some(id), 1));
      assert j.w in Winners(keys, idc) && j.n in Counts(cand);
      assert j in JoinedRows(rows, orders, on);
    }
  }

  /**
    Never guess: the resolver gives an order a brain exactly when the order has an id and its present hashes
    reach that brain and no other.
   */
  lemma ResolvesOnlyCertainty(rows: set<MapRow>, orders: set<Order>, on: seq<Text>, brand: Text, id: Text, brain: Text)
    ensures Resolved(brand, id, brain) in Resolve(rows, orders, on) <==>
            && Reaches(rows, orders, on, brand, Some(id), brain)
            && forall other :: Reaches(rows, orders, on, brand, Some(id), other) ==> other == brain
  {
    var idc, keys := IdentityCurrent(rows, on), OrderKeys(orders, on);
    var cand := Candidates(keys, idc);
    var g := Candidate(brand, Some(id), brain);
    var mine := Partition(cand, brand, Some(id));
    ResolvedMeans(rows, orders, on, brand, id, brain);
    forall b ensures Candidate(brand, Some(id), b) in mine <==> Reaches(rows, orders, on, brand, Some(id), b) {
      CandidatesAreReached(rows, orders, on, Candidate(brand, Some(id), b));
    }
    if g in cand {
      OneMember(mine, g);
      if forall other :: Reaches(rows, orders, on, brand, Some(id), other) ==> other == brain {
        assert forall h <- mine :: h == Candidate(brand, Some(id), h.brain) && h == g;
        assert mine == {g};
        NoneAhead(keys, idc, g);
      }
    }
  }

  /** Alone in its partition a candidate is row one. */
  lemma NoneAhead(keys: set<OrderKey>, idc: set<Current>, g: Candidate)
    requires Partition(Candidates(keys, idc), g.brand, g.id) == {g}
    ensures RowNumber(keys, idc, g) == 1
  {
  }

  /** At most one row for each order, duplicates counted: the last join yields at most one row for it. */
  lemma AtMostOneAnswer(rows: set<MapRow>, orders: set<Order>, on: seq<Text>, a: Joined, b: Joined)
    requires a in JoinedRows(rows, orders, on) && b in JoinedRows(rows, orders, on)
    requires a.w.brand == b.w.brand && a.w.id == b.w.id
    ensures a == b
  {
    var cand := Candidates(OrderKeys(orders, on), IdentityCurrent(rows, on));
    var g, h := Candidate(a.w.brand, a.w.id, a.w.brain), Candidate(b.w.brand, b.w.id, b.w.brain);
    var mine := Partition(cand, a.w.brand, a.w.id);
    assert g in mine && h in mine && |mine| == 1;
    OneMember(mine, g);
  }

  /** Every hash of `o` is still there in `o'`. */
  predicate Supplies(o': Order, o: Order) {
    && o'.brand == o.brand && o'.id == o.id
    && (Present(o.email) ==> o'.email == o.email) && (Present(o.phone) ==> o'.phone == o.phone)
    && (Present(o.platform) ==> o'.platform == o.platform)
  }

  /** Supplying more hashes may remove an answer or give one, but never turns it into another brain. */
  lemma MoreHashesNeverContradict(
        rows: set<MapRow>, orders: set<Order>, more: set<Order>, on: seq<Text>, a: Resolved, b: Resolved)
    requires forall o <- orders :: exists o' <- more :: Supplies(o', o)
    requires a in Resolve(rows, orders, on) && b in Resolve(rows, more, on)
    requires a.brand == b.brand && a.id == b.id
    ensures a.brain == b.brain
  {
    ResolvesOnlyCertainty(rows, orders, on, a.brand, a.id, a.brain);
    ResolvesOnlyCertainty(rows, more, on, b.brand, b.id, b.brain);
    var r, o :| r in rows && o in orders && o.brand == Some(a.brand) && o.id == Some(a.id)
                && r.hash.Some? && HasHash(o, r.hash.value) && MapsTo(r, a.brand, r.hash.value, a.brain);
    var o' :| o' in more && Supplies(o', o);
    assert HasHash(o', r.hash.value);
    assert Reaches(rows, more, on, a.brand, Some(a.id), a.brain);
  }

  /** A brand without the flag gets no answer, the placeholder brand excepted when no brand has it. */
  lemma FailsClosed(rows: set<MapRow>, orders: set<Order>, on: seq<Text>, a: Resolved)
    requires a in Resolve(rows, orders, on)
    ensures a.brand in on || (on == [] && a.brand == Literal("__no_brand__"))
  {
    ResolvesOnlyCertainty(rows, orders, on, a.brand, a.id, a.brain);
  }

  /** That exception is real: with no brand enabled, an order of the placeholder brand is resolved. */
  lemma PlaceholderIsAnswered(id: Text, hash: Text, brain: Text)
    requires hash != []
    ensures var brand := Literal("__no_brand__");
            var row := MapRow(Some(brand), Some(hash), Some(brain), None, None, true, None);
            var order := Order(Some(brand), Some(id), Some(hash), None, None);
            Resolve({row}, {order}, []) == {Resolved(brand, id, brain)}
  {
    PlaceholderIsSpelled();
    var row := MapRow(Some(NO_BRAND), Some(hash), Some(brain), None, None, true, None);
    var order := Order(Some(NO_BRAND), Some(id), Some(hash), None, None);
    assert row in {row} && order in {order} && HasHash(order, hash) && MapsTo(row, NO_BRAND, hash, brain);
    ResolvesOnlyCertainty({row}, {order}, [], NO_BRAND, id, brain);
    forall a <- Resolve({row}, {order}, []) ensures a == Resolved(NO_BRAND, id, brain) {
      ResolvesOnlyCertainty({row}, {order}, [], a.brand, a.id, a.brain);
    }
  }

  /** Who was merged away is answered no more: with a survivor on all of its rows, and itself no one's survivor. */
  lemma MergedAwayIsNotAnswered(
        rows: set<MapRow>, orders: set<Order>, on: seq<Text>, brand: Text, id: Text, merged: Text)
    requires forall r <- rows | r.brand == Some(brand) && r.brain == Some(merged) ::
               r.replacedBy.Some? && r.replacedBy.value !in {[], merged}
    requires merged != [] && forall r <- rows | r.brand == Some(brand) :: r.replacedBy != Some(merged)
    ensures Resolved(brand, id, merged) !in Resolve(rows, orders, on)
  {
    ResolvesOnlyCertainty(rows, orders, on, brand, id, merged);
  }

  /** A hash of the merged and a hash of the survivor agree on the survivor; before the merge they resolved nothing. */
  lemma MergeRestoresCertainty(brand: Text, id: Text, h: Text, h': Text, merged: Text, survivor: Text)
    requires h != [] && h' != [] && h != h' && survivor != [] && merged != survivor
    ensures var order := Order(Some(brand), Some(id), Some(h), Some(h'), None);
            var before := MapRow(Some(brand), Some(h), Some(merged), None, Some(90), true, None);
            var kept := MapRow(Some(brand), Some(h'), Some(survivor), None, Some(90), true, None);
            && Resolve({before, kept}, {order}, [brand]) == {}
            && Resolve({before.(replacedBy := Some(survivor)), kept}, {order}, [brand]) ==
               {Resolved(brand, id, survivor)}
  {
    var order := Order(Some(brand), Some(id), Some(h), Some(h'), None);
    var before := MapRow(Some(brand), Some(h), Some(merged), None, Some(90), true, None);
    var kept := MapRow(Some(brand), Some(h'), Some(survivor), None, Some(90), true, None);
    var moved := before.(replacedBy := Some(survivor));
    assert order in {order} && HasHash(order, h) && HasHash(order, h');
    assert kept in {before, kept} && before in {before, kept} && kept in {moved, kept};
    assert MapsTo(kept, brand, h', survivor) && MapsTo(before, brand, h, merged);
    forall a <- Resolve({before, kept}, {order}, [brand]) ensures false {
      ResolvesOnlyCertainty({before, kept}, {order}, [brand], a.brand, a.id, a.brain);
      assert a.brand == brand && a.id == id;
      assert Reaches({before, kept}, {order}, [brand], brand, Some(id), merged);
      assert Reaches({before, kept}, {order}, [brand], brand, Some(id), survivor);
    }
    ResolvesOnlyCertainty({moved, kept}, {order}, [brand], brand, id, survivor);
    forall a <- Resolve({moved, kept}, {order}, [brand]) ensures a == Resolved(brand, id, survivor) {
      ResolvesOnlyCertainty({moved, kept}, {order}, [brand], a.brand, a.id, a.brain);
    }
  }

  // ---- The order of the candidates -----------------------------------------------------------

  /** The confidences of a candidate: those of the current rows through which the order reaches it. */
  lemma ConfidencesOfRows(rows: set<MapRow>, orders: set<Order>, on: seq<Text>, g: Candidate, x: int)
    ensures x in Confidences(OrderKeys(orders, on), IdentityCurrent(rows, on), g) <==>
            && (g.brand in on || (on == [] && g.brand == Literal("__no_brand__")))
            && exists r <- rows, o <- orders ::
                 && o.brand == Some(g.brand) && o.id == g.id && r.confidence == Some(x)
                 && r.hash.Some? && HasHash(o, r.hash.value) && MapsTo(r, g.brand, r.hash.value, g.brain)
  {
    PlaceholderIsSpelled();
    var keys, idc := OrderKeys(orders, on), IdentityCurrent(rows, on);
    if x in Confidences(keys, idc, g) {
      var k, c :| k in keys && c in idc && c.brand == k.brand && c.hash == k.hash
                  && Candidate(k.brand, k.id, c.brain) == g && c.confidence == Some(x);
      KeysAreHashes(orders, on, k);
      var o :| o in orders && o.brand == Some(k.brand) && o.id == k.id && HasHash(o, k.hash);
      var r :| r in rows && IsCurrent(r, on) && Current(r.brand.value, r.hash.value, Reconciled(r), r.confidence) == c;
      assert MapsTo(r, g.brand, r.hash.value, g.brain);
    }
    if r, o :| r in rows && o in orders && InList(Some(g.brand), on)
               && o.brand == Some(g.brand) && o.id == g.id && r.confidence == Some(x)
               && r.hash.Some? && HasHash(o, r.hash.value) && MapsTo(r, g.brand, r.hash.value, g.brain) {
      var k, c := OrderKey(g.brand, g.id, r.hash.value), Current(g.brand, r.hash.value, g.brain, Some(x));
      KeysAreHashes(orders, on, k);
      assert IsCurrent(r, on) && Reconciled(r) == g.brain;
      assert k in keys && c in idc && Candidate(k.brand, k.id, c.brain) == g;
    }
  }

  predicate IsMax(m: set<int>, x: Option<int>) {
    if m == {} then x.None? else x.Some? && x.value in m && forall y <- m :: y <= x.value
  }

  lemma AnyOf<T>(s: set<T>) returns (x: T)
    requires s != {}
    ensures x in s
  {
    x :| x in s;
  }

  lemma {:induction false} MaxOf(m: set<int>) returns (x: Option<int>)
    ensures IsMax(m, x)
  {
    x := None;
    if m != {} {
      var y := AnyOf(m);
      x := MaxOf(m - {y});
      assert m == (m - {y}) + {y};
      if x.None? || x.value < y {
        x := Some(y);
      }
    }
  }

  /** The greater maximum first, NULL last, equal ones by the brain's text. */
  lemma AheadMeans(m: set<int>, x: Option<int>, a: Candidate, n: set<int>, y: Option<int>, b: Candidate)
    requires IsMax(m, x) && IsMax(n, y)
    ensures Ahead(m, a, n, b) <==>
            || (x.Some? && (y.None? || x.value > y.value))
            || (x == y && Below(a.brain, b.brain))
  {
  }

  lemma AheadOrders(m: set<int>, a: Candidate, n: set<int>, b: Candidate, l: set<int>, c: Candidate)
    ensures !(Ahead(m, a, n, b) && Ahead(n, b, m, a))
    ensures a.brain != b.brain ==> Ahead(m, a, n, b) || Ahead(n, b, m, a)
    ensures Ahead(m, a, n, b) && Ahead(n, b, l, c) ==> Ahead(m, a, l, c)
  {
    var x := MaxOf(m);
    var y := MaxOf(n);
    var z := MaxOf(l);
    AheadMeans(m, x, a, n, y, b);
    AheadMeans(n, y, b, m, x, a);
    AheadMeans(n, y, b, l, z, c);
    AheadMeans(m, x, a, l, z, c);
    if Below(a.brain, b.brain) {
      BelowAsymmetric(a.brain, b.brain);
      if Below(b.brain, c.brain) {
        BelowTransitive(a.brain, b.brain, c.brain);
      }
    }
    if a.brain != b.brain {
      BelowTotal(a.brain, b.brain);
    }
  }

  ghost predicate First(keys: set<OrderKey>, idc: set<Current>, mine: set<Candidate>, g: Candidate) {
    g in mine && forall h <- mine | h != g :: Ahead(Confidences(keys, idc, g), g, Confidences(keys, idc, h), h)
  }

  lemma FirstExists(keys: set<OrderKey>, idc: set<Current>, mine: set<Candidate>) returns (g: Candidate)
    requires mine != {} && forall a, b | a in mine && b in mine :: a.brain == b.brain ==> a == b
    ensures First(keys, idc, mine, g)
  {
    g :| g in mine;
    if mine != {g} {
      var f := FirstExists(keys, idc, mine - {g});
      AheadOrders(Confidences(keys, idc, f), f, Confidences(keys, idc, g), g, {}, g);
      if !Ahead(Confidences(keys, idc, g), g, Confidences(keys, idc, f), f) {
        g := f;
      } else {
        forall h <- mine | h != g ensures Ahead(Confidences(keys, idc, g), g, Confidences(keys, idc, h), h) {
          AheadOrders(Confidences(keys, idc, g), g, Confidences(keys, idc, f), f, Confidences(keys, idc, h), h);
        }
      }
    }
  }

  /** The ranking is total: each order that reaches anyone has exactly one candidate in row one. */
  lemma OneRowOne(keys: set<OrderKey>, idc: set<Current>, g: Candidate) returns (first: Candidate)
    requires g in Candidates(keys, idc)
    ensures var mine := Partition(Candidates(keys, idc), g.brand, g.id);
            && first in mine && First(keys, idc, mine, first)
            && forall h <- mine :: RowNumber(keys, idc, h) == 1 <==> h == first
  {
    var mine := Partition(Candidates(keys, idc), g.brand, g.id);
    assert g in mine;
    first := FirstExists(keys, idc, mine);
    forall h <- mine ensures RowNumber(keys, idc, h) == 1 <==> h == first {
      RowOneMeans(keys, idc, mine, first, h);
    }
  }

  lemma RowOneMeans(keys: set<OrderKey>, idc: set<Current>, mine: set<Candidate>, first: Candidate, h: Candidate)
    requires h in mine && mine == Partition(Candidates(keys, idc), h.brand, h.id) && First(keys, idc, mine, first)
    ensures RowNumber(keys, idc, h) == 1 <==> h == first
  {
    var ahead := set x | x in mine && x != h && Ahead(Confidences(keys, idc, x), x, Confidences(keys, idc, h), h);
    assert RowNumber(keys, idc, h) == 1 + |ahead|;
    if h == first {
      forall x <- mine | x != h ensures x !in ahead {
        AheadOrders(Confidences(keys, idc, h), h, Confidences(keys, idc, x), x, {}, x);
      }
      assert ahead == {};
    } else {
      assert first in ahead;
    }
  }
}
