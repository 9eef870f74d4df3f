/**
  The incremental transform protocol: read a watermark window, deduplicate by primary key, MERGE, then
  advance the watermark. Timestamps are integers on one clock.
 */
module IncrementalTransform {
  import opened Options
  import opened Lexicographic

  /** `ts` is the window column; `rank` lists the ORDER BY columns of the in-batch dedup. */
  datatype Row = Row(pk: string, ts: int, rank: seq<int>, payload: string)

  /** A half-open read window. */
  datatype Window = Window(lo: int, hi: int)

  function Min(a: int, b: int): int { if a < b then a else b }

  function Max(a: int, b: int): int { if a < b then b else a }

  function MaxTs(rows: seq<Row>): (m: Option<int>)
    ensures m.None? <==> rows == []
    ensures m.Some? ==> forall r <- rows :: r.ts <= m.value
  {
    if rows == [] then None
    else match MaxTs(rows[1..])
         case None => Some(rows[0].ts)
         case Some(m) => Some(Max(rows[0].ts, m))
  }

  function MinTs(rows: seq<Row>): (m: Option<int>)
    ensures m.None? <==> rows == []
    ensures m.Some? ==> forall r <- rows :: r.ts >= m.value
  {
    if rows == [] then None
    else match MinTs(rows[1..])
         case None => Some(rows[0].ts)
         case Some(m) => Some(Min(rows[0].ts, m))
  }

  lemma NewestRow(rows: seq<Row>) returns (r: Row)
    requires rows != []
    ensures r in rows && MaxTs(rows) == Some(r.ts)
  {
    r := rows[0];
    if |rows| > 1 {
      var r' := NewestRow(rows[1..]);
      r := if r'.ts > rows[0].ts then r' else rows[0];
    }
  }

  lemma OldestRow(rows: seq<Row>) returns (r: Row)
    requires rows != []
    ensures r in rows && MinTs(rows) == Some(r.ts)
  {
    r := rows[0];
    if |rows| > 1 {
      var r' := OldestRow(rows[1..]);
      r := if r'.ts < rows[0].ts then r' else rows[0];
    }
  }

  predicate Admits(w: Option<Window>, ts: int) {
    w.None? || w.value.lo <= ts < w.value.hi
  }

  /** The rows a build reads: a full scan when there is no window. */
  function InWindow(rows: seq<Row>, w: Option<Window>): (staged: seq<Row>)
    ensures forall r :: r in staged <==> r in rows && Admits(w, r.ts)
  {
    if rows == [] then []
    else (if Admits(w, rows[0].ts) then [rows[0]] else []) + InWindow(rows[1..], w)
  }

  // ---- The reference: one latest row per key -----------------------------------------------------

  /** The target holds, for every key of the rows and no other key, a row that no row of that key outranks. */
  ghost predicate LatestPerPk(rows: iset<Row>, target: map<string, Row>) {
    && (forall r <- rows :: NotOlder(target, r))
    && (forall k <- target :: target[k] in rows && target[k].pk == k)
  }

  /** The target row of `r`'s key is `r` itself, or a row that `r` does not outrank. */
  predicate NotOlder(target: map<string, Row>, r: Row) {
    r.pk in target && AtMost(r.rank, target[r.pk].rank)
  }

  ghost function All(rows: seq<Row>): iset<Row> {
    iset r | r in rows
  }

  ghost function BelowEdge(rows: seq<Row>, edge: int): iset<Row> {
    iset r | r in rows && r.ts < edge
  }

  /** Rows of one key are ranked as the window clock orders them. */
  ghost predicate ClockOrdered(rows: seq<Row>) {
    forall r, s | r in rows && s in rows && r.pk == s.pk && r.ts < s.ts :: AtMost(r.rank, s.rank)
  }

  ghost predicate TieFree(rows: seq<Row>) {
    forall r, s | r in rows && s in rows && r.pk == s.pk && r.rank == s.rank :: r == s
  }

  /** Without rank ties the fold is a single table. */
  lemma LatestIsUnique(rows: seq<Row>, edge: int, t: map<string, Row>, u: map<string, Row>)
    requires TieFree(rows) && LatestPerPk(BelowEdge(rows, edge), t) && LatestPerPk(BelowEdge(rows, edge), u)
    ensures t == u
  {
    assert forall k <- t :: NotOlder(u, t[k]);
    assert forall k <- u :: NotOlder(t, u[k]);
    forall k <- t ensures t[k] == u[k] {
      if t[k].rank != u[k].rank {
        BelowAsymmetric(t[k].rank, u[k].rank);
      }
    }
  }

  /**
    One windowed MERGE on top of a correct fold is again the correct fold exactly when no row outside
    the window outranks the window's winner of its key: the MERGE updates unconditionally.
   */
  lemma WindowMergeExact(before: iset<Row>, target: map<string, Row>, read: iset<Row>, batch: map<string, Row>)
    requires LatestPerPk(before, target) && LatestPerPk(read, batch)
    ensures LatestPerPk(before + read, target + batch) <==>
            forall r <- before :: r.pk in batch ==> AtMost(r.rank, batch[r.pk].rank)
  {
    if forall r <- before :: r.pk in batch ==> AtMost(r.rank, batch[r.pk].rank) {
      forall r <- before + read ensures NotOlder(target + batch, r) {
        assert r in before ==> NotOlder(target, r);
        assert r in read ==> NotOlder(batch, r);
      }
    }
    if LatestPerPk(before + read, target + batch) {
      forall r <- before | r.pk in batch ensures AtMost(r.rank, batch[r.pk].rank) {
        assert r in before + read && NotOlder(target + batch, r);
      }
    }
  }

  // ---- The read window -------------------------------------------------------------------------

  /**
    The tier gate and refresh flag, the forward-slice cap (off when not positive), and whether the job
    sheds orphans on a full scan.
   */
  datatype Mode = Mode(active: bool, fullRefresh: bool, cap: int, shed: bool)

  function LowerEdge(lookback: int, watermark: int): int {
    if lookback > 0 then watermark - lookback else watermark
  }

  /**
    The window of one run, and the pinned upper edge as the window computation leaves it.
    `live` is the source at that moment, `pinned` its maximum when the run started.
   */
  function WindowOf(mode: Mode, lookback: int, live: seq<Row>, watermark: Option<int>, pinned: Option<int>)
    : (Option<Window>, Option<int>)
  {
    if !mode.active || mode.fullRefresh then (None, pinned)
    else if watermark.None? && mode.cap <= 0 then (None, pinned)
    else
      var hi := if pinned.Some? then pinned else MaxTs(live);
      if hi.None? then (None, pinned)
      else
        match watermark
        case None =>
          (match MinTs(live)
           case None => (None, pinned)
           case Some(lo) =>
             var capped := Min(hi.value, lo + mode.cap);
             (Some(Window(lo, capped)), Some(capped)))
        case Some(w) =>
          var capped := if mode.cap > 0 then Min(hi.value, w + mode.cap) else hi.value;
          (Some(Window(LowerEdge(lookback, w), capped)), if mode.cap > 0 then Some(capped) else pinned)
  }

  // ---- One step of the protocol ------------------------------------------------------------------

  datatype Lake = Lake(source: seq<Row>, target: map<string, Row>, watermark: Option<int>)

  /**
    `BuildRaised` raises before the MERGE commits, `ShedRaised` between the MERGE and the orphan DELETE,
    `NotAdvanced` after the build's last commit or in the watermark write.
   */
  datatype Fault = Clean | BuildRaised | ShedRaised | NotAdvanced

  /**
    Rows land between runs, between a run's pin and its window, and between its window and its read.
    `batch` is the deduplicated staged batch; rank ties are broken by the engine.
   */
  datatype Event =
    | Arrive(rows: seq<Row>)
    | Run(mode: Mode, beforeWindow: seq<Row>, beforeRead: seq<Row>, batch: map<string, Row>, fault: Fault)

  function Live(s: Lake, e: Event): seq<Row>
    requires e.Run?
  {
    s.source + e.beforeWindow
  }

  function Seen(s: Lake, e: Event): seq<Row> {
    if e.Arrive? then s.source + e.rows else s.source + e.beforeWindow + e.beforeRead
  }

  function WindowAt(lookback: int, s: Lake, e: Event): (Option<Window>, Option<int>)
    requires e.Run?
  {
    WindowOf(e.mode, lookback, Live(s, e), s.watermark, MaxTs(s.source))
  }

  ghost predicate Enabled(lookback: int, s: Lake, e: Event) {
    e.Run? && e.fault != BuildRaised ==>
      LatestPerPk(All(InWindow(Seen(s, e), WindowAt(lookback, s, e).0)), e.batch)
  }

  /** MERGE, then shed the keys outside a non-empty batch when asked to. */
  function Merged(target: map<string, Row>, batch: map<string, Row>, shed: bool): map<string, Row> {
    if shed && batch != map[] then batch else target + batch
  }

  function Step(lookback: int, s: Lake, e: Event): Lake {
    if e.Arrive? || e.fault == BuildRaised then s.(source := Seen(s, e))
    else
      var (window, hi) := WindowAt(lookback, s, e);
      var shed := e.mode.shed && window.None? && e.fault != ShedRaised;
      Lake(Seen(s, e), Merged(s.target, e.batch, shed),
           if e.fault == Clean && hi.Some? then hi else s.watermark)
  }

  lemma StepOfMergedRun(lookback: int, s: Lake, e: Event, window: Option<Window>, hi: Option<int>)
    requires e.Run? && e.fault != BuildRaised && WindowAt(lookback, s, e) == (window, hi)
    ensures Step(lookback, s, e) ==
            Lake(Seen(s, e), Merged(s.target, e.batch, e.mode.shed && window.None? && e.fault != ShedRaised),
                 if e.fault == Clean && hi.Some? then hi else s.watermark)
  {
  }

  /** A run scans everything exactly when its mode asks for that or the source is still empty. */
  lemma FullScans(lookback: int, s: Lake, e: Event)
    requires e.Run?
    ensures WindowAt(lookback, s, e).0.None? <==>
            !e.mode.active || e.mode.fullRefresh || (s.watermark.None? && e.mode.cap <= 0) || Live(s, e) == []
    ensures WindowAt(lookback, s, e).0.None? || e.mode.cap <= 0 ==> WindowAt(lookback, s, e).1 == MaxTs(s.source)
  {
    assert s.source != [] ==> s.source[0] in Live(s, e);
  }

  /** A batch is empty exactly when nothing was staged; its keys are those of the staged rows. */
  lemma BatchKeys(staged: seq<Row>, batch: map<string, Row>)
    requires LatestPerPk(All(staged), batch)
    ensures batch == map[] <==> staged == []
    ensures forall k :: k in batch <==> exists r <- staged :: r.pk == k
  {
    forall r <- staged ensures r.pk in batch {
      assert r in All(staged) && NotOlder(batch, r);
    }
    if staged != [] {
      assert staged[0] in staged && staged[0].pk in batch;
    }
    forall k <- batch ensures exists r <- staged :: r.pk == k {
      assert batch[k] in All(staged);
    }
  }

  /** Shedding over a staged row leaves the batch and nothing else; otherwise keys outside the batch keep their rows. */
  lemma MergeOutcome(staged: seq<Row>, target: map<string, Row>, batch: map<string, Row>, shed: bool)
    requires LatestPerPk(All(staged), batch)
    ensures shed && staged != [] ==> LatestPerPk(All(staged), Merged(target, batch, shed))
    ensures !shed || staged == [] ==> Merged(target, batch, shed).Keys == target.Keys + batch.Keys
    ensures forall k <- Merged(target, batch, shed) ::
              if k in batch then Merged(target, batch, shed)[k] == batch[k]
              else k in target && Merged(target, batch, shed)[k] == target[k]
  {
    BatchKeys(staged, batch);
  }

  ghost predicate Sheds(lookback: int, s: Lake, e: Event)
    requires e.Run?
  {
    e.mode.shed && e.fault != ShedRaised && WindowAt(lookback, s, e).0.None? && Seen(s, e) != []
  }

  /**
    What shedding is for: whatever the target held, a full scan leaves the fold of all rows it saw exactly when
    it sheds over rows it found, or the target held no key that the source has not.
   */
  lemma FullScanExact(lookback: int, s: Lake, e: Event)
    requires e.Run? && e.fault != BuildRaised && Enabled(lookback, s, e) && WindowAt(lookback, s, e).0.None?
    ensures LatestPerPk(All(Seen(s, e)), Step(lookback, s, e).target) <==>
            || (e.mode.shed && e.fault != ShedRaised && Seen(s, e) != [])
            || forall k <- s.target :: exists r <- Seen(s, e) :: r.pk == k
  {
    var seen := Seen(s, e);
    ScanReadsAll(seen);
    StepOfMergedRun(lookback, s, e, None, WindowAt(lookback, s, e).1);
    var shed := e.mode.shed && e.fault != ShedRaised;
    MergeOutcome(seen, s.target, e.batch, shed);
    BatchKeys(seen, e.batch);
    if !(shed && seen != []) {
      OrphansOrFold(seen, s.target, e.batch);
    }
  }

  lemma ScanReadsAll(rows: seq<Row>)
    ensures InWindow(rows, None) == rows
  {
  }

  lemma OrphansOrFold(seen: seq<Row>, target: map<string, Row>, batch: map<string, Row>)
    requires LatestPerPk(All(seen), batch)
    ensures LatestPerPk(All(seen), target + batch) <==> forall k <- target :: exists r <- seen :: r.pk == k
  {
    BatchKeys(seen, batch);
    if forall k <- target :: exists r <- seen :: r.pk == k {
      assert target + batch == batch;
    }
    if LatestPerPk(All(seen), target + batch) {
      forall k <- target ensures exists r <- seen :: r.pk == k {
        assert k in target + batch && (target + batch)[k] in All(seen);
      }
    }
  }

  /** A key that a run does not read keeps its row, unless a full scan sheds it; of what it reads the latest stays. */
  lemma UnreadKeysKeep(lookback: int, s: Lake, e: Event, k: string)
    requires e.Run? && e.fault != BuildRaised && Enabled(lookback, s, e)
    ensures var after, staged := Step(lookback, s, e).target, InWindow(Seen(s, e), WindowAt(lookback, s, e).0);
            if exists r <- staged :: r.pk == k then
              k in after && after[k] in staged && forall r <- staged :: r.pk == k ==> AtMost(r.rank, after[k].rank)
            else
              && (k in after <==> k in s.target && !Sheds(lookback, s, e))
              && (k in after ==> after[k] == s.target[k])
  {
    var (window, hi) := WindowAt(lookback, s, e);
    var staged := InWindow(Seen(s, e), window);
    StepOfMergedRun(lookback, s, e, window, hi);
    if window.None? {
      ScanReadsAll(Seen(s, e));
    }
    MergeOutcome(staged, s.target, e.batch, e.mode.shed && window.None? && e.fault != ShedRaised);
    BatchKeys(staged, e.batch);
    forall r <- staged | r.pk == k ensures AtMost(r.rank, e.batch[k].rank) {
      assert r in All(staged) && NotOlder(e.batch, r);
    }
  }

  /** A failed run leaves the watermark; one that failed before its MERGE leaves the target too. */
  lemma FailedRunKeeps(lookback: int, s: Lake, e: Event)
    requires e.Run? && e.fault != Clean
    ensures Step(lookback, s, e).watermark == s.watermark
    ensures e.fault == BuildRaised ==> Step(lookback, s, e).target == s.target
    ensures e.fault == ShedRaised ==> s.target.Keys <= Step(lookback, s, e).target.Keys
  {
  }

  /**
    Replay: a run that failed anywhere is absorbed by the next clean run of the same mode, which leaves what it
    would have left had the failed one only seen its rows land. (A first capped run is left out: its window starts
    at the oldest row, and rows may have landed below that.)
   */
  lemma RetryAbsorbsFailure(lookback: int, s: Lake, e: Event, f: Event)
    requires e.Run? && f.Run? && e.fault != Clean && f.fault == Clean && f.mode == e.mode
    requires OnClock(s) && (s.watermark.Some? || e.mode.cap <= 0 || !e.mode.active || e.mode.fullRefresh)
    requires Enabled(lookback, s, e) && Enabled(lookback, Step(lookback, s, e), f)
    ensures Step(lookback, Step(lookback, s, e), f) == Step(lookback, Step(lookback, s, Arrive(Landing(e))), f)
  {
    var s1, s2 := Step(lookback, s, e), Step(lookback, s, Arrive(Landing(e)));
    assert s2 == s.(source := s1.source) by {
      assert Seen(s, e) == s.source + Landing(e);
    }
    if e.fault == BuildRaised {
      assert s1 == s2;
    } else {
      var (window, hi) := WindowAt(lookback, s, e);
      var (window1, hi1) := WindowAt(lookback, s1, f);
      RetryReadsMore(lookback, s, e, f);
      StepOfMergedRun(lookback, s, e, window, hi);
      StepOfMergedRun(lookback, s1, f, window1, hi1);
      StepOfMergedRun(lookback, s2, f, window1, hi1);
      MergeAbsorbs(s.target, e.batch, f.batch, e.mode.shed && window.None? && e.fault != ShedRaised,
                   f.mode.shed && window1.None?);
    }
  }

  lemma MergeAbsorbs(target: map<string, Row>, first: map<string, Row>, second: map<string, Row>, a: bool, b: bool)
    requires first.Keys <= second.Keys && (a ==> b)
    ensures Merged(Merged(target, first, a), second, b) == Merged(target, second, b)
  {
    if !b || second == map[] {
      assert target + first + second == target + second;
    }
  }

  lemma RetryReadsMore(lookback: int, s: Lake, e: Event, f: Event)
    requires e.Run? && f.Run? && e.fault in {ShedRaised, NotAdvanced} && f.fault == Clean && f.mode == e.mode
    requires OnClock(s) && (s.watermark.Some? || e.mode.cap <= 0 || !e.mode.active || e.mode.fullRefresh)
    requires Enabled(lookback, s, e) && Enabled(lookback, Step(lookback, s, e), f)
    ensures e.batch.Keys <= f.batch.Keys
    ensures WindowAt(lookback, s, e).0.None? <==> WindowAt(lookback, Step(lookback, s, e), f).0.None?
  {
    var s1 := Step(lookback, s, e);
    var w, w1 := WindowAt(lookback, s, e).0, WindowAt(lookback, s1, f).0;
    FullScans(lookback, s, e);
    FullScans(lookback, s1, f);
    WindowsOverlap(lookback, s, e, f);
    BatchKeys(InWindow(Seen(s, e), w), e.batch);
    BatchKeys(InWindow(Seen(s1, f), w1), f.batch);
    forall k <- e.batch ensures k in f.batch {
      var r :| r in InWindow(Seen(s, e), w) && r.pk == k;
      assert r in InWindow(Seen(s1, f), w1);
    }
  }

  lemma WindowsOverlap(lookback: int, s: Lake, e: Event, f: Event)
    requires e.Run? && f.Run? && e.fault in {ShedRaised, NotAdvanced} && f.mode == e.mode && OnClock(s)
    requires s.watermark.Some? || e.mode.cap <= 0 || !e.mode.active || e.mode.fullRefresh
    ensures var s1 := Step(lookback, s, e);
            forall r <- Seen(s, e) | Admits(WindowAt(lookback, s, e).0, r.ts) ::
              r in Seen(s1, f) && Admits(WindowAt(lookback, s1, f).0, r.ts)
    ensures s.watermark.Some? ==> Live(s, e) != [] && Live(Step(lookback, s, e), f) != []
  {
    var s1 := Step(lookback, s, e);
    assert s1.source == s.source + (e.beforeWindow + e.beforeRead) && s1.watermark == s.watermark;
    MaxGrows(s.source, e.beforeWindow + e.beforeRead);
  }

  function RunAll(lookback: int, s: Lake, events: seq<Event>): Lake
    decreases |events|
  {
    if events == [] then s else RunAll(lookback, Step(lookback, s, events[0]), events[1..])
  }

  /** The rows an event lets land. */
  function Landing(e: Event): seq<Row> {
    if e.Arrive? then e.rows else e.beforeWindow + e.beforeRead
  }

  /**
    No row lands further behind the watermark than the lookback margin; while a window is being read, none
    lands below its lower edge.
   */
  ghost predicate InTime(lookback: int, s: Lake, e: Event) {
    && (s.watermark.Some? ==> forall r <- Landing(e) :: r.ts >= LowerEdge(lookback, s.watermark.value))
    && (e.Run? && WindowAt(lookback, s, e).0.Some? ==>
          forall r <- e.beforeRead :: r.ts >= WindowAt(lookback, s, e).0.value.lo)
  }

  ghost predicate TraceOk(lookback: int, s: Lake, events: seq<Event>)
    decreases |events|
  {
    events == [] || (Enabled(lookback, s, events[0]) && InTime(lookback, s, events[0])
                     && TraceOk(lookback, Step(lookback, s, events[0]), events[1..]))
  }

  lemma RunAllKeepsSource(lookback: int, s: Lake, events: seq<Event>)
    ensures forall r <- s.source :: r in RunAll(lookback, s, events).source
    decreases |events|
  {
    if events != [] {
      RunAllKeepsSource(lookback, Step(lookback, s, events[0]), events[1..]);
    }
  }

  // ---- Windows that hold their winners ------------------------------------------------------------

  /** The window reads a row of the key that `r` does not outrank. */
  predicate HeldIn(seen: seq<Row>, w: Window, r: Row) {
    exists t <- seen :: t.pk == r.pk && Admits(Some(w), t.ts) && AtMost(r.rank, t.rank)
  }

  /** Of every key that the window reads, it reads a row that none of the folded rows outside it outranks. */
  ghost predicate HoldsAgainst(folded: iset<Row>, seen: seq<Row>, w: Window) {
    forall r, s | r in folded && s in seen && r.pk == s.pk && !Admits(Some(w), r.ts) && Admits(Some(w), s.ts) ::
      HeldIn(seen, w, r)
  }

  /** Of every key that the window reads, it reads a row that no row below the window outranks. */
  ghost predicate WindowHolds(seen: seq<Row>, w: Window) {
    HoldsAgainst(BelowEdge(seen, w.lo), seen, w)
  }

  /** With ranks that follow the clock every window does. */
  lemma ClockOrderHolds(seen: seq<Row>, w: Window)
    requires ClockOrdered(seen)
    ensures WindowHolds(seen, w)
  {
    forall r, s | r in seen && s in seen && r.pk == s.pk && r.ts < w.lo && Admits(Some(w), s.ts)
      ensures HeldIn(seen, w, r)
    {
      assert AtMost(r.rank, s.rank);
    }
  }

  /** Ranks follow the clock when they start with the window column. */
  lemma ClockFirstIsOrdered(rows: seq<Row>)
    requires forall r <- rows :: r.rank != [] && r.rank[0] == r.ts
    ensures ClockOrdered(rows)
  {
  }

  /** No folded row outranks the batch's row of its key exactly when the window holds its winners against them. */
  lemma WindowWinsItsKeys(folded: iset<Row>, seen: seq<Row>, w: Window, batch: map<string, Row>)
    requires LatestPerPk(All(InWindow(seen, Some(w))), batch) && forall r <- folded :: r in seen
    ensures (forall r <- folded :: r.pk in batch ==> AtMost(r.rank, batch[r.pk].rank)) <==>
            HoldsAgainst(folded, seen, w)
  {
    var read := InWindow(seen, Some(w));
    if HoldsAgainst(folded, seen, w) {
      forall r <- folded | r.pk in batch ensures AtMost(r.rank, batch[r.pk].rank) {
        WinnerIsHeld(folded, seen, w, batch, r);
      }
    }
    if forall r <- folded :: r.pk in batch ==> AtMost(r.rank, batch[r.pk].rank) {
      forall r, s | r in folded && s in seen && r.pk == s.pk && !Admits(Some(w), r.ts) && Admits(Some(w), s.ts)
        ensures HeldIn(seen, w, r)
      {
        assert s in read && NotOlder(batch, s);
        assert batch[r.pk] in read;
      }
    }
  }

  lemma WinnerIsHeld(folded: iset<Row>, seen: seq<Row>, w: Window, batch: map<string, Row>, r: Row)
    requires HoldsAgainst(folded, seen, w) && LatestPerPk(All(InWindow(seen, Some(w))), batch)
    requires r in folded && r in seen && r.pk in batch
    ensures AtMost(r.rank, batch[r.pk].rank)
  {
    var s := batch[r.pk];
    assert s in InWindow(seen, Some(w));
    if Admits(Some(w), r.ts) {
      assert r in InWindow(seen, Some(w)) && NotOlder(batch, r);
    } else {
      assert HeldIn(seen, w, r);
      var t :| t in seen && t.pk == r.pk && Admits(Some(w), t.ts) && AtMost(r.rank, t.rank);
      assert t in InWindow(seen, Some(w)) && NotOlder(batch, t);
      AtMostTransitive(r.rank, t.rank, s.rank);
    }
  }

  /**
    A windowed run over any folded rows, a full scan's included: it leaves the fold of those rows and the ones
    it read exactly when its window holds its winners against them.
   */
  lemma WindowedRunExact(lookback: int, s: Lake, e: Event, folded: iset<Row>, w: Window)
    requires e.Run? && e.fault != BuildRaised && Enabled(lookback, s, e) && WindowAt(lookback, s, e).0 == Some(w)
    requires LatestPerPk(folded, s.target) && forall r <- folded :: r in Seen(s, e)
    ensures LatestPerPk(folded + All(InWindow(Seen(s, e), Some(w))), Step(lookback, s, e).target) <==>
            HoldsAgainst(folded, Seen(s, e), w)
  {
    WindowWinsItsKeys(folded, Seen(s, e), w, e.batch);
    WindowMergeExact(folded, s.target, All(InWindow(Seen(s, e), Some(w))), e.batch);
  }

  /** Of settled rows only those below the window are outside it. */
  lemma SameHolding(folded: iset<Row>, seen: seq<Row>, w: Window)
    requires forall r <- folded :: r in seen && r.ts < w.hi
    requires forall r <- seen :: r.ts < w.lo ==> r in folded
    ensures HoldsAgainst(folded, seen, w) <==> WindowHolds(seen, w)
  {
  }

  /** The window of a merged run, if it reads one, holds its winners. */
  ghost predicate RunHolds(lookback: int, s: Lake, e: Event) {
    e.Run? && e.fault != BuildRaised && WindowAt(lookback, s, e).0.Some? ==>
      WindowHolds(Seen(s, e), WindowAt(lookback, s, e).0.value)
  }

  /** The windows of all merged runs hold their winners. */
  ghost predicate TraceHolds(lookback: int, s: Lake, events: seq<Event>)
    decreases |events|
  {
    events == [] || (RunHolds(lookback, s, events[0])
                     && TraceHolds(lookback, Step(lookback, s, events[0]), events[1..]))
  }

  // ---- Any mix of runs ---------------------------------------------------------------------------

  /** The watermark is on the source's clock. */
  predicate OnClock(s: Lake) {
    s.watermark.Some? ==> MaxTs(s.source).Some? && s.watermark.value <= MaxTs(s.source).value
  }

  /** Moreover every row below the next window is accounted for. */
  ghost predicate Safe(lookback: int, s: Lake) {
    && OnClock(s)
    && (s.watermark.Some? ==>
          forall r <- s.source :: r.ts < LowerEdge(lookback, s.watermark.value) ==> NotOlder(s.target, r))
  }

  ghost predicate AtLeast(a: Option<int>, b: Option<int>) {
    b.Some? ==> a.Some? && a.value >= b.value
  }

  lemma MaxGrows(rows: seq<Row>, more: seq<Row>)
    ensures AtLeast(MaxTs(rows + more), MaxTs(rows))
  {
    if rows != [] {
      var r := NewestRow(rows);
      assert r in rows + more;
    }
  }

  /** What a merged run whose window holds its winners leaves: every row below its upper edge is covered. */
  lemma MergeCovers(lookback: int, s: Lake, e: Event, r: Row)
    requires e.Run? && e.fault != BuildRaised && Enabled(lookback, s, e) && InTime(lookback, s, e)
    requires Safe(lookback, s) && RunHolds(lookback, s, e) && r in Seen(s, e)
    requires WindowAt(lookback, s, e).0.Some? ==> r.ts < WindowAt(lookback, s, e).0.value.hi
    ensures NotOlder(Step(lookback, s, e).target, r)
  {
    var (window, hi) := WindowAt(lookback, s, e);
    var staged := InWindow(Seen(s, e), window);
    if Admits(window, r.ts) {
      assert r in All(staged);
    } else {
      assert r in s.source && s.watermark.Some? by {
        assert r in Live(s, e);
      }
      assert NotOlder(s.target, r);
      if r.pk in e.batch {
        WinnerIsHeld(BelowEdge(Seen(s, e), window.value.lo), Seen(s, e), window.value, e.batch, r);
      }
    }
  }

  /** After a merged run no row it saw below its upper edge is later than the target row of its key. */
  ghost predicate RunCovers(lookback: int, s: Lake, e: Event) {
    e.Run? && e.fault != BuildRaised ==>
      forall r <- Seen(s, e) ::
        (WindowAt(lookback, s, e).0.Some? ==> r.ts < WindowAt(lookback, s, e).0.value.hi) ==>
          NotOlder(Step(lookback, s, e).target, r)
  }

  /** A run of any mode covers exactly when its window, if it reads one, holds its winners. */
  lemma MergeCoversExactly(lookback: int, s: Lake, e: Event)
    requires Enabled(lookback, s, e) && InTime(lookback, s, e) && Safe(lookback, s)
    ensures RunCovers(lookback, s, e) <==> RunHolds(lookback, s, e)
  {
    if e.Run? && e.fault != BuildRaised {
      var window := WindowAt(lookback, s, e).0;
      if RunHolds(lookback, s, e) {
        forall r <- Seen(s, e) | window.Some? ==> r.ts < window.value.hi
          ensures NotOlder(Step(lookback, s, e).target, r)
        {
          MergeCovers(lookback, s, e, r);
        }
      }
      if RunCovers(lookback, s, e) && window.Some? {
        CoveredIsHeld(lookback, s, e, window.value);
      }
    }
  }

  lemma CoveredIsHeld(lookback: int, s: Lake, e: Event, w: Window)
    requires e.Run? && e.fault != BuildRaised && Enabled(lookback, s, e) && WindowAt(lookback, s, e).0 == Some(w)
    requires forall r <- Seen(s, e) :: r.ts < w.hi ==> NotOlder(Step(lookback, s, e).target, r)
    ensures WindowHolds(Seen(s, e), w)
  {
    var read := InWindow(Seen(s, e), Some(w));
    forall r, t | r in Seen(s, e) && t in Seen(s, e) && r.pk == t.pk && r.ts < w.lo && Admits(Some(w), t.ts)
      ensures HeldIn(Seen(s, e), w, r)
    {
      assert t in read && NotOlder(e.batch, t);
      assert e.batch[r.pk] in read && NotOlder(Step(lookback, s, e).target, r);
    }
  }

  /** The upper edges of a window never exceed the source's clock nor fall below the watermark. */
  lemma EdgesOnClock(lookback: int, s: Lake, e: Event)
    requires e.Run? && OnClock(s)
    ensures var (window, hi) := WindowAt(lookback, s, e);
            && (hi.Some? ==> AtLeast(MaxTs(Seen(s, e)), hi) && AtLeast(hi, s.watermark))
            && (window.Some? ==> hi == Some(window.value.hi))
            && (window.Some? && s.watermark.Some? ==> window.value.lo == LowerEdge(lookback, s.watermark.value))
  {
    MaxGrows(s.source, e.beforeWindow);
    MaxGrows(Live(s, e), e.beforeRead);
  }

  lemma SourceGrows(lookback: int, s: Lake, e: Event)
    ensures Step(lookback, s, e).source == Seen(s, e)
    ensures AtLeast(MaxTs(Seen(s, e)), MaxTs(s.source))
    ensures forall r <- Seen(s, e) :: r in s.source || r in Landing(e)
  {
    assert Seen(s, e) == s.source + Landing(e);
    MaxGrows(s.source, Landing(e));
  }

  /** No event of any kind moves the watermark back, or past the source's clock. */
  lemma WatermarkForward(lookback: int, s: Lake, e: Event)
    requires OnClock(s)
    ensures AtLeast(Step(lookback, s, e).watermark, s.watermark)
    ensures OnClock(Step(lookback, s, e))
  {
    SourceGrows(lookback, s, e);
    if e.Run? {
      EdgesOnClock(lookback, s, e);
    }
  }

  /**
    The watermark never goes back on an append-only source: whatever lands when, however rows are ranked,
    whatever a build stages, in any mix of modes and faults.
   */
  lemma {:induction false} RunsKeepWatermark(lookback: int, s: Lake, events: seq<Event>)
    requires OnClock(s)
    ensures AtLeast(RunAll(lookback, s, events).watermark, s.watermark) && OnClock(RunAll(lookback, s, events))
    decreases |events|
  {
    if events != [] {
      WatermarkForward(lookback, s, events[0]);
      RunsKeepWatermark(lookback, Step(lookback, s, events[0]), events[1..]);
    }
  }

  /** After a completed run every row it saw below the new watermark is covered. */
  lemma CompletedRunCovers(lookback: int, s: Lake, e: Event, r: Row)
    requires e.Run? && e.fault == Clean && Enabled(lookback, s, e) && InTime(lookback, s, e)
    requires Safe(lookback, s) && RunHolds(lookback, s, e) && r in Seen(s, e)
    requires Step(lookback, s, e).watermark.Some? && r.ts < Step(lookback, s, e).watermark.value
    ensures NotOlder(Step(lookback, s, e).target, r)
  {
    EdgesOnClock(lookback, s, e);
    MergeCovers(lookback, s, e, r);
  }

  /** A run cut short covers at least what the next window will not read. */
  lemma CutShortCovers(lookback: int, s: Lake, e: Event, r: Row)
    requires e.Run? && e.fault in {ShedRaised, NotAdvanced} && Enabled(lookback, s, e) && InTime(lookback, s, e)
    requires Safe(lookback, s) && RunHolds(lookback, s, e) && r in Seen(s, e)
    requires s.watermark.Some? && r.ts < LowerEdge(lookback, s.watermark.value)
    ensures NotOlder(Step(lookback, s, e).target, r)
  {
    EdgesOnClock(lookback, s, e);
    MergeCovers(lookback, s, e, r);
  }

  lemma StepKeepsSafe(lookback: int, s: Lake, e: Event)
    requires Enabled(lookback, s, e) && InTime(lookback, s, e)
    requires Safe(lookback, s) && RunHolds(lookback, s, e)
    ensures Safe(lookback, Step(lookback, s, e))
  {
    var s' := Step(lookback, s, e);
    WatermarkForward(lookback, s, e);
    SourceGrows(lookback, s, e);
    if s'.watermark.Some? {
      forall r <- s'.source | r.ts < LowerEdge(lookback, s'.watermark.value) ensures NotOlder(s'.target, r) {
        if e.Arrive? || e.fault == BuildRaised {
          assert r in s.source;
        } else if e.fault == Clean {
          CompletedRunCovers(lookback, s, e, r);
        } else {
          CutShortCovers(lookback, s, e, r);
        }
      }
    }
  }

  lemma {:induction false} RunsKeepSafe(lookback: int, s: Lake, events: seq<Event>)
    requires TraceOk(lookback, s, events) && Safe(lookback, s) && TraceHolds(lookback, s, events)
    ensures Safe(lookback, RunAll(lookback, s, events))
    ensures AtLeast(RunAll(lookback, s, events).watermark, s.watermark)
    decreases |events|
  {
    RunsKeepWatermark(lookback, s, events);
    if events != [] {
      StepKeepsSafe(lookback, s, events[0]);
      RunsKeepSafe(lookback, Step(lookback, s, events[0]), events[1..]);
    }
  }

  /** All merged runs cover what they saw. */
  ghost predicate TraceCovers(lookback: int, s: Lake, events: seq<Event>)
    decreases |events|
  {
    events == [] || (RunCovers(lookback, s, events[0])
                     && TraceCovers(lookback, Step(lookback, s, events[0]), events[1..]))
  }

  /**
    Never older, exactly: over any mix of full refreshes, windowed runs of any cap, raising builds and failed
    watermark writes, every run leaves in the target, for every key, a row at least as late as each one it saw
    below its upper edge if and only if every window holds its winners.
   */
  lemma {:induction false} MixedRunsExact(lookback: int, s: Lake, events: seq<Event>)
    requires TraceOk(lookback, s, events) && Safe(lookback, s)
    ensures TraceCovers(lookback, s, events) <==> TraceHolds(lookback, s, events)
    decreases |events|
  {
    if events != [] {
      MergeCoversExactly(lookback, s, events[0]);
      if RunHolds(lookback, s, events[0]) {
        StepKeepsSafe(lookback, s, events[0]);
        MixedRunsExact(lookback, Step(lookback, s, events[0]), events[1..]);
      }
    }
  }

  /**
    Any mix of full refreshes, windowed runs of any cap, raising builds and failed watermark writes, from a
    job's first run on: the watermark never goes back; and where the windows hold their winners, after a
    completed run the target row of every key is at least as late as each row of that key the run saw below the
    new watermark.
   */
  lemma MixedRunSafety(lookback: int, s: Lake, events: seq<Event>, e: Event)
    requires s.watermark.None? && TraceOk(lookback, s, events)
    requires var s1 := RunAll(lookback, s, events); Enabled(lookback, s1, e) && InTime(lookback, s1, e)
    ensures var s1 := RunAll(lookback, s, events);
            var s2 := Step(lookback, s1, e);
            && AtLeast(s2.watermark, s1.watermark)
            && (TraceHolds(lookback, s, events) && RunHolds(lookback, s1, e)
                && e.Run? && e.fault == Clean && s2.watermark.Some? ==>
                  forall r <- s2.source :: r.ts < s2.watermark.value ==> NotOlder(s2.target, r))
  {
    var s1 := RunAll(lookback, s, events);
    var s2 := Step(lookback, s1, e);
    SourceGrows(lookback, s1, e);
    RunsKeepWatermark(lookback, s, events);
    WatermarkForward(lookback, s1, e);
    if TraceHolds(lookback, s, events) && RunHolds(lookback, s1, e)
       && e.Run? && e.fault == Clean && s2.watermark.Some? {
      RunsKeepSafe(lookback, s, events);
      forall r <- s2.source | r.ts < s2.watermark.value ensures NotOlder(s2.target, r) {
        CompletedRunCovers(lookback, s1, e, r);
      }
    }
  }

  lemma {:induction false} ClockOrderHoldsAlways(lookback: int, s: Lake, events: seq<Event>)
    requires ClockOrdered(RunAll(lookback, s, events).source)
    ensures TraceHolds(lookback, s, events)
    decreases |events|
  {
    if events != [] {
      var e, s' := events[0], Step(lookback, s, events[0]);
      RunAllKeepsSource(lookback, s', events[1..]);
      SourceGrows(lookback, s, e);
      if e.Run? && WindowAt(lookback, s, e).0.Some? {
        ClockOrderHolds(Seen(s, e), WindowAt(lookback, s, e).0.value);
      }
      ClockOrderHoldsAlways(lookback, s', events[1..]);
    }
  }

  /** With ranks that follow the clock the windows hold their winners, so mixed runs are never older. */
  lemma ClockOrderedMixedRuns(lookback: int, s: Lake, events: seq<Event>)
    requires TraceOk(lookback, s, events) && Safe(lookback, s) && ClockOrdered(RunAll(lookback, s, events).source)
    ensures TraceCovers(lookback, s, events) && Safe(lookback, RunAll(lookback, s, events))
  {
    ClockOrderHoldsAlways(lookback, s, events);
    RunsKeepSafe(lookback, s, events);
    MixedRunsExact(lookback, s, events);
  }

  // ---- Purely incremental runs refine the full fold ------------------------------------------------

  ghost predicate Incremental(m: Mode) {
    m.active && !m.fullRefresh
  }

  /** The upper edge the next run would use if nothing landed. */
  function NextEdge(cap: int, s: Lake): int
    requires s.source != []
  {
    var newest := MaxTs(s.source).value;
    if cap <= 0 then newest
    else Min(newest, cap + match s.watermark case Some(w) => w case None => MinTs(s.source).value)
  }

  /**
    The target is the fold of the first `n` source rows below `edge`; the rows behind them have landed
    since, no earlier than the next window's lower edge.
   */
  ghost predicate Settled(lookback: int, cap: int, s: Lake, n: nat, edge: int) {
    && n <= |s.source|
    && LatestPerPk(BelowEdge(s.source[..n], edge), s.target)
    && (s.source != [] ==> edge <= NextEdge(cap, s))
    && (s.watermark.Some? ==>
          && n > 0 && s.watermark.value <= edge
          && forall i | n <= i < |s.source| :: s.source[i].ts >= LowerEdge(lookback, s.watermark.value))
  }

  /**
    What the refinement asks of arrivals beyond the margin: before the first watermark nothing lands below
    the oldest row, and the first rows do not land between a window and its read (a run that finds no row for
    its window scans everything).
   */
  ghost predicate Orderly(s: Lake, e: Event) {
    && (s.watermark.None? && s.source != [] ==> forall r <- Landing(e) :: r.ts >= MinTs(s.source).value)
    && (e.Run? ==> Live(s, e) != [] || e.beforeRead == [])
  }

  /** Each run of the trace reads a window: a first run needs the cap, or else it would scan everything. */
  ghost predicate IncrementalEvent(lookback: int, m: Mode, s: Lake, e: Event) {
    && Enabled(lookback, s, e) && InTime(lookback, s, e) && Orderly(s, e)
    && (e.Run? ==> e.mode == m && (m.cap > 0 || s.watermark.Some?))
  }

  lemma MinKept(rows: seq<Row>, more: seq<Row>)
    requires rows != [] && forall r <- more :: r.ts >= MinTs(rows).value
    ensures MinTs(rows + more) == MinTs(rows)
  {
    var before := OldestRow(rows);
    var after := OldestRow(rows + more);
    assert before in rows + more;
    assert after in rows || after in more;
  }

  /** What landing rows must respect for the refinement to go on. */
  ghost predicate LandsOrderly(lookback: int, s: Lake, more: seq<Row>) {
    && (s.watermark.Some? ==> forall r <- more :: r.ts >= LowerEdge(lookback, s.watermark.value))
    && (s.watermark.None? && s.source != [] ==> forall r <- more :: r.ts >= MinTs(s.source).value)
  }

  /** Arrivals only move the next upper edge forward. */
  lemma NextEdgeForward(lookback: int, cap: int, s: Lake, more: seq<Row>)
    requires s.source != [] && LandsOrderly(lookback, s, more)
    ensures NextEdge(cap, s.(source := s.source + more)) >= NextEdge(cap, s)
  {
    MaxGrows(s.source, more);
    if s.watermark.None? {
      MinKept(s.source, more);
    }
  }

  /** Rows that only landed do not disturb the settled prefix. */
  lemma LandingKeepsSettled(lookback: int, cap: int, s: Lake, n: nat, edge: int, more: seq<Row>) returns (edge': int)
    requires Settled(lookback, cap, s, n, edge) && LandsOrderly(lookback, s, more)
    ensures Settled(lookback, cap, s.(source := s.source + more), n, edge')
  {
    var s' := s.(source := s.source + more);
    assert s'.source[..n] == s.source[..n];
    edge' := edge;
    if s.source != [] {
      NextEdgeForward(lookback, cap, s, more);
    } else {
      edge' := if s'.source == [] then edge else NextEdge(cap, s');
      assert BelowEdge(s.source[..n], edge) == BelowEdge(s'.source[..n], edge');
    }
  }

  /** The window of a purely incremental run: it starts at the margin (or the oldest row) and reaches the next edge. */
  lemma IncrementalWindow(lookback: int, m: Mode, s: Lake, n: nat, edge: int, e: Event) returns (w: Window)
    requires Incremental(m) && Settled(lookback, m.cap, s, n, edge) && IncrementalEvent(lookback, m, s, e) && e.Run?
    requires Live(s, e) != []
    ensures WindowAt(lookback, s, e) == (Some(w), Some(w.hi))
    ensures s.watermark.Some? ==> w.lo == LowerEdge(lookback, s.watermark.value)
    ensures s.watermark.None? ==> w.lo == MinTs(Live(s, e)).value
    ensures s.source != [] ==> edge <= w.hi
    ensures AtLeast(MaxTs(Seen(s, e)), Some(w.hi))
    ensures m.cap > 0 ==> m.cap + (match s.watermark case Some(wm) => wm case None => w.lo) >= w.hi
  {
    w := WindowAt(lookback, s, e).0.value;
    MaxGrows(s.source, e.beforeWindow);
    MaxGrows(Live(s, e), e.beforeRead);
    if s.watermark.None? && s.source != [] {
      MinKept(s.source, e.beforeWindow);
    }
  }

  /** Every row below the upper edge is either read by the window or already folded. */
  lemma NothingSkipped(lookback: int, m: Mode, s: Lake, n: nat, edge: int, e: Event, w: Window)
    requires Incremental(m) && Settled(lookback, m.cap, s, n, edge) && IncrementalEvent(lookback, m, s, e) && e.Run?
    requires Live(s, e) != [] && WindowAt(lookback, s, e) == (Some(w), Some(w.hi))
    requires s.watermark.Some? ==> w.lo == LowerEdge(lookback, s.watermark.value)
    requires s.watermark.None? ==> w.lo == MinTs(Live(s, e)).value
    requires s.source != [] ==> edge <= w.hi
    ensures BelowEdge(s.source[..n], edge) + All(InWindow(Seen(s, e), Some(w))) == BelowEdge(Seen(s, e), w.hi)
  {
    forall r <- Seen(s, e) | r.ts < w.lo ensures r in s.source[..n] && r.ts < edge {
      assert r in Live(s, e) && s.watermark.Some?;
      assert r in s.source;
      var i :| 0 <= i < |s.source| && s.source[i] == r;
      assert i < n;
    }
  }

  /**
    One purely incremental run leaves the fold of every row it saw below its upper edge exactly when its
    window holds its winners: only then does the re-scanned margin neither lose nor regress a row.
   */
  lemma IncrementalRunFolds(lookback: int, m: Mode, s: Lake, n: nat, edge: int, e: Event, w: Window)
    requires Incremental(m) && Settled(lookback, m.cap, s, n, edge) && IncrementalEvent(lookback, m, s, e)
    requires e.Run? && e.fault != BuildRaised
    requires WindowAt(lookback, s, e) == (Some(w), Some(w.hi)) && (s.source != [] ==> edge <= w.hi)
    requires BelowEdge(s.source[..n], edge) + All(InWindow(Seen(s, e), Some(w))) == BelowEdge(Seen(s, e), w.hi)
    ensures LatestPerPk(BelowEdge(Seen(s, e), w.hi), Step(lookback, s, e).target) <==> WindowHolds(Seen(s, e), w)
  {
    var before, read := BelowEdge(s.source[..n], edge), All(InWindow(Seen(s, e), Some(w)));
    forall r <- Seen(s, e) | r.ts < w.lo ensures r in before {
      assert (r in before + read || r.ts >= w.hi) && r !in read;
      assert r.ts >= w.hi ==> r !in BelowEdge(Seen(s, e), w.hi);
    }
    SameHolding(before, Seen(s, e), w);
    WindowedRunExact(lookback, s, e, before, w);
  }

  /** A merged run leaves the fold of the rows it saw below its upper edge. */
  ghost predicate RunFolds(lookback: int, s: Lake, e: Event) {
    e.Run? && e.fault != BuildRaised && WindowAt(lookback, s, e).0.Some? ==>
      LatestPerPk(BelowEdge(Seen(s, e), WindowAt(lookback, s, e).0.value.hi), Step(lookback, s, e).target)
  }

  lemma IncrementalRunSettles(lookback: int, m: Mode, s: Lake, n: nat, edge: int, e: Event) returns (w: Window)
    requires Incremental(m) && Settled(lookback, m.cap, s, n, edge) && IncrementalEvent(lookback, m, s, e)
    requires e.Run? && e.fault != BuildRaised && Live(s, e) != []
    ensures WindowAt(lookback, s, e) == (Some(w), Some(w.hi))
    ensures RunFolds(lookback, s, e) <==> RunHolds(lookback, s, e)
    ensures RunHolds(lookback, s, e) ==> Settled(lookback, m.cap, Step(lookback, s, e), |Seen(s, e)|, w.hi)
  {
    w := IncrementalWindow(lookback, m, s, n, edge, e);
    NothingSkipped(lookback, m, s, n, edge, e, w);
    IncrementalRunFolds(lookback, m, s, n, edge, e, w);
    if RunHolds(lookback, s, e) {
      var s' := Step(lookback, s, e);
      assert s'.source == Seen(s, e) && (s'.watermark == Some(w.hi) || s'.watermark == s.watermark);
      assert s.watermark.Some? ==> s.watermark.value <= w.hi;
      assert w.hi <= NextEdge(m.cap, s') by {
        if s.watermark.None? {
          MinKept(Live(s, e), e.beforeRead);
        }
      }
      NewPrefixSettles(lookback, m.cap, s', w.hi);
    }
  }

  /** A run that finds the source still empty changes nothing. */
  lemma EmptyRunIsIdle(lookback: int, m: Mode, s: Lake, n: nat, edge: int, e: Event)
    requires Incremental(m) && Settled(lookback, m.cap, s, n, edge) && IncrementalEvent(lookback, m, s, e)
    requires e.Run? && Live(s, e) == []
    ensures Step(lookback, s, e) == s && s.target == map[] && WindowAt(lookback, s, e).0.None?
  {
    assert s.source == Live(s, e) == Seen(s, e) == [];
    assert BelowEdge(s.source[..n], edge) == iset{} && All(InWindow(Seen(s, e), None)) == iset{};
    if e.fault != BuildRaised {
      assert e.batch == map[] && s.target + e.batch == s.target;
    }
  }

  /** After a merged run the whole source is the settled prefix. */
  lemma NewPrefixSettles(lookback: int, cap: int, s: Lake, hi: int)
    requires s.source != [] && hi <= NextEdge(cap, s) && (s.watermark.Some? ==> s.watermark.value <= hi)
    requires LatestPerPk(BelowEdge(s.source, hi), s.target)
    ensures Settled(lookback, cap, s, |s.source|, hi)
  {
  }

  /** The runs of a purely incremental trace, with arrivals and faults in between. */
  ghost predicate IncrementalTrace(lookback: int, m: Mode, s: Lake, events: seq<Event>)
    decreases |events|
  {
    events == [] || (IncrementalEvent(lookback, m, s, events[0])
                     && IncrementalTrace(lookback, m, Step(lookback, s, events[0]), events[1..]))
  }

  /** All merged runs leave the fold. */
  ghost predicate TraceFolds(lookback: int, s: Lake, events: seq<Event>)
    decreases |events|
  {
    events == [] || (RunFolds(lookback, s, events[0])
                     && TraceFolds(lookback, Step(lookback, s, events[0]), events[1..]))
  }

  lemma IncrementalStepSettles(lookback: int, m: Mode, s: Lake, n: nat, edge: int, e: Event)
    returns (n': nat, edge': int)
    requires Incremental(m) && Settled(lookback, m.cap, s, n, edge) && IncrementalEvent(lookback, m, s, e)
    ensures RunFolds(lookback, s, e) <==> RunHolds(lookback, s, e)
    ensures RunHolds(lookback, s, e) ==> Settled(lookback, m.cap, Step(lookback, s, e), n', edge')
  {
    n', edge' := n, edge;
    if e.Arrive? || e.fault == BuildRaised {
      assert Seen(s, e) == s.source + Landing(e);
      edge' := LandingKeepsSettled(lookback, m.cap, s, n, edge, Landing(e));
    } else if Live(s, e) == [] {
      EmptyRunIsIdle(lookback, m, s, n, edge, e);
    } else {
      var w := IncrementalRunSettles(lookback, m, s, n, edge, e);
      n', edge' := |Seen(s, e)|, w.hi;
    }
  }

  /** Agreement with the fold survives purely incremental runs, arrivals and faults. */
  lemma {:induction false} IncrementalRunsStaySettled(
        lookback: int, m: Mode, s: Lake, n: nat, edge: int, events: seq<Event>)
    returns (n': nat, edge': int)
    requires Incremental(m) && Settled(lookback, m.cap, s, n, edge) && IncrementalTrace(lookback, m, s, events)
    requires TraceHolds(lookback, s, events)
    ensures Settled(lookback, m.cap, RunAll(lookback, s, events), n', edge')
    decreases |events|
  {
    n', edge' := n, edge;
    if events != [] {
      n', edge' := IncrementalStepSettles(lookback, m, s, n, edge, events[0]);
      n', edge' := IncrementalRunsStaySettled(lookback, m, Step(lookback, s, events[0]), n', edge', events[1..]);
    }
  }

  /**
    When incremental refines full, exactly: over any purely incremental runs, interleaved with arrivals,
    raising builds and failed watermark writes, every run leaves the fold of the rows it saw below its upper
    edge if and only if every window holds its winners.
   */
  lemma {:induction false} IncrementalRunsExact(
        lookback: int, m: Mode, s: Lake, n: nat, edge: int, events: seq<Event>)
    requires Incremental(m) && Settled(lookback, m.cap, s, n, edge) && IncrementalTrace(lookback, m, s, events)
    ensures TraceFolds(lookback, s, events) <==> TraceHolds(lookback, s, events)
    decreases |events|
  {
    if events != [] {
      var n', edge' := IncrementalStepSettles(lookback, m, s, n, edge, events[0]);
      if RunHolds(lookback, s, events[0]) {
        IncrementalRunsExact(lookback, m, Step(lookback, s, events[0]), n', edge', events[1..]);
      }
    }
  }

  lemma ClockOrderedRunFolds(lookback: int, m: Mode, s: Lake, n: nat, edge: int, e: Event) returns (w: Window)
    requires Incremental(m) && Settled(lookback, m.cap, s, n, edge) && IncrementalEvent(lookback, m, s, e)
    requires e.Run? && e.fault != BuildRaised && ClockOrdered(Seen(s, e))
    ensures if Live(s, e) == [] then Step(lookback, s, e) == s && s.target == map[]
            else
              && WindowAt(lookback, s, e) == (Some(w), Some(w.hi))
              && LatestPerPk(BelowEdge(Seen(s, e), w.hi), Step(lookback, s, e).target)
  {
    w := Window(edge, edge);
    if Live(s, e) == [] {
      EmptyRunIsIdle(lookback, m, s, n, edge, e);
    } else {
      w := IncrementalRunSettles(lookback, m, s, n, edge, e);
      ClockOrderHolds(Seen(s, e), w);
    }
  }

  /**
    Incremental refines full. From any state whose target agrees with the fold, after any purely
    incremental runs interleaved with arrivals, raising builds and failed watermark writes, the target
    that a run leaves is the latest-per-key fold of all rows that run saw below its upper edge; a run on a
    source still empty leaves the empty target.
   */
  lemma IncrementalRefinesFold(lookback: int, m: Mode, s0: Lake, n: nat, edge: int, events: seq<Event>, e: Event)
    returns (w: Window)
    requires Incremental(m) && Settled(lookback, m.cap, s0, n, edge)
    requires IncrementalTrace(lookback, m, s0, events)
    requires var s1 := RunAll(lookback, s0, events);
             IncrementalEvent(lookback, m, s1, e) && ClockOrdered(Seen(s1, e))
    requires e.Run? && e.fault != BuildRaised
    ensures var s1 := RunAll(lookback, s0, events);
            if Live(s1, e) == [] then Step(lookback, s1, e) == s1 && s1.target == map[]
            else
              && WindowAt(lookback, s1, e) == (Some(w), Some(w.hi))
              && LatestPerPk(BelowEdge(Seen(s1, e), w.hi), Step(lookback, s1, e).target)
  {
    var s1 := RunAll(lookback, s0, events);
    assert forall r <- s1.source :: r in Seen(s1, e);
    ClockOrderHoldsAlways(lookback, s0, events);
    var n', edge' := IncrementalRunsStaySettled(lookback, m, s0, n, edge, events);
    w := ClockOrderedRunFolds(lookback, m, s1, n', edge', e);
  }

  /** A job that has never run and whose target is empty agrees with the fold of nothing. */
  lemma FirstRunIsSettled(lookback: int, cap: int, source: seq<Row>) returns (edge: int)
    ensures Settled(lookback, cap, Lake(source, map[], None), 0, edge)
  {
    edge := if source == [] then 0 else NextEdge(cap, Lake(source, map[], None));
    assert BelowEdge(source[..0], edge) == iset{};
  }

  // ---- Catch-up --------------------------------------------------------------------------------

  /** A fault-free run of the incremental mode with nothing landing. */
  ghost predicate QuietRun(m: Mode, e: Event) {
    e.Run? && e.mode == m && e.beforeWindow == [] && e.beforeRead == [] && e.fault == Clean
  }

  ghost predicate QuietTrace(lookback: int, m: Mode, s: Lake, events: seq<Event>)
    decreases |events|
  {
    events == [] || (QuietRun(m, events[0]) && Enabled(lookback, s, events[0])
                     && QuietTrace(lookback, m, Step(lookback, s, events[0]), events[1..]))
  }

  lemma QuietStep(lookback: int, m: Mode, s: Lake, e: Event)
    requires Incremental(m) && m.cap > 0 && s.source != [] && QuietRun(m, e)
    ensures Step(lookback, s, e).source == s.source
    ensures Step(lookback, s, e).watermark == Some(NextEdge(m.cap, s))
    ensures WindowAt(lookback, s, e).0.Some? && WindowAt(lookback, s, e).0.value.hi == NextEdge(m.cap, s)
  {
    assert Live(s, e) == s.source == Seen(s, e);
  }

  function StartOf(s: Lake): int
    requires s.source != []
  {
    match s.watermark case Some(w) => w case None => MinTs(s.source).value
  }

  /** The upper edge after `k` capped steps. */
  function Advance(newest: int, start: int, cap: int, k: nat): int
    decreases k
  {
    if k == 0 then start else Advance(newest, Min(newest, start + cap), cap, k - 1)
  }

  lemma {:induction false} AdvanceInSteps(newest: int, start: int, cap: int, k: nat)
    requires cap > 0 && start <= newest
    ensures Advance(newest, start, cap, k) == Min(newest, start + k * cap)
    ensures Advance(newest, start, cap, k) == newest <==> k * cap >= newest - start
    decreases k
  {
    if k > 0 {
      AdvanceInSteps(newest, Min(newest, start + cap), cap, k - 1);
      assert k * cap == cap + (k - 1) * cap;
      assert (k - 1) * cap >= 0;
    }
  }

  lemma QuietTraceUnfolds(lookback: int, m: Mode, s: Lake, events: seq<Event>)
    requires QuietTrace(lookback, m, s, events) && events != []
    ensures QuietRun(m, events[0]) && QuietTrace(lookback, m, Step(lookback, s, events[0]), events[1..])
  {
  }

  lemma RunAllUnfolds(lookback: int, s: Lake, events: seq<Event>)
    requires events != []
    ensures RunAll(lookback, s, events) == RunAll(lookback, Step(lookback, s, events[0]), events[1..])
  {
  }

  lemma CatchUpStep(lookback: int, m: Mode, s: Lake, e: Event, newest: int)
    requires Incremental(m) && m.cap > 0 && s.source != [] && QuietRun(m, e) && MaxTs(s.source) == Some(newest)
    ensures var s' := Step(lookback, s, e);
            s'.source == s.source && s'.watermark == Some(Min(newest, StartOf(s) + m.cap))
  {
    QuietStep(lookback, m, s, e);
  }

  lemma AdvanceUnfolds(newest: int, start: int, cap: int, k: nat)
    requires k > 0
    ensures Advance(newest, start, cap, k) == Advance(newest, Min(newest, start + cap), cap, k - 1)
    ensures k == 1 ==> Advance(newest, start, cap, k) == Min(newest, start + cap)
  {
  }

  /** The watermark after `k` more runs over a fixed source: it advances by the cap and stops at the newest row. */
  lemma {:induction false} CatchUpFrom(lookback: int, m: Mode, s: Lake, events: seq<Event>, newest: int, start: int)
    requires Incremental(m) && m.cap > 0 && s.source != [] && QuietTrace(lookback, m, s, events)
    requires MaxTs(s.source) == Some(newest) && start == StartOf(s)
    ensures events != [] ==>
              RunAll(lookback, s, events).watermark == Some(Advance(newest, start, m.cap, |events|))
    ensures events == [] ==> RunAll(lookback, s, events).watermark == s.watermark
    decreases |events|
  {
    if events != [] {
      QuietTraceUnfolds(lookback, m, s, events);
      CatchUpStep(lookback, m, s, events[0], newest);
      RunAllUnfolds(lookback, s, events);
      AdvanceUnfolds(newest, start, m.cap, |events|);
      CatchUpFrom(lookback, m, Step(lookback, s, events[0]), events[1..], newest, Min(newest, start + m.cap));
    }
  }

  lemma OldestBeforeNewest(rows: seq<Row>)
    requires rows != []
    ensures MinTs(rows).value <= MaxTs(rows).value
  {
  }

  /**
    Catch-up over a fixed source: after k runs the watermark is min(newest, oldest + k * cap), and it stands
    at the newest row exactly when k * cap spans the source, however wide the gaps between rows are.
   */
  lemma CatchUp(lookback: int, m: Mode, s: Lake, events: seq<Event>, oldest: int, newest: int)
    requires Incremental(m) && m.cap > 0 && s.watermark.None? && events != [] && QuietTrace(lookback, m, s, events)
    requires MinTs(s.source) == Some(oldest) && MaxTs(s.source) == Some(newest)
    ensures var reached := RunAll(lookback, s, events).watermark;
            && reached == Some(Min(newest, oldest + |events| * m.cap))
            && (reached == Some(newest) <==> |events| * m.cap >= newest - oldest)
  {
    OldestBeforeNewest(s.source);
    CatchUpFrom(lookback, m, s, events, newest, oldest);
    AdvanceInSteps(newest, oldest, m.cap, |events|);
  }

  lemma QuietTraceIsIncremental(lookback: int, m: Mode, s: Lake, events: seq<Event>)
    requires Incremental(m) && m.cap > 0 && s.source != [] && QuietTrace(lookback, m, s, events)
    ensures IncrementalTrace(lookback, m, s, events)
    ensures RunAll(lookback, s, events).source == s.source
    decreases |events|
  {
    if events != [] {
      QuietStep(lookback, m, s, events[0]);
      QuietTraceIsIncremental(lookback, m, Step(lookback, s, events[0]), events[1..]);
    }
  }

  /** A fault-free run over a fixed source from a settled state folds it up to the next edge. */
  lemma QuietRunFolds(lookback: int, m: Mode, s: Lake, n: nat, edge: int, e: Event)
    requires Incremental(m) && m.cap > 0 && s.source != [] && QuietRun(m, e) && Enabled(lookback, s, e)
    requires Settled(lookback, m.cap, s, n, edge) && ClockOrdered(s.source)
    ensures LatestPerPk(BelowEdge(s.source, NextEdge(m.cap, s)), Step(lookback, s, e).target)
    ensures Settled(lookback, m.cap, Step(lookback, s, e), |s.source|, NextEdge(m.cap, s))
  {
    assert Live(s, e) == s.source == Seen(s, e);
    QuietStep(lookback, m, s, e);
    var w := IncrementalRunSettles(lookback, m, s, n, edge, e);
    ClockOrderHolds(s.source, w);
  }

  /**
    Caught up is a fixpoint: once the watermark stands at the newest row, another run changes neither the
    watermark nor (without rank ties) the target, which is the fold of the rows strictly below the newest.
   */
  lemma CaughtUpIsFixpoint(lookback: int, m: Mode, s0: Lake, events: seq<Event>, e: Event, f: Event)
    requires Incremental(m) && m.cap > 0 && s0.source != [] && ClockOrdered(s0.source) && TieFree(s0.source)
    requires s0.target == map[] && s0.watermark.None? && QuietTrace(lookback, m, s0, events)
    requires var s1 := RunAll(lookback, s0, events);
             var s2 := Step(lookback, s1, e);
             && QuietRun(m, e) && Enabled(lookback, s1, e) && s2.watermark == MaxTs(s0.source)
             && QuietRun(m, f) && Enabled(lookback, s2, f)
    ensures var s2 := Step(lookback, RunAll(lookback, s0, events), e);
            LatestPerPk(BelowEdge(s0.source, MaxTs(s0.source).value), s2.target) && Step(lookback, s2, f) == s2
  {
    QuietTraceIsIncremental(lookback, m, s0, events);
    var s1 := RunAll(lookback, s0, events);
    var first := FirstRunIsSettled(lookback, m.cap, s0.source);
    ClockOrderHoldsAlways(lookback, s0, events);
    var n, edge := IncrementalRunsStaySettled(lookback, m, s0, 0, first, events);
    QuietStep(lookback, m, s1, e);
    QuietRunFolds(lookback, m, s1, n, edge, e);
    var s2 := Step(lookback, s1, e);
    assert NextEdge(m.cap, s1) == NextEdge(m.cap, s2) == MaxTs(s0.source).value;
    QuietStep(lookback, m, s2, f);
    QuietRunFolds(lookback, m, s2, |s1.source|, NextEdge(m.cap, s1), f);
    LatestIsUnique(s0.source, MaxTs(s0.source).value, s2.target, Step(lookback, s2, f).target);
  }

  // ---- Where the protocol falls short ------------------------------------------------------------

  /**
    A full scan folds the row at the newest timestamp, a windowed run does not read it: the windowed run
    that follows puts the key's older row back. The state after mixed runs is therefore not the fold.
   */
  lemma FullThenIncrementalRegresses(older: Row, newest: Row, lookback: int, m: Mode)
    requires older.pk == newest.pk && older.ts < newest.ts && Below(older.rank, newest.rank)
    requires Incremental(m) && lookback >= newest.ts - older.ts && lookback > 0
    ensures var source := [older, newest];
            var full := Run(Mode(false, false, 0, false), [], [], map[newest.pk := newest], Clean);
            var windowed := Run(m, [], [], map[older.pk := older], Clean);
            var s0 := Lake(source, map[], None);
            && Enabled(lookback, s0, full) && Enabled(lookback, Step(lookback, s0, full), windowed)
            && RunAll(lookback, s0, [full, windowed]).target == map[older.pk := older]
            && LatestPerPk(All(source), Step(lookback, s0, full).target)
            && !LatestPerPk(All(source), RunAll(lookback, s0, [full, windowed]).target)
  {
    var source := [older, newest];
    var full := Run(Mode(false, false, 0, false), [], [], map[newest.pk := newest], Clean);
    var windowed := Run(m, [], [], map[older.pk := older], Clean);
    var s0 := Lake(source, map[], None);
    TwoRows(older, newest);
    FullScanOfTwo(older, newest, lookback, full, s0);
    WindowOfTwo(older, newest, lookback, m, windowed, Step(lookback, s0, full));
    RunAllUnfolds(lookback, s0, [full, windowed]);
    RunAllUnfolds(lookback, Step(lookback, s0, full), [windowed]);
  }

  lemma TwoRows(older: Row, newest: Row)
    requires older.ts < newest.ts
    ensures MaxTs([older, newest]) == Some(newest.ts)
  {
  }

  lemma FullScanOfTwo(older: Row, newest: Row, lookback: int, full: Event, s0: Lake)
    requires older.pk == newest.pk && older.ts < newest.ts && Below(older.rank, newest.rank)
    requires s0 == Lake([older, newest], map[], None)
    requires full == Run(Mode(false, false, 0, false), [], [], map[newest.pk := newest], Clean)
    ensures Enabled(lookback, s0, full)
    ensures Step(lookback, s0, full) == Lake([older, newest], map[newest.pk := newest], Some(newest.ts))
    ensures LatestPerPk(All(s0.source), Step(lookback, s0, full).target)
  {
    TwoRows(older, newest);
    assert Seen(s0, full) == [older, newest];
  }

  lemma WindowOfTwo(older: Row, newest: Row, lookback: int, m: Mode, windowed: Event, s1: Lake)
    requires older.pk == newest.pk && older.ts < newest.ts && Below(older.rank, newest.rank)
    requires Incremental(m) && lookback >= newest.ts - older.ts && lookback > 0
    requires s1 == Lake([older, newest], map[newest.pk := newest], Some(newest.ts))
    requires windowed == Run(m, [], [], map[older.pk := older], Clean)
    ensures Enabled(lookback, s1, windowed)
    ensures Step(lookback, s1, windowed).target == map[older.pk := older]
    ensures !LatestPerPk(All(s1.source), Step(lookback, s1, windowed).target)
  {
    TwoRows(older, newest);
    assert Live(s1, windowed) == Seen(s1, windowed) == s1.source;
    BelowAsymmetric(older.rank, newest.rank);
    assert newest in s1.source && !NotOlder(map[older.pk := older], newest);
  }

  lemma EdgesOf(rows: seq<Row>, first: Row, last: Row)
    requires first in rows && last in rows && forall r <- rows :: first.ts <= r.ts <= last.ts
    ensures MinTs(rows) == Some(first.ts) && MaxTs(rows) == Some(last.ts)
  {
    var o := OldestRow(rows);
    var n := NewestRow(rows);
  }

  lemma ThreeEvents(lookback: int, m: Mode, s0: Lake, s1: Lake, s2: Lake, e0: Event, e1: Event, e2: Event)
    requires IncrementalEvent(lookback, m, s0, e0) && Step(lookback, s0, e0) == s1
    requires IncrementalEvent(lookback, m, s1, e1) && Step(lookback, s1, e1) == s2
    requires IncrementalEvent(lookback, m, s2, e2)
    ensures IncrementalTrace(lookback, m, s0, [e0, e1, e2])
    ensures RunAll(lookback, s0, [e0, e1, e2]) == Step(lookback, s2, e2)
  {
    assert [e0, e1, e2][1..] == [e1, e2] && [e1, e2][1..] == [e2] && [e2][1..] == [];
    assert IncrementalTrace(lookback, m, s2, [e2]) && RunAll(lookback, s2, [e2]) == Step(lookback, s2, e2);
    assert IncrementalTrace(lookback, m, s1, [e1, e2]) && RunAll(lookback, s1, [e1, e2]) == Step(lookback, s2, e2);
  }

  lemma OutrankedTarget(older: Row, newer: Row, s: Lake)
    requires older in s.source && s.watermark.Some? && older.ts < s.watermark.value && Below(newer.rank, older.rank)
    requires older.pk in s.target && s.target[older.pk] == newer
    ensures !LatestPerPk(BelowEdge(s.source, s.watermark.value), s.target)
  {
    BelowAsymmetric(newer.rank, older.rank);
    assert !NotOlder(s.target, older);
  }

  /** A clean run with nothing landing, from the window it reads. */
  lemma QuietRunOver(lookback: int, m: Mode, s: Lake, w: Window, batch: map<string, Row>)
    requires Incremental(m) && m.cap > 0 && s.source != []
    requires WindowOf(m, lookback, s.source, s.watermark, MaxTs(s.source)) == (Some(w), Some(w.hi))
    requires LatestPerPk(All(InWindow(s.source, Some(w))), batch)
    ensures var e := Run(m, [], [], batch, Clean);
            IncrementalEvent(lookback, m, s, e) && Step(lookback, s, e) == Lake(s.source, s.target + batch, Some(w.hi))
  {
    var e := Run(m, [], [], batch, Clean);
    assert Live(s, e) == Seen(s, e) == s.source && Landing(e) == [];
  }

  lemma FirstWindow(lookback: int, m: Mode, source: seq<Row>, oldest: int, newest: int, batch: map<string, Row>)
    requires Incremental(m) && m.cap > 0 && m.cap >= newest - oldest
    requires MinTs(source) == Some(oldest) && MaxTs(source) == Some(newest)
    requires LatestPerPk(All(InWindow(source, Some(Window(oldest, newest)))), batch)
    ensures var first := Run(m, [], [], batch, Clean);
            && IncrementalEvent(lookback, m, Lake(source, map[], None), first)
            && Step(lookback, Lake(source, map[], None), first) == Lake(source, batch, Some(newest))
  {
    QuietRunOver(lookback, m, Lake(source, map[], None), Window(oldest, newest), batch);
    assert map[] + batch == batch;
  }

  lemma NextWindow(
        lookback: int, m: Mode, source: seq<Row>, target: map<string, Row>, wm: int, newest: int,
        batch: map<string, Row>)
    requires Incremental(m) && m.cap > 0 && MaxTs(source) == Some(newest) && wm < newest
    requires var w := Window(LowerEdge(lookback, wm), Min(newest, wm + m.cap));
             LatestPerPk(All(InWindow(source, Some(w))), batch)
    requires target.Keys <= batch.Keys
    ensures var second := Run(m, [], [], batch, Clean);
            && IncrementalEvent(lookback, m, Lake(source, target, Some(wm)), second)
            && Step(lookback, Lake(source, target, Some(wm)), second) ==
               Lake(source, batch, Some(Min(newest, wm + m.cap)))
  {
    var w := Window(LowerEdge(lookback, wm), Min(newest, wm + m.cap));
    QuietRunOver(lookback, m, Lake(source, target, Some(wm)), w, batch);
    assert target + batch == batch;
  }

  /** Two windows with one arrival between them, the second of which brings `newer` over `older`. */
  lemma WindowsInTurn(lookback: int, m: Mode, source: seq<Row>, last: Row, oldest: int, wm: int,
        b1: map<string, Row>, b2: map<string, Row>, older: Row, newer: Row)
    requires Incremental(m) && m.cap > 0 && m.cap >= wm - oldest && wm < last.ts
    requires MinTs(source) == Some(oldest) && MaxTs(source) == Some(wm) && MaxTs(source + [last]) == Some(last.ts)
    requires LatestPerPk(All(InWindow(source, Some(Window(oldest, wm)))), b1)
    requires var w := Window(LowerEdge(lookback, wm), Min(last.ts, wm + m.cap));
             LatestPerPk(All(InWindow(source + [last], Some(w))), b2)
    requires b1.Keys <= b2.Keys && older in source && older.pk in b2 && b2[older.pk] == newer
    requires Below(newer.rank, older.rank)
    ensures var s0 := Lake(source, map[], None);
            var events := [Run(m, [], [], b1, Clean), Arrive([last]), Run(m, [], [], b2, Clean)];
            var s2 := RunAll(lookback, s0, events);
            && IncrementalTrace(lookback, m, s0, events) && s2.target == b2
            && s2.watermark.Some? && !LatestPerPk(BelowEdge(s2.source, s2.watermark.value), s2.target)
  {
    FirstWindow(lookback, m, source, oldest, wm, b1);
    NextWindow(lookback, m, source + [last], b1, wm, last.ts, b2);
    var s1 := Lake(source, b1, Some(wm));
    ThreeEvents(lookback, m, Lake(source, map[], None), s1, s1.(source := source + [last]),
                Run(m, [], [], b1, Clean), Arrive([last]), Run(m, [], [], b2, Clean));
    OutrankedTarget(older, newer, Lake(source + [last], b2, Some(Min(last.ts, wm + m.cap))));
  }

  lemma WindowInFront(older: Row, newer: Row, other: Row)
    requires older.pk == newer.pk != other.pk && older.ts < newer.ts <= other.ts && Below(newer.rank, older.rank)
    ensures var source := [older, newer, other];
            && MinTs(source) == Some(older.ts) && MaxTs(source) == Some(other.ts)
            && LatestPerPk(All(InWindow(source, Some(Window(older.ts, other.ts)))), map[older.pk := older])
  {
    var source := [older, newer, other];
    assert source[0] == older && source[2] == other;
    EdgesOf(source, older, other);
    assert older in InWindow(source, Some(Window(older.ts, other.ts)));
  }

  lemma WindowBehind(source: seq<Row>, older: Row, newer: Row, other: Row, last: Row, w: Window)
    requires older.ts < w.lo == newer.ts <= other.ts < w.hi <= last.ts && newer.pk != other.pk
    requires forall r :: r in source <==> r == older || r == newer || r == other || r == last
    ensures MaxTs(source) == Some(last.ts)
    ensures LatestPerPk(All(InWindow(source, Some(w))), map[newer.pk := newer, other.pk := other])
  {
    EdgesOf(source, older, last);
    LatestOfTwo(InWindow(source, Some(w)), newer, other);
  }

  lemma LatestOfTwo(rows: seq<Row>, a: Row, b: Row)
    requires a.pk != b.pk && forall r :: r in rows <==> r == a || r == b
    ensures LatestPerPk(All(rows), map[a.pk := a, b.pk := b])
  {
  }

  lemma MembersOfFour(a: Row, b: Row, c: Row, d: Row)
    ensures forall r :: r in [a, b, c] + [d] <==> r == a || r == b || r == c || r == d
  {
    var rows := [a, b, c] + [d];
    assert rows[0] == a && rows[1] == b && rows[2] == c && rows[3] == d;
  }

  /**
    A job whose rank does not follow the window column (an order by event time under an arrival-time window)
    regresses on purely incremental runs from its very first run on, whatever the lookback: a later arrival
    that is outranked replaces the row that outranks it, once the window has moved between the two.
   */
  lemma RankOffClockRegresses(older: Row, newer: Row, other: Row, last: Row, lookback: int, m: Mode)
    requires older.pk == newer.pk != other.pk && older.ts < newer.ts && Below(newer.rank, older.rank)
    requires other.ts == newer.ts + Max(lookback, 0) < last.ts
    requires Incremental(m) && m.cap >= other.ts - older.ts
    ensures var s0 := Lake([older, newer, other], map[], None);
            var first := Run(m, [], [], map[older.pk := older], Clean);
            var second := Run(m, [], [], map[newer.pk := newer, other.pk := other], Clean);
            var s2 := RunAll(lookback, s0, [first, Arrive([last]), second]);
            && IncrementalTrace(lookback, m, s0, [first, Arrive([last]), second])
            && s2.target == map[newer.pk := newer, other.pk := other]
            && s2.watermark.Some? && !LatestPerPk(BelowEdge(s2.source, s2.watermark.value), s2.target)
  {
    var hi := Min(last.ts, other.ts + m.cap);
    WindowInFront(older, newer, other);
    MembersOfFour(older, newer, other, last);
    WindowBehind([older, newer, other] + [last], older, newer, other, last, Window(newer.ts, hi));
    assert older == [older, newer, other][0];
    WindowsInTurn(lookback, m, [older, newer, other], last, older.ts, other.ts,
                  map[older.pk := older], map[newer.pk := newer, other.pk := other], older, newer);
  }

  /** A row that lands below the margin is not read by the next window and stays out of the target. */
  lemma LateRowIsSkipped(lookback: int, m: Mode, s: Lake, late: Row, batch: map<string, Row>)
    requires Incremental(m) && s.watermark.Some? && s.source != []
    requires late.ts < LowerEdge(lookback, s.watermark.value) && late.pk !in s.target
    requires forall r <- s.source :: r.pk != late.pk
    requires var e := Run(m, [late], [], batch, Clean); Enabled(lookback, s, e)
    ensures late.pk !in Step(lookback, s, Run(m, [late], [], batch, Clean)).target
  {
    var e := Run(m, [late], [], batch, Clean);
    var window := WindowAt(lookback, s, e).0;
    assert window.Some? && window.value.lo == LowerEdge(lookback, s.watermark.value);
    forall k <- batch ensures k != late.pk {
      assert batch[k] in InWindow(Seen(s, e), window);
    }
  }
}
