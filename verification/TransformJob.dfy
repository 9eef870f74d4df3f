/** One transform job as it runs: the pinned upper edge, the window, the MERGE and the watermark write. */
module TransformJob {
  import opened Options
  import opened Lexicographic
  import opened IncrementalTransform

  /** The state that a run leaves, part by part, is the step of the protocol. */
  lemma RunIsStep(lookback: int, s: Lake, e: Event, window: Option<Window>, hi: Option<int>, s': Lake)
    requires e.Run? && s'.source == s.source + e.beforeWindow + e.beforeRead
    requires e.fault == BuildRaised ==> s'.target == s.target && s'.watermark == s.watermark
    requires e.fault != BuildRaised ==>
               && WindowOf(e.mode, lookback, s.source + e.beforeWindow, s.watermark, MaxTs(s.source)) == (window, hi)
               && LatestPerPk(All(InWindow(s'.source, window)), e.batch)
               && s'.target == Merged(s.target, e.batch, e.mode.shed && window.None? && e.fault != ShedRaised)
               && s'.watermark == if e.fault == Clean && hi.Some? then hi else s.watermark
    ensures Enabled(lookback, s, e) && s' == Step(lookback, s, e)
  {
    if e.fault != BuildRaised {
      assert WindowAt(lookback, s, e) == (window, hi);
      StepOfMergedRun(lookback, s, e, window, hi);
    }
  }

  /** The INSERT or MERGE and the DELETE of the keys outside a non-empty batch, as one function. */
  lemma MergeIsMerged(before: map<string, Row>, batch: map<string, Row>, deleteOrphans: bool, after: map<string, Row>)
    requires var merged := if |before| == 0 then batch else before + batch;
             after == if deleteOrphans && |batch| > 0 then map k | k in merged && k in batch :: merged[k] else merged
    ensures after == Merged(before, batch, deleteOrphans)
  {
  }

  class Job {
    const lookback: int
    var source: seq<Row>
    var target: map<string, Row>
    var watermark: Option<int>
    /** The process-wide upper edge: set by the runner, capped by the window, cleared at the end. */
    var currentHi: Option<int>

    ghost function State(): Lake
      reads this
    {
      Lake(source, target, watermark)
    }

    constructor (lookback: int, source: seq<Row>)
      ensures this.lookback == lookback && State() == Lake(source, map[], None) && currentHi == None
    {
      this.lookback := lookback;
      this.source := source;
      target := map[];
      watermark := None;
      currentHi := None;
    }

    /** `row_number() OVER (PARTITION BY pk ORDER BY rank DESC) = 1`. */
    method Dedup(staged: seq<Row>) returns (batch: map<string, Row>)
      ensures LatestPerPk(All(staged), batch)
    {
      batch := map[];
      for i := 0 to |staged|
        invariant LatestPerPk(All(staged[..i]), batch)
      {
        var r := staged[i];
        assert staged[..i + 1] == staged[..i] + [r];
        ghost var before := batch;
        if r.pk !in batch || Below(batch[r.pk].rank, r.rank) {
          batch := batch[r.pk := r];
        } else {
          BelowTotal(batch[r.pk].rank, r.rank);
        }
        forall x <- All(staged[..i + 1]) ensures NotOlder(batch, x) {
          if x in staged[..i] {
            assert NotOlder(before, x);
            if batch[x.pk] != before[x.pk] {
              AtMostTransitive(x.rank, before[x.pk].rank, r.rank);
            }
          }
        }
      }
      assert staged[..|staged|] == staged;
    }

    /** An empty target is filled by INSERT, otherwise MERGE; then shed the keys outside a non-empty batch. */
    method MergeOnPk(staged: seq<Row>, deleteOrphans: bool) returns (n: nat, batch: map<string, Row>)
      modifies this`target
      ensures LatestPerPk(All(staged), batch) && n == |batch|
      ensures deleteOrphans && staged != [] ==> LatestPerPk(All(staged), target)
      ensures !deleteOrphans || staged == [] ==>
                && target.Keys == old(target).Keys + batch.Keys
                && forall k <- target :: target[k] == if k in batch then batch[k] else old(target)[k]
      ensures target == Merged(old(target), batch, deleteOrphans)
    {
      batch := Dedup(staged);
      n := |batch|;
      if |target| == 0 {
        target := batch;
      } else {
        target := target + batch;
      }
      if deleteOrphans && n > 0 {
        target := map k | k in target && k in batch :: target[k];
      }
      MergeIsMerged(old(target), batch, deleteOrphans, target);
      MergeOutcome(staged, old(target), batch, deleteOrphans);
    }

    method IncrementalWindow(mode: Mode) returns (window: Option<Window>)
      modifies this`currentHi
      ensures (window, currentHi) == WindowOf(mode, lookback, source, watermark, old(currentHi))
    {
      if !mode.active || mode.fullRefresh || (watermark.None? && mode.cap <= 0) {
        return None;
      }
      var hi := currentHi;
      if hi.None? {
        hi := MaxTs(source);
      }
      if hi.None? {
        return None;
      }
      var edge := hi.value;
      if watermark.None? {
        var lo := MinTs(source);
        if lo.None? {
          return None;
        }
        edge := Min(edge, lo.value + mode.cap);
        currentHi := Some(edge);
        return Some(Window(lo.value, edge));
      }
      if mode.cap > 0 {
        edge := Min(edge, watermark.value + mode.cap);
        currentHi := Some(edge);
      }
      window := Some(Window(LowerEdge(lookback, watermark.value), edge));
    }

    /** Read the window, MERGE, and (when nothing failed) advance the watermark to the pinned edge. */
    method BuildAndAdvance(window: Option<Window>, shedOrphans: bool, fault: Fault)
      returns (upserted: nat, batch: map<string, Row>)
      requires fault != BuildRaised
      modifies this`target, this`watermark
      ensures LatestPerPk(All(InWindow(source, window)), batch) && upserted == |batch|
      ensures target == Merged(old(target), batch, shedOrphans && window.None? && fault != ShedRaised)
      ensures watermark == if fault == Clean && currentHi.Some? then currentHi else old(watermark)
    {
      upserted, batch := MergeOnPk(InWindow(source, window), shedOrphans && window.None? && fault != ShedRaised);
      if fault == Clean && currentHi.Some? {
        watermark := currentHi;
      }
    }

    /**
      One run, with the rows that land before its window and before its read, and the fault it meets.
      Its effect is one step of the protocol; the batch it staged completes the event.
     */
    method RunJob(mode: Mode, beforeWindow: seq<Row>, beforeRead: seq<Row>, fault: Fault)
      returns (upserted: nat, batch: map<string, Row>)
      modifies this
      ensures var e := Run(mode, beforeWindow, beforeRead, batch, fault);
              Enabled(lookback, old(State()), e) && State() == Step(lookback, old(State()), e)
      ensures currentHi == None
      ensures fault != BuildRaised ==> upserted == |batch|
    {
      ghost var before := State();
      currentHi := MaxTs(source);
      source := source + beforeWindow;
      var window := IncrementalWindow(mode);
      ghost var hi := currentHi;
      source := source + beforeRead;
      upserted, batch := 0, map[];
      if fault != BuildRaised {
        upserted, batch := BuildAndAdvance(window, mode.shed, fault);
      }
      currentHi := None;
      RunIsStep(lookback, before, Run(mode, beforeWindow, beforeRead, batch, fault), window, hi,
                Lake(source, target, watermark));
    }
  }
}
