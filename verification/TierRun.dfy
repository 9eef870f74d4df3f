/**
  One tier of the transform: which jobs a lane runs and in which order, and how repeated passes over the
  soft jobs converge.
 */
module TierRun {
  import opened Options

  // ---- Which jobs run -----------------------------------------------------------------------

  datatype Lane = All | Fast | Heavy

  /** Required jobs abort the tier, ordered jobs run once, the rest run in every pass. */
  datatype Plan = Plan(required: seq<string>, ordered: seq<string>, rest: seq<string>)

  function Filter(jobs: seq<string>, keep: string -> bool): seq<string> {
    if jobs == [] then [] else (if keep(jobs[0]) then [jobs[0]] else []) + Filter(jobs[1..], keep)
  }

  function InLane(lane: Lane, heavy: set<string>): string -> bool {
    match lane
    case All => (j: string) => true
    case Fast => (j: string) => j !in heavy
    case Heavy => (j: string) => j in heavy
  }

  predicate Hidden(job: string) {
    job != "" && job[0] == '_'
  }

  /**
    The plan of a tier over its sorted directory listing. The skip set is computed from the lists that the
    lane has already filtered; `owned` are the jobs another writer owns (empty unless core-only).
   */
  function PlanOf(required: seq<string>, ordered: seq<string>, listing: seq<string>,
        lane: Lane, heavy: set<string>, owned: set<string>): Plan
  {
    var required' := Filter(required, InLane(lane, heavy));
    var ordered' := Filter(ordered, InLane(lane, heavy));
    var rest := Filter(listing, (j: string) => j !in required' && j !in ordered' && j !in owned && !Hidden(j));
    Plan(required', ordered', Filter(rest, InLane(lane, heavy)))
  }

  lemma {:induction false} FilterMembers(jobs: seq<string>, keep: string -> bool)
    ensures forall j :: j in Filter(jobs, keep) <==> j in jobs && keep(j)
  {
    if jobs != [] {
      FilterMembers(jobs[1..], keep);
      assert jobs == [jobs[0]] + jobs[1..];
    }
  }

  lemma {:induction false} FilterTwice(jobs: seq<string>, p: string -> bool, q: string -> bool, r: string -> bool)
    requires forall j <- jobs :: r(j) <==> p(j) && q(j)
    ensures Filter(Filter(jobs, p), q) == Filter(jobs, r)
  {
    if jobs != [] {
      FilterTwice(jobs[1..], p, q, r);
      assert jobs[0] in jobs;
      var inner := Filter(jobs[1..], p);
      if p(jobs[0]) {
        assert Filter(jobs, p) == [jobs[0]] + inner;
        assert ([jobs[0]] + inner)[1..] == inner;
      } else {
        assert Filter(jobs, p) == inner;
      }
    }
  }

  lemma LaneParts(required: seq<string>, ordered: seq<string>, listing: seq<string>,
        lane: Lane, heavy: set<string>, owned: set<string>)
    ensures var all := PlanOf(required, ordered, listing, All, heavy, owned);
            var mine := PlanOf(required, ordered, listing, lane, heavy, owned);
            && mine.required == Filter(all.required, InLane(lane, heavy))
            && mine.ordered == Filter(all.ordered, InLane(lane, heavy))
            && mine.rest == Filter(all.rest, InLane(lane, heavy))
  {
    var keep := InLane(lane, heavy);
    var any := InLane(All, heavy);
    FilterTwice(required, any, keep, keep);
    FilterTwice(ordered, any, keep, keep);
    var required', ordered' := Filter(required, keep), Filter(ordered, keep);
    var requiredAll, orderedAll := Filter(required, any), Filter(ordered, any);
    FilterMembers(required, keep);
    FilterMembers(ordered, keep);
    FilterMembers(required, any);
    FilterMembers(ordered, any);
    var free := (j: string) => j !in required' && j !in ordered' && j !in owned && !Hidden(j);
    var freeAll := (j: string) => j !in requiredAll && j !in orderedAll && j !in owned && !Hidden(j);
    var both := (j: string) => freeAll(j) && keep(j);
    FilterTwice(listing, free, keep, both);
    FilterTwice(listing, freeAll, any, freeAll);
    FilterTwice(listing, freeAll, keep, both);
  }

  lemma {:induction false} FilterSplits(jobs: seq<string>, heavy: set<string>)
    ensures multiset(Filter(jobs, InLane(Fast, heavy))) + multiset(Filter(jobs, InLane(Heavy, heavy))) == multiset(jobs)
  {
    if jobs != [] {
      FilterSplits(jobs[1..], heavy);
      assert jobs == [jobs[0]] + jobs[1..];
    }
  }

  lemma LaneHolds(jobs: seq<string>, heavy: set<string>)
    ensures forall j <- Filter(jobs, InLane(Fast, heavy)) :: j !in heavy
    ensures forall j <- Filter(jobs, InLane(Heavy, heavy)) :: j in heavy
  {
  }

  /**
    The fast and the heavy lane split the plan of lane `all`: every job keeps its role, and together the two
    lanes run it as often as lane `all` does.
   */
  lemma LanesPartition(required: seq<string>, ordered: seq<string>, listing: seq<string>,
        heavy: set<string>, owned: set<string>)
    ensures var all := PlanOf(required, ordered, listing, All, heavy, owned);
            var fast := PlanOf(required, ordered, listing, Fast, heavy, owned);
            var slow := PlanOf(required, ordered, listing, Heavy, heavy, owned);
            && multiset(fast.required) + multiset(slow.required) == multiset(all.required)
            && multiset(fast.ordered) + multiset(slow.ordered) == multiset(all.ordered)
            && multiset(fast.rest) + multiset(slow.rest) == multiset(all.rest)
  {
    var all := PlanOf(required, ordered, listing, All, heavy, owned);
    LaneParts(required, ordered, listing, Fast, heavy, owned);
    LaneParts(required, ordered, listing, Heavy, heavy, owned);
    FilterSplits(all.required, heavy);
    FilterSplits(all.ordered, heavy);
    FilterSplits(all.rest, heavy);
  }

  /** No job is in both lanes: the fast lane runs no heavy job and the heavy lane nothing else. */
  lemma LanesAreDisjoint(required: seq<string>, ordered: seq<string>, listing: seq<string>,
        heavy: set<string>, owned: set<string>)
    ensures var fast := PlanOf(required, ordered, listing, Fast, heavy, owned);
            forall j | j in fast.required || j in fast.ordered || j in fast.rest :: j !in heavy
    ensures var slow := PlanOf(required, ordered, listing, Heavy, heavy, owned);
            forall j | j in slow.required || j in slow.ordered || j in slow.rest :: j in heavy
  {
    var all := PlanOf(required, ordered, listing, All, heavy, owned);
    LaneParts(required, ordered, listing, Fast, heavy, owned);
    LaneParts(required, ordered, listing, Heavy, heavy, owned);
    LaneHolds(all.required, heavy);
    LaneHolds(all.ordered, heavy);
    LaneHolds(all.rest, heavy);
  }

  /** The soft part of a plan runs every listed job that nothing excludes, and no other. */
  lemma RestIsExact(required: seq<string>, ordered: seq<string>, listing: seq<string>,
        heavy: set<string>, owned: set<string>)
    ensures var plan := PlanOf(required, ordered, listing, All, heavy, owned);
            forall j :: j in plan.rest <==>
                          j in listing && j !in required && j !in ordered && j !in owned && !("_" <= j)
  {
    var any := InLane(All, heavy);
    FilterMembers(required, any);
    FilterMembers(ordered, any);
    var free := (j: string) => j !in Filter(required, any) && j !in Filter(ordered, any) && j !in owned && !Hidden(j);
    FilterMembers(listing, free);
    FilterMembers(Filter(listing, free), any);
  }

  lemma {:induction false} NothingFiltered(jobs: seq<string>, keep: string -> bool)
    requires forall j <- jobs :: keep(j)
    ensures Filter(jobs, keep) == jobs
  {
    if jobs != [] {
      assert jobs[0] in jobs && forall j <- jobs[1..] :: j in jobs;
      NothingFiltered(jobs[1..], keep);
    }
  }

  /** Lane `all` runs the two given lists as they are, and a listing that nothing excludes in its own order. */
  lemma WholePlan(required: seq<string>, ordered: seq<string>, listing: seq<string>,
        heavy: set<string>, owned: set<string>)
    ensures var plan := PlanOf(required, ordered, listing, All, heavy, owned);
            && plan.required == required && plan.ordered == ordered
            && ((forall j <- listing :: j !in required && j !in ordered && j !in owned && !("_" <= j)) ==>
                  plan.rest == listing)
  {
    var any := InLane(All, heavy);
    NothingFiltered(required, any);
    NothingFiltered(ordered, any);
    var free := (j: string) => j !in Filter(required, any) && j !in Filter(ordered, any) && j !in owned && !Hidden(j);
    if forall j <- listing :: j !in required && j !in ordered && j !in owned && !("_" <= j) {
      assert forall j <- listing :: free(j);
      NothingFiltered(listing, free);
    }
    NothingFiltered(Filter(listing, free), any);
  }

  // ---- Running jobs -------------------------------------------------------------------------

  /** A job succeeds exactly when the tables it reads exist, and then its own tables exist. */
  datatype Job = Job(name: string, needs: set<string>, makes: set<string>)

  predicate Succeeds(tables: set<string>, j: Job) {
    j.needs <= tables
  }

  function After(tables: set<string>, j: Job): set<string> {
    if Succeeds(tables, j) then tables + j.makes else tables
  }

  /** The tables in front of job `i` of pass `p`, both counted from zero. */
  function TablesAt(t0: set<string>, jobs: seq<Job>, p: nat, i: nat): set<string>
    requires i <= |jobs|
    decreases p, i
  {
    if i > 0 then After(TablesAt(t0, jobs, p, i - 1), jobs[i - 1])
    else if p > 0 then TablesAt(t0, jobs, p - 1, |jobs|)
    else t0
  }

  predicate SucceedsIn(t0: set<string>, jobs: seq<Job>, p: nat, i: nat)
    requires i < |jobs|
  {
    Succeeds(TablesAt(t0, jobs, p, i), jobs[i])
  }

  /** Failures of the first `i` jobs of pass `p`. */
  function FailuresIn(t0: set<string>, jobs: seq<Job>, p: nat, i: nat): nat
    requires i <= |jobs|
  {
    if i == 0 then 0
    else FailuresIn(t0, jobs, p, i - 1) + if SucceedsIn(t0, jobs, p, i - 1) then 0 else 1
  }

  /** `run_tier` on already planned jobs. `None`: a required job failed and the tier was aborted. */
  method RunTier(t0: set<string>, required: seq<Job>, ordered: seq<Job>, rest: seq<Job>, passes: nat)
    returns (result: Option<nat>, tables: set<string>)
    requires passes >= 1
    ensures result.None? <==> exists i | 0 <= i < |required| :: !SucceedsIn(t0, required, 0, i)
    ensures result.Some? ==>
              var t1 := TablesAt(t0, required, 0, |required|);
              var t2 := TablesAt(t1, ordered, 0, |ordered|);
              && tables == TablesAt(t2, rest, passes - 1, |rest|)
              && result.value == FailuresIn(t1, ordered, 0, |ordered|) + FailuresIn(t2, rest, passes - 1, |rest|)
  {
    tables := t0;
    for i := 0 to |required|
      invariant tables == TablesAt(t0, required, 0, i)
      invariant forall j | 0 <= j < i :: SucceedsIn(t0, required, 0, j)
    {
      if !Succeeds(tables, required[i]) {
        assert !SucceedsIn(t0, required, 0, i);
        return None, tables;
      }
      tables := After(tables, required[i]);
    }
    ghost var t1 := tables;
    var fails := 0;
    for i := 0 to |ordered|
      invariant tables == TablesAt(t1, ordered, 0, i)
      invariant fails == FailuresIn(t1, ordered, 0, i)
    {
      if !Succeeds(tables, ordered[i]) {
        fails := fails + 1;
      }
      tables := After(tables, ordered[i]);
    }
    ghost var t2 := tables;
    var restFails := 0;
    for p := 0 to passes
      invariant tables == if p == 0 then t2 else TablesAt(t2, rest, p - 1, |rest|)
      invariant p > 0 ==> restFails == FailuresIn(t2, rest, p - 1, |rest|)
    {
      restFails := 0;
      assert tables == TablesAt(t2, rest, p, 0);
      for i := 0 to |rest|
        invariant tables == TablesAt(t2, rest, p, i)
        invariant restFails == FailuresIn(t2, rest, p, i)
      {
        if !Succeeds(tables, rest[i]) {
          restFails := restFails + 1;
        }
        tables := After(tables, rest[i]);
      }
    }
    result := Some(fails + restFails);
  }

  /** Each job that fails counts once. */
  lemma {:induction false} FailuresAreCounted(t0: set<string>, jobs: seq<Job>, p: nat, i: nat)
    requires i <= |jobs|
    ensures FailuresIn(t0, jobs, p, i) == |set j | 0 <= j < i && !SucceedsIn(t0, jobs, p, j)|
  {
    if i > 0 {
      FailuresAreCounted(t0, jobs, p, i - 1);
      var before := set j | 0 <= j < i - 1 && !SucceedsIn(t0, jobs, p, j);
      var after := set j | 0 <= j < i && !SucceedsIn(t0, jobs, p, j);
      assert after == if SucceedsIn(t0, jobs, p, i - 1) then before else before + {i - 1};
    }
  }

  lemma {:induction false} NoFailures(t0: set<string>, jobs: seq<Job>, p: nat, i: nat)
    requires i <= |jobs|
    ensures FailuresIn(t0, jobs, p, i) == 0 <==> forall j | 0 <= j < i :: SucceedsIn(t0, jobs, p, j)
  {
    if i > 0 {
      NoFailures(t0, jobs, p, i - 1);
    }
  }

  /** The reported count is zero exactly when every ordered job succeeded and, in the final pass, every soft job. */
  lemma CleanTier(t1: set<string>, t2: set<string>, ordered: seq<Job>, rest: seq<Job>, last: nat)
    ensures FailuresIn(t1, ordered, 0, |ordered|) + FailuresIn(t2, rest, last, |rest|) == 0 <==>
              && (forall i | 0 <= i < |ordered| :: SucceedsIn(t1, ordered, 0, i))
              && (forall i | 0 <= i < |rest| :: SucceedsIn(t2, rest, last, i))
  {
    NoFailures(t1, ordered, 0, |ordered|);
    NoFailures(t2, rest, last, |rest|);
  }

  // ---- Convergence --------------------------------------------------------------------------

  lemma {:induction false} TablesGrowInPass(t0: set<string>, jobs: seq<Job>, p: nat, i: nat, j: nat)
    requires i <= j <= |jobs|
    ensures TablesAt(t0, jobs, p, i) <= TablesAt(t0, jobs, p, j)
    decreases j
  {
    if i < j {
      TablesGrowInPass(t0, jobs, p, i, j - 1);
    }
  }

  lemma {:induction false} TablesGrow(t0: set<string>, jobs: seq<Job>, p: nat, i: nat)
    requires i <= |jobs|
    ensures TablesAt(t0, jobs, p, i) <= TablesAt(t0, jobs, p + 1, i)
    decreases p, i
  {
    TablesGrowInPass(t0, jobs, p, i, |jobs|);
    TablesGrowInPass(t0, jobs, p + 1, 0, i);
    assert TablesAt(t0, jobs, p + 1, 0) == TablesAt(t0, jobs, p, |jobs|);
  }

  /** A job that succeeds in one pass succeeds in the next: the failures only get fewer. */
  lemma FailuresShrink(t0: set<string>, jobs: seq<Job>, p: nat, i: nat)
    requires i < |jobs| && SucceedsIn(t0, jobs, p, i)
    ensures SucceedsIn(t0, jobs, p + 1, i)
  {
    TablesGrow(t0, jobs, p, i);
  }

  predicate WrittenBefore(t0: set<string>, jobs: seq<Job>, p: nat, i: nat, t: string)
    requires i <= |jobs|
  {
    exists j | 0 <= j < i :: t in jobs[j].makes && SucceedsIn(t0, jobs, p, j)
  }

  predicate WrittenAfter(t0: set<string>, jobs: seq<Job>, p: nat, i: nat, t: string)
    requires i <= |jobs|
  {
    exists j | i <= j < |jobs| :: t in jobs[j].makes && SucceedsIn(t0, jobs, p, j)
  }

  /**
    A table is there when it was there at the start, or an earlier job of this pass or a later one of the last
    pass wrote it.
   */
  lemma {:induction false} WhoWrote(t0: set<string>, jobs: seq<Job>, p: nat, i: nat, t: string)
    requires i <= |jobs|
    ensures t in TablesAt(t0, jobs, p, i) <==>
              t in t0 || WrittenBefore(t0, jobs, p, i, t) || (p > 0 && WrittenAfter(t0, jobs, p - 1, i, t))
    decreases p, i
  {
    if i > 0 {
      WhoWrote(t0, jobs, p, i - 1, t);
      if p > 0 && SucceedsIn(t0, jobs, p - 1, i - 1) {
        FailuresShrink(t0, jobs, p - 1, i - 1);
      }
      if p > 0 && WrittenAfter(t0, jobs, p - 1, i, t) {
        assert WrittenAfter(t0, jobs, p - 1, i - 1, t);
      }
    } else if p > 0 {
      WhoWrote(t0, jobs, p - 1, |jobs|, t);
      assert TablesAt(t0, jobs, p, 0) == TablesAt(t0, jobs, p - 1, |jobs|);
      if p > 1 && WrittenAfter(t0, jobs, p - 2, |jobs|, t) {
        assert false;
      }
    }
  }

  /**
    Job `i` has everything it needs with at most `k` waits for the next pass: each table it reads exists at
    the start, or is written by a job sorted before it that is ready with `k` waits, or by one sorted after
    it (or by itself) that is ready with one wait less.
   */
  predicate Ready(t0: set<string>, jobs: seq<Job>, k: nat, i: nat)
    requires i < |jobs|
    decreases k, i
  {
    forall t <- jobs[i].needs ::
      || t in t0
      || (exists j | 0 <= j < i :: t in jobs[j].makes && Ready(t0, jobs, k, j))
      || (k > 0 && exists j | i <= j < |jobs| :: t in jobs[j].makes && Ready(t0, jobs, k - 1, j))
  }

  /** A job succeeds in pass `k + 1` exactly when it is ready with `k` waits. */
  lemma {:induction false} ReadyIsSuccess(t0: set<string>, jobs: seq<Job>, k: nat, i: nat)
    requires i < |jobs|
    ensures SucceedsIn(t0, jobs, k, i) <==> Ready(t0, jobs, k, i)
    decreases k, i
  {
    forall t <- jobs[i].needs
      ensures t in TablesAt(t0, jobs, k, i) <==>
                || t in t0
                || (exists j | 0 <= j < i :: t in jobs[j].makes && Ready(t0, jobs, k, j))
                || (k > 0 && exists j | i <= j < |jobs| :: t in jobs[j].makes && Ready(t0, jobs, k - 1, j))
    {
      WhoWrote(t0, jobs, k, i, t);
      forall j | 0 <= j < i ensures SucceedsIn(t0, jobs, k, j) <==> Ready(t0, jobs, k, j) {
        ReadyIsSuccess(t0, jobs, k, j);
      }
      if k > 0 {
        var last := k - 1;
        forall j | i <= j < |jobs| ensures SucceedsIn(t0, jobs, last, j) <==> Ready(t0, jobs, last, j) {
          ReadyIsSuccess(t0, jobs, last, j);
        }
      }
    }
  }

  // ---- Dependency paths ---------------------------------------------------------------------

  /** Job `j` writes a table that job `i` reads and that does not exist at the start. */
  predicate DependsOn(t0: set<string>, jobs: seq<Job>, i: nat, j: nat) {
    i < |jobs| && j < |jobs| && exists t <- jobs[i].needs :: t !in t0 && t in jobs[j].makes
  }

  predicate IsPath(t0: set<string>, jobs: seq<Job>, path: seq<nat>) {
    && (forall n | 0 <= n < |path| :: path[n] < |jobs|)
    && forall n | 0 <= n < |path| - 1 :: DependsOn(t0, jobs, path[n], path[n + 1])
  }

  /** The readers on a path that are not sorted after the producer that follows. */
  function Waits(path: seq<nat>): nat {
    if |path| < 2 then 0 else (if path[0] <= path[1] then 1 else 0) + Waits(path[1..])
  }

  /** Every table a job reads is there at the start or has a producer. */
  predicate Produced(t0: set<string>, jobs: seq<Job>) {
    forall i | 0 <= i < |jobs| ::
      forall t <- jobs[i].needs :: t in t0 || exists j | 0 <= j < |jobs| :: t in jobs[j].makes
  }

  ghost predicate PathsWithin(t0: set<string>, jobs: seq<Job>, k: nat, i: nat) {
    forall path: seq<nat> | path != [] && path[0] == i && IsPath(t0, jobs, path) :: Waits(path) <= k
  }

  lemma PathsBelow(t0: set<string>, jobs: seq<Job>, k: nat, i: nat, j: nat)
    requires PathsWithin(t0, jobs, k, i) && DependsOn(t0, jobs, i, j)
    ensures j < i ==> PathsWithin(t0, jobs, k, j)
    ensures i <= j ==> k > 0 && PathsWithin(t0, jobs, k - 1, j)
  {
    assert IsPath(t0, jobs, [i, j]) && [i, j][1..] == [j];
    assert i <= j ==> Waits([i, j]) == 1;
    forall path: seq<nat> | path != [] && path[0] == j && IsPath(t0, jobs, path)
      ensures Waits(path) + (if i <= j then 1 else 0) <= k
    {
      var longer := [i] + path;
      assert longer[1..] == path;
      assert IsPath(t0, jobs, longer);
    }
  }

  /**
    When no dependency path from a job has more than `k` readers sorted before their producer, the job
    succeeds in pass `k + 1`. (A dependency cycle has paths with any number of waits.)
   */
  lemma {:induction false} ShortPathsConverge(t0: set<string>, jobs: seq<Job>, k: nat, i: nat)
    requires i < |jobs| && Produced(t0, jobs) && PathsWithin(t0, jobs, k, i)
    ensures SucceedsIn(t0, jobs, k, i)
    decreases k, i
  {
    forall t | t in jobs[i].needs && t !in t0
      ensures (exists j | 0 <= j < i :: t in jobs[j].makes && Ready(t0, jobs, k, j))
              || (k > 0 && exists j | i <= j < |jobs| :: t in jobs[j].makes && Ready(t0, jobs, k - 1, j))
    {
      var j :| 0 <= j < |jobs| && t in jobs[j].makes;
      PathsBelow(t0, jobs, k, i, j);
      if j < i {
        ShortPathsConverge(t0, jobs, k, j);
        ReadyIsSuccess(t0, jobs, k, j);
      } else {
        ShortPathsConverge(t0, jobs, k - 1, j);
        ReadyIsSuccess(t0, jobs, k - 1, j);
      }
    }
    ReadyIsSuccess(t0, jobs, k, i);
  }

  /** No two jobs write the same table. */
  predicate SingleWriter(jobs: seq<Job>) {
    forall i, j | 0 <= i < |jobs| && 0 <= j < |jobs| && i != j :: jobs[i].makes !! jobs[j].makes
  }

  /** With one writer per table the path bound is also necessary. */
  lemma {:induction false} ConvergedPathsAreShort(t0: set<string>, jobs: seq<Job>, k: nat, path: seq<nat>)
    requires SingleWriter(jobs) && path != [] && IsPath(t0, jobs, path)
    requires path[0] < |jobs| && SucceedsIn(t0, jobs, k, path[0])
    ensures Waits(path) <= k
    decreases |path|
  {
    if |path| >= 2 {
      var i, j := path[0], path[1];
      assert DependsOn(t0, jobs, path[0], path[1]) && path[1..][0] == j;
      PathTail(t0, jobs, path);
      NextOnPath(t0, jobs, k, i, j);
      ConvergedPathsAreShort(t0, jobs, if j < i then k else k - 1, path[1..]);
    }
  }

  lemma PathTail(t0: set<string>, jobs: seq<Job>, path: seq<nat>)
    requires |path| >= 2 && IsPath(t0, jobs, path)
    ensures IsPath(t0, jobs, path[1..])
  {
  }

  /** The only producer of what a successful job reads has succeeded in time. */
  lemma NextOnPath(t0: set<string>, jobs: seq<Job>, k: nat, i: nat, j: nat)
    requires SingleWriter(jobs) && DependsOn(t0, jobs, i, j) && SucceedsIn(t0, jobs, k, i)
    ensures j < i ==> SucceedsIn(t0, jobs, k, j)
    ensures i <= j ==> k > 0 && SucceedsIn(t0, jobs, k - 1, j)
  {
    var t :| t in jobs[i].needs && t !in t0 && t in jobs[j].makes;
    WhoWrote(t0, jobs, k, i, t);
    assert forall h | 0 <= h < |jobs| && t in jobs[h].makes :: h == j;
  }
}
