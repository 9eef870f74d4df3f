/**
  The leader protocol of the resident worker: any number of replicas, one Postgres advisory lock.

  An advisory lock belongs to a session, is re-entrant for it and goes away with it. Each replica keeps one
  session, opened when first needed and again after it was lost.
 */
module LeaderLock {
  import opened Options

  type ReplicaId = nat
  type SessionId = nat

  /** `Ticking` is the body of `run_one_tick`; `Releasing` its `finally`; `Resting` the sleep. */
  datatype Phase = Head | Ticking | Releasing | Resting | Gone

  /** `ticks` and `releases` count the leader ticks begun and the release attempts made. */
  datatype Replica = Replica(phase: Phase, session: Option<SessionId>, stopping: bool, ticks: nat, releases: nat)

  /** `live` says whose each open session is; `depth` counts how often the holding session has taken the lock. */
  datatype Cluster = Cluster(
    replicas: map<ReplicaId, Replica>,
    live: map<SessionId, ReplicaId>,
    next: SessionId,
    holder: Option<SessionId>,
    depth: nat)

  /** A round trip: refused before it ran (no connection), answered, or run with the answer lost. */
  datatype Reply = Refused | Answered | AnswerLost

  datatype Event =
    | TryAcquire(r: ReplicaId, reply: Reply)
    | EndTick(r: ReplicaId)
    | Release(r: ReplicaId, reply: Reply)
    | Wake(r: ReplicaId)
    | Stop(r: ReplicaId)
    | Crash(r: ReplicaId)
    | SessionDies(s: SessionId)

  predicate Lives(c: Cluster, r: ReplicaId)
    requires r in c.replicas
  {
    match c.replicas[r].session
    case None => false
    case Some(s) => s in c.live && c.live[s] == r
  }

  function Put(c: Cluster, r: ReplicaId, q: Replica): Cluster {
    c.(replicas := c.replicas[r := q])
  }

  /** The replica's session: the one it has, or a new one. */
  function Connected(c: Cluster, r: ReplicaId): (c': Cluster)
    requires r in c.replicas
    ensures r in c'.replicas && Lives(c', r)
  {
    if Lives(c, r) then c
    else Put(c, r, c.replicas[r].(session := Some(c.next))).(live := c.live[c.next := r], next := c.next + 1)
  }

  /** A session ends and its locks with it. */
  function Closed(c: Cluster, s: SessionId): Cluster {
    c.(live := c.live - {s},
       holder := if c.holder == Some(s) then None else c.holder,
       depth := if c.holder == Some(s) then 0 else c.depth)
  }

  predicate Granted(c: Cluster, s: SessionId) {
    c.holder.None? || c.holder == Some(s)
  }

  /** `pg_try_advisory_lock` */
  function Locked(c: Cluster, s: SessionId): Cluster {
    if Granted(c, s) then c.(holder := Some(s), depth := c.depth + 1) else c
  }

  /** `pg_advisory_unlock` */
  function Unlocked(c: Cluster, s: SessionId): Cluster {
    if c.holder != Some(s) then c
    else c.(holder := if c.depth <= 1 then None else c.holder, depth := if c.depth == 0 then 0 else c.depth - 1)
  }

  function UnlockedOwn(c: Cluster, r: ReplicaId): Cluster
    requires r in c.replicas && Lives(c, r)
  {
    Unlocked(c, c.replicas[r].session.value)
  }

  function Acquire(c: Cluster, r: ReplicaId, reply: Reply): Cluster
    requires r in c.replicas
  {
    if reply.Refused? then Put(c, r, c.replicas[r].(phase := Resting))
    else
      var c1 := Connected(c, r);
      var q := c1.replicas[r];
      var s := q.session.value;
      var leads := reply.Answered? && Granted(c1, s);
      Put(Locked(c1, s), r, if leads then q.(phase := Ticking, ticks := q.ticks + 1) else q.(phase := Resting))
  }

  /** Best effort: whatever happens, the loop goes on. */
  function GiveBack(c: Cluster, r: ReplicaId, reply: Reply): Cluster
    requires r in c.replicas
  {
    var q := c.replicas[r].(phase := Resting, releases := c.replicas[r].releases + 1);
    var c0 := Put(c, r, q);
    if reply.Refused? then c0 else UnlockedOwn(Connected(c0, r), r)
  }

  function Leave(c: Cluster, r: ReplicaId): Cluster
    requires r in c.replicas
  {
    var c' := Put(c, r, c.replicas[r].(phase := Gone));
    if Lives(c, r) then Closed(c', c.replicas[r].session.value) else c'
  }

  /** An event that does not fit the replica's phase changes nothing. */
  function Step(c: Cluster, e: Event): Cluster {
    match e
    case SessionDies(s) => Closed(c, s)
    case Stop(r) => if r in c.replicas then Put(c, r, c.replicas[r].(stopping := true)) else c
    case Crash(r) => if r in c.replicas then Leave(c, r) else c
    case TryAcquire(r, reply) =>
      if r in c.replicas && c.replicas[r].phase.Head? && !c.replicas[r].stopping then Acquire(c, r, reply) else c
    case EndTick(r) =>
      if r in c.replicas && c.replicas[r].phase.Ticking? then Put(c, r, c.replicas[r].(phase := Releasing)) else c
    case Release(r, reply) => if r in c.replicas && c.replicas[r].phase.Releasing? then GiveBack(c, r, reply) else c
    case Wake(r) =>
      if r !in c.replicas || !(c.replicas[r].phase.Resting? || c.replicas[r].phase.Head?) then c
      else if c.replicas[r].stopping then Leave(c, r)
      else Put(c, r, c.replicas[r].(phase := Head))
  }

  function Run(c: Cluster, events: seq<Event>): Cluster
    decreases |events|
  {
    if events == [] then c else Run(Step(c, events[0]), events[1..])
  }

  function Start(ids: set<ReplicaId>): Cluster {
    Cluster(map r | r in ids :: Replica(Head, None, false, 0, 0), map[], 0, None, 0)
  }

  /** A session that ends is gone with its lock, and nothing else changes. */
  lemma DeadSessionHoldsNothing(c: Cluster, s: SessionId)
    ensures var c' := Step(c, SessionDies(s));
            && s !in c'.live && c'.holder != Some(s) && c'.replicas == c.replicas
            && (forall t <- c.live :: t != s ==> t in c'.live && c'.live[t] == c.live[t])
            && (c.holder != Some(s) ==> c'.holder == c.holder && c'.depth == c.depth)
  {
  }

  /** A replica that crashes, or wakes to a stop request, leaves, and its session and its lock with it. */
  lemma LeavingFreesTheLock(c: Cluster, r: ReplicaId)
    requires r in c.replicas
    ensures var c' := Step(c, Crash(r)); c'.replicas[r].phase.Gone? && !Lives(c', r)
    ensures c.replicas[r].stopping && c.replicas[r].phase in {Head, Resting} ==> Step(c, Wake(r)) == Step(c, Crash(r))
    ensures Lives(c, r) && c.holder == c.replicas[r].session ==>
              Step(c, Crash(r)).holder == None && Step(c, Crash(r)).depth == 0
    ensures !Lives(c, r) || c.holder != c.replicas[r].session ==>
              Step(c, Crash(r)).holder == c.holder && Step(c, Crash(r)).depth == c.depth
  {
  }

  // ---- One leader at a time -----------------------------------------------------------------

  /** The server's book-keeping. */
  ghost predicate WellFormed(c: Cluster) {
    && (c.holder.Some? ==> c.holder.value in c.live && c.depth > 0)
    && (c.holder.None? ==> c.depth == 0)
    && (forall s | s in c.live :: s < c.next)
  }

  /** Every ticking replica's own session holds the lock. */
  ghost predicate LeadersHold(c: Cluster) {
    forall r | r in c.replicas && c.replicas[r].phase.Ticking? :: Lives(c, r) && c.holder == c.replicas[r].session
  }

  /** Every leader tick left is matched by a release attempt before anything else of that replica. */
  predicate Balanced(q: Replica) {
    !q.phase.Gone? ==> q.ticks == q.releases + if q.phase.Ticking? || q.phase.Releasing? then 1 else 0
  }

  ghost predicate ReleasesFollow(c: Cluster) {
    forall r | r in c.replicas :: Balanced(c.replicas[r])
  }

  /** The holder's session outlives its tick: it is not the session of a replica that is ticking. */
  ghost predicate OutlivesTick(c: Cluster, e: Event) {
    e.SessionDies? ==> forall r | r in c.replicas && c.replicas[r].phase.Ticking? :: c.replicas[r].session != Some(e.s)
  }

  ghost predicate OutlivesTicks(c: Cluster, events: seq<Event>)
    decreases |events|
  {
    events == [] || (OutlivesTick(c, events[0]) && OutlivesTicks(Step(c, events[0]), events[1..]))
  }

  lemma ConnectedKeeps(c: Cluster, r: ReplicaId)
    requires WellFormed(c) && LeadersHold(c) && r in c.replicas && !c.replicas[r].phase.Ticking?
    ensures WellFormed(Connected(c, r)) && LeadersHold(Connected(c, r))
    ensures Connected(c, r).holder == c.holder && Connected(c, r).replicas[r].phase == c.replicas[r].phase
    ensures forall q | q in c.replicas && q != r :: Connected(c, r).replicas[q] == c.replicas[q]
  {
  }

  lemma AcquireKeeps(c: Cluster, r: ReplicaId, reply: Reply)
    requires WellFormed(c) && LeadersHold(c) && r in c.replicas && c.replicas[r].phase.Head?
    ensures WellFormed(Acquire(c, r, reply)) && LeadersHold(Acquire(c, r, reply))
  {
    if !reply.Refused? {
      ConnectedKeeps(c, r);
      var c1 := Connected(c, r);
      var s := c1.replicas[r].session.value;
      if Granted(c1, s) {
        forall q | q in c1.replicas && c1.replicas[q].phase.Ticking? ensures c1.holder == Some(s) && q == r {
          assert c1.holder == c1.replicas[q].session;
        }
      }
    }
  }

  lemma PutKeeps(c: Cluster, r: ReplicaId, q: Replica)
    requires WellFormed(c) && LeadersHold(c) && r in c.replicas
    requires q.session == c.replicas[r].session && !q.phase.Ticking?
    ensures WellFormed(Put(c, r, q)) && LeadersHold(Put(c, r, q))
  {
  }

  lemma ReconnectAndUnlockKeeps(c: Cluster, r: ReplicaId)
    requires WellFormed(c) && LeadersHold(c) && r in c.replicas && !c.replicas[r].phase.Ticking?
    ensures WellFormed(UnlockedOwn(Connected(c, r), r)) && LeadersHold(UnlockedOwn(Connected(c, r), r))
  {
  }

  lemma GiveBackKeeps(c: Cluster, r: ReplicaId, reply: Reply)
    requires WellFormed(c) && LeadersHold(c) && r in c.replicas && c.replicas[r].phase.Releasing?
    ensures WellFormed(GiveBack(c, r, reply)) && LeadersHold(GiveBack(c, r, reply))
  {
    var q := c.replicas[r].(phase := Resting, releases := c.replicas[r].releases + 1);
    PutKeeps(c, r, q);
    ReconnectAndUnlockKeeps(Put(c, r, q), r);
  }

  lemma CloseKeeps(c: Cluster, s: SessionId)
    requires WellFormed(c) && LeadersHold(c)
    requires forall r | r in c.replicas && c.replicas[r].phase.Ticking? :: c.replicas[r].session != Some(s)
    ensures WellFormed(Closed(c, s)) && LeadersHold(Closed(c, s))
  {
  }

  lemma LeaveKeeps(c: Cluster, r: ReplicaId)
    requires WellFormed(c) && LeadersHold(c) && r in c.replicas
    ensures WellFormed(Leave(c, r)) && LeadersHold(Leave(c, r))
  {
  }

  lemma StepKeepsLeaders(c: Cluster, e: Event)
    requires WellFormed(c) && LeadersHold(c) && OutlivesTick(c, e)
    ensures WellFormed(Step(c, e)) && LeadersHold(Step(c, e))
  {
    match e
    case SessionDies(s) => CloseKeeps(c, s);
    case Stop(_) =>
    case EndTick(_) =>
    case Crash(r) => if r in c.replicas { LeaveKeeps(c, r); }
    case TryAcquire(r, reply) =>
      if r in c.replicas && c.replicas[r].phase.Head? { AcquireKeeps(c, r, reply); }
    case Release(r, reply) =>
      if r in c.replicas && c.replicas[r].phase.Releasing? { GiveBackKeeps(c, r, reply); }
    case Wake(r) => if r in c.replicas { LeaveKeeps(c, r); }
  }

  lemma StepBalances(c: Cluster, e: Event, r: ReplicaId)
    requires r in c.replicas && Balanced(c.replicas[r])
    ensures r in Step(c, e).replicas && Balanced(Step(c, e).replicas[r])
  {
    match e
    case _ =>
  }

  lemma StepKeepsMembers(c: Cluster, e: Event)
    ensures Step(c, e).replicas.Keys == c.replicas.Keys
  {
    match e
    case _ =>
  }

  lemma StepKeepsReleases(c: Cluster, e: Event)
    requires ReleasesFollow(c)
    ensures ReleasesFollow(Step(c, e))
  {
    StepKeepsMembers(c, e);
    forall r | r in Step(c, e).replicas ensures Balanced(Step(c, e).replicas[r]) {
      assert r in c.replicas.Keys;
      StepBalances(c, e, r);
    }
  }

  lemma {:induction false} RunsKeepLeaders(c: Cluster, events: seq<Event>)
    requires WellFormed(c) && LeadersHold(c) && ReleasesFollow(c) && OutlivesTicks(c, events)
    ensures WellFormed(Run(c, events)) && LeadersHold(Run(c, events)) && ReleasesFollow(Run(c, events))
    decreases |events|
  {
    if events != [] {
      StepKeepsLeaders(c, events[0]);
      StepKeepsReleases(c, events[0]);
      RunsKeepLeaders(Step(c, events[0]), events[1..]);
    }
  }

  /**
    Whatever the replicas, crashes, failed ticks, lost answers and stop requests: while sessions outlive the
    ticks run under them, at most one replica is inside a tick; and a live replica has attempted one release
    for each leader tick it has left.
   */
  lemma AtMostOneLeader(ids: set<ReplicaId>, events: seq<Event>, r: ReplicaId, q: ReplicaId)
    requires OutlivesTicks(Start(ids), events)
    ensures var c := Run(Start(ids), events);
            && (r in c.replicas && q in c.replicas && c.replicas[r].phase.Ticking? && c.replicas[q].phase.Ticking? ==>
                  r == q)
            && (r in c.replicas && (c.replicas[r].phase.Head? || c.replicas[r].phase.Resting?) ==>
                  c.replicas[r].ticks == c.replicas[r].releases)
  {
    RunsKeepLeaders(Start(ids), events);
    var c := Run(Start(ids), events);
    if r in c.replicas {
      assert Balanced(c.replicas[r]);
    }
  }

  /**
    An undisturbed round of a leader: it holds the lock during the tick, and afterwards the lock is free for
    any replica's next round.
   */
  lemma UndisturbedRound(c: Cluster, r: ReplicaId)
    requires WellFormed(c) && c.holder.None? && r in c.replicas && c.replicas[r].phase.Head? && !c.replicas[r].stopping
    ensures var c1 := Step(c, TryAcquire(r, Answered));
            var c4 := Step(Step(Step(c1, EndTick(r)), Release(r, Answered)), Wake(r));
            && r in c1.replicas && c1.replicas[r].phase.Ticking?
            && c1.holder.Some? && c1.holder == c1.replicas[r].session
            && c4.holder.None? && c4.depth == 0 && r in c4.replicas && c4.replicas[r].phase.Head?
            && c4.replicas[r].ticks == c.replicas[r].ticks + 1 && c4.replicas[r].releases == c.replicas[r].releases + 1
            && forall q | q in c.replicas && q != r :: q in c4.replicas && c4.replicas[q] == c.replicas[q]
  {
    var c1 := Step(c, TryAcquire(r, Answered));
    assert c1.depth == 1 && Lives(c1, r);
    var c2 := Step(c1, EndTick(r));
    var c3 := Step(c2, Release(r, Answered));
    assert c3.holder.None? && c3.replicas[r].phase.Resting? && !c3.replicas[r].stopping;
  }

  /** While another session holds the lock a round passes without a tick. */
  lemma NotLeaderSkips(c: Cluster, r: ReplicaId, reply: Reply)
    requires WellFormed(c) && r in c.replicas && c.replicas[r].phase.Head? && !c.replicas[r].stopping
    requires c.holder.Some? && (Lives(c, r) ==> c.holder != c.replicas[r].session)
    ensures var c' := Step(c, TryAcquire(r, reply));
            r in c'.replicas && c'.replicas[r].phase.Resting? && c'.holder == c.holder && c'.depth == c.depth
            && c'.replicas[r].ticks == c.replicas[r].ticks
  {
  }

  /**
    While a leader ticks, after any run, the round of any other replica passes without a tick and leaves the
    leader and its lock alone, whether or not the answer comes back.
   */
  lemma LeaderShutsOthersOut(ids: set<ReplicaId>, events: seq<Event>, r: ReplicaId, q: ReplicaId, reply: Reply)
    requires OutlivesTicks(Start(ids), events) && r != q
    requires var c := Run(Start(ids), events);
             && r in c.replicas && c.replicas[r].phase.Ticking?
             && q in c.replicas && c.replicas[q].phase.Head? && !c.replicas[q].stopping
    ensures var c := Run(Start(ids), events);
            var c' := Step(c, TryAcquire(q, reply));
            && q in c'.replicas && c'.replicas[q].phase.Resting? && c'.replicas[q].ticks == c.replicas[q].ticks
            && r in c'.replicas && c'.replicas[r] == c.replicas[r] && c'.holder == c.holder && c'.depth == c.depth
  {
    RunsKeepLeaders(Start(ids), events);
    var c := Run(Start(ids), events);
    assert Lives(c, r) && c.holder == c.replicas[r].session;
    NotLeaderSkips(c, q, reply);
  }

  /** Only the end of the tick or a crash takes a replica out of a tick, and a stop request is never taken back. */
  lemma TickingStep(c: Cluster, e: Event, r: ReplicaId)
    requires r in c.replicas
    ensures r in Step(c, e).replicas && (c.replicas[r].stopping || e == Stop(r) ==> Step(c, e).replicas[r].stopping)
    ensures c.replicas[r].phase.Ticking? ==>
              (Step(c, e).replicas[r].phase.Ticking? <==> e != EndTick(r) && e != Crash(r))
    ensures c.replicas[r].stopping ==> Step(c, e).replicas[r].ticks == c.replicas[r].ticks
  {
  }

  /**
    A stop request never interrupts a tick and lets no further one begin, over any run: the tick goes on,
    whatever the requests, dying sessions and other replicas, until it ends or the process crashes; and a
    replica asked to stop has begun its last tick.
   */
  lemma {:induction false} StopDoesNotInterrupt(c: Cluster, events: seq<Event>, r: ReplicaId)
    requires r in c.replicas
    ensures r in Run(c, events).replicas
    ensures c.replicas[r].phase.Ticking? && EndTick(r) !in events && Crash(r) !in events ==>
              Run(c, events).replicas[r].phase.Ticking?
    ensures c.replicas[r].stopping || Stop(r) in events ==> Run(c, events).replicas[r].stopping
    ensures c.replicas[r].stopping ==> Run(c, events).replicas[r].ticks == c.replicas[r].ticks
    decreases |events|
  {
    if events != [] {
      TickingStep(c, events[0], r);
      StopDoesNotInterrupt(Step(c, events[0]), events[1..], r);
    }
  }

  /** The session of a ticking leader dies and another replica becomes leader beside it. */
  lemma DeadSessionAllowsTwo(r: ReplicaId, q: ReplicaId)
    requires r != q
    ensures var c := Run(Start({r, q}), [TryAcquire(r, Answered), SessionDies(0), TryAcquire(q, Answered)]);
            r in c.replicas && q in c.replicas && c.replicas[r].phase.Ticking? && c.replicas[q].phase.Ticking?
  {
    var e0, e1, e2 := TryAcquire(r, Answered), SessionDies(0), TryAcquire(q, Answered);
    var c0 := Start({r, q});
    var c1 := Step(c0, e0);
    var c2 := Step(c1, e1);
    var c3 := Step(c2, e2);
    assert c1.replicas[r].session == Some(0) && c1.holder == Some(0) && c2.holder == None;
    assert [e0, e1, e2][1..] == [e1, e2] && [e1, e2][1..] == [e2];
    assert Run(c2, [e2]) == c3;
    assert Run(c1, [e1, e2]) == c3;
  }

  // ---- When the lock is given back ----------------------------------------------------------------

  /** The lock is held only by the session of a replica between its acquisition and its release, and once. */
  ghost predicate HeldWhileLeading(c: Cluster) {
    c.holder.Some? ==>
      && c.depth == 1 && c.holder.value in c.live
      && var r := c.live[c.holder.value];
         r in c.replicas && c.replicas[r].session == c.holder
         && (c.replicas[r].phase.Ticking? || c.replicas[r].phase.Releasing?)
  }

  /** No acquisition loses its answer, and a release on a live session reaches the server. */
  ghost predicate RepliesArrive(c: Cluster, e: Event) {
    && (e.TryAcquire? ==> !e.reply.AnswerLost?)
    && (e.Release? && e.r in c.replicas && Lives(c, e.r) ==> !e.reply.Refused?)
  }

  ghost predicate RepliesArriveAlways(c: Cluster, events: seq<Event>)
    decreases |events|
  {
    events == [] || (RepliesArrive(c, events[0]) && RepliesArriveAlways(Step(c, events[0]), events[1..]))
  }

  lemma AcquireHolds(c: Cluster, r: ReplicaId, reply: Reply)
    requires WellFormed(c) && HeldWhileLeading(c) && r in c.replicas && c.replicas[r].phase.Head? && !reply.AnswerLost?
    ensures WellFormed(Acquire(c, r, reply)) && HeldWhileLeading(Acquire(c, r, reply))
  {
    if !reply.Refused? {
      var c1 := Connected(c, r);
      var s := c1.replicas[r].session.value;
      assert s in c1.live && c1.live[s] == r && c1.holder == c.holder;
      assert c.holder.Some? ==> c.live[c.holder.value] != r;
    }
  }

  lemma GiveBackHolds(c: Cluster, r: ReplicaId, reply: Reply)
    requires WellFormed(c) && HeldWhileLeading(c) && r in c.replicas && c.replicas[r].phase.Releasing?
    requires Lives(c, r) ==> !reply.Refused?
    ensures WellFormed(GiveBack(c, r, reply)) && HeldWhileLeading(GiveBack(c, r, reply))
  {
  }

  lemma LeaveHolds(c: Cluster, r: ReplicaId)
    requires WellFormed(c) && HeldWhileLeading(c) && r in c.replicas
    ensures WellFormed(Leave(c, r)) && HeldWhileLeading(Leave(c, r))
  {
  }

  lemma StepHolds(c: Cluster, e: Event)
    requires WellFormed(c) && HeldWhileLeading(c) && RepliesArrive(c, e)
    ensures WellFormed(Step(c, e)) && HeldWhileLeading(Step(c, e))
  {
    match e
    case SessionDies(_) =>
    case Stop(_) =>
    case EndTick(_) =>
    case Crash(r) => if r in c.replicas { LeaveHolds(c, r); }
    case TryAcquire(r, reply) =>
      if r in c.replicas && c.replicas[r].phase.Head? { AcquireHolds(c, r, reply); }
    case Release(r, reply) =>
      if r in c.replicas && c.replicas[r].phase.Releasing? { GiveBackHolds(c, r, reply); }
    case Wake(r) => if r in c.replicas { LeaveHolds(c, r); }
  }

  lemma {:induction false} RunsHold(c: Cluster, events: seq<Event>)
    requires WellFormed(c) && HeldWhileLeading(c) && RepliesArriveAlways(c, events)
    ensures WellFormed(Run(c, events)) && HeldWhileLeading(Run(c, events))
    decreases |events|
  {
    if events != [] {
      StepHolds(c, events[0]);
      RunsHold(Step(c, events[0]), events[1..]);
    }
  }

  /**
    Leadership is always given back: over any run of any replicas, crashes, dying sessions and stop requests in
    which acquisitions are answered and releases on live sessions arrive, the lock is held only while its
    session's replica is ticking or releasing, and taken once; so whenever no replica is in either phase, any
    replica's next acquisition leads.
   */
  lemma LockIsGivenBack(ids: set<ReplicaId>, events: seq<Event>, r: ReplicaId)
    requires RepliesArriveAlways(Start(ids), events)
    ensures HeldWhileLeading(Run(Start(ids), events))
    ensures var c := Run(Start(ids), events);
            (forall q | q in c.replicas :: !c.replicas[q].phase.Ticking? && !c.replicas[q].phase.Releasing?)
            && r in c.replicas && c.replicas[r].phase.Head? && !c.replicas[r].stopping ==>
              r in Step(c, TryAcquire(r, Answered)).replicas
              && Step(c, TryAcquire(r, Answered)).replicas[r].phase.Ticking?
  {
    RunsHold(Start(ids), events);
    var c := Run(Start(ids), events);
    if r in c.replicas && c.replicas[r].phase.Head?
       && forall q | q in c.replicas :: !c.replicas[q].phase.Ticking? && !c.replicas[q].phase.Releasing? {
      assert c.holder.None?;
      assert Connected(c, r).holder.None?;
    }
  }

  /** A round whose release is refused on a session that lives on: the replica is back at its head, holding the lock. */
  lemma RefusedRound(r: ReplicaId)
    ensures var c2 := Step(Step(Start({r}), TryAcquire(r, Answered)), EndTick(r));
            var c := Step(Step(c2, Release(r, Refused)), Wake(r));
            c.holder == Some(0) && c.depth == 1 && r in c.replicas && Lives(c, r)
            && c.replicas[r].session == Some(0) && c.replicas[r].phase.Head? && !c.replicas[r].stopping
  {
    var c1 := Step(Start({r}), TryAcquire(r, Answered));
    assert c1.holder == Some(0) && c1.depth == 1 && Lives(c1, r) && c1.replicas[r].phase.Ticking?;
  }

  /** A further round of a replica that already holds the lock leaves it held. */
  lemma HeldRound(c: Cluster, r: ReplicaId)
    requires r in c.replicas && Lives(c, r) && c.replicas[r].phase.Head? && !c.replicas[r].stopping
    requires c.holder.Some? && c.holder == c.replicas[r].session && c.depth > 0
    ensures var c' := Step(Step(Step(c, TryAcquire(r, Answered)), EndTick(r)), Release(r, Answered));
            c'.holder == c.holder && c'.depth == c.depth && r in c'.replicas && c'.replicas[r].phase.Resting?
  {
    var c1 := Step(c, TryAcquire(r, Answered));
    assert c1.depth == c.depth + 1 && Lives(c1, r) && c1.replicas[r].phase.Ticking?;
  }

  /** A release refused on a session that lives on keeps the lock past the next round's release. */
  lemma RefusedReleasePinsLeadership(r: ReplicaId)
    ensures var c := Run(Start({r}), [TryAcquire(r, Answered), EndTick(r), Release(r, Refused), Wake(r),
                                      TryAcquire(r, Answered), EndTick(r), Release(r, Answered)]);
            c.holder == Some(0) && r in c.replicas && c.replicas[r].phase.Resting?
  {
    var e0, e1, e2, e3 := TryAcquire(r, Answered), EndTick(r), Release(r, Refused), Wake(r);
    var e4, e5, e6 := TryAcquire(r, Answered), EndTick(r), Release(r, Answered);
    RefusedRound(r);
    HeldRound(Step(Step(Step(Step(Start({r}), e0), e1), e2), e3), r);
    RunFour(Start({r}), e0, e1, e2, e3, [e4, e5, e6]);
    RunThree(Step(Step(Step(Step(Start({r}), e0), e1), e2), e3), e4, e5, e6);
    assert [e0, e1, e2, e3] + [e4, e5, e6] == [e0, e1, e2, e3, e4, e5, e6];
  }

  lemma RunThree(c: Cluster, e: Event, f: Event, g: Event)
    ensures Run(c, [e, f, g]) == Step(Step(Step(c, e), f), g)
  {
    RunTwo(c, e, f, [g]);
    assert [e, f] + [g] == [e, f, g] && [g][1..] == [];
  }

  lemma RunFour(c: Cluster, e: Event, f: Event, g: Event, h: Event, rest: seq<Event>)
    ensures Run(c, [e, f, g, h] + rest) == Run(Step(Step(Step(Step(c, e), f), g), h), rest)
  {
    RunTwo(c, e, f, [g, h] + rest);
    RunTwo(Step(Step(c, e), f), g, h, rest);
    assert [e, f] + ([g, h] + rest) == [e, f, g, h] + rest;
  }

  lemma RunTwo(c: Cluster, e: Event, f: Event, rest: seq<Event>)
    ensures Run(c, [e, f] + rest) == Run(Step(Step(c, e), f), rest)
  {
    assert ([e, f] + rest)[1..] == [f] + rest && ([f] + rest)[1..] == rest;
    assert Run(Step(c, e), [f] + rest) == Run(Step(Step(c, e), f), rest);
  }

  /** A delivered release frees the lock exactly when the session had taken it once. */
  lemma ReleaseFrees(c: Cluster, r: ReplicaId, reply: Reply)
    requires WellFormed(c) && r in c.replicas && c.replicas[r].phase.Releasing? && !reply.Refused?
    requires Lives(c, r) && c.holder == c.replicas[r].session
    ensures Step(c, Release(r, reply)).holder.None? <==> c.depth == 1
  {
  }

  /**
    An acquisition whose answer is lost on a session that lives on is never matched by a release: after the
    next tick and its release this replica still holds the lock.
   */
  lemma LostAnswerPinsLeadership(r: ReplicaId)
    ensures var c := Run(Start({r}), [TryAcquire(r, AnswerLost), Wake(r), TryAcquire(r, Answered), EndTick(r),
                                      Release(r, Answered)]);
            && c.holder == Some(0) && r in c.replicas
            && c.replicas[r].ticks == c.replicas[r].releases == 1 && c.replicas[r].phase.Resting?
  {
    var e0, e1, e2 := TryAcquire(r, AnswerLost), Wake(r), TryAcquire(r, Answered);
    var e3, e4 := EndTick(r), Release(r, Answered);
    var c0 := Start({r});
    var c1 := Step(c0, e0);
    assert c1.holder == Some(0) && c1.depth == 1 && c1.replicas[r].phase.Resting?;
    var c2 := Step(c1, e1);
    var c3 := Step(c2, e2);
    assert c3.depth == 2 && c3.replicas[r].phase.Ticking?;
    var c4 := Step(c3, e3);
    var c5 := Step(c4, e4);
    assert [e0, e1, e2, e3, e4][1..] == [e1, e2, e3, e4] && [e1, e2, e3, e4][1..] == [e2, e3, e4];
    assert [e2, e3, e4][1..] == [e3, e4] && [e3, e4][1..] == [e4];
    assert Run(c4, [e4]) == c5;
    assert Run(c3, [e3, e4]) == c5;
    assert Run(c2, [e2, e3, e4]) == c5;
    assert Run(c1, [e1, e2, e3, e4]) == c5;
  }
}
