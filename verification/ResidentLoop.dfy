/**
  The resident loop of one replica, its shared flags, and the shared connection its ticks run on. Times are
  milliseconds; what the outside world does in each round is an input.
 */
module ResidentLoop {
  import opened Options

  /** How a tick ends: normally, or with an exception (from the re-attach or from a required job). */
  datatype Tick = Finished | Raised

  /** `AcquireRaised`: no connection, or the query failed; the loop cannot know whether it is leader. */
  datatype Attempt = AcquireRaised | NotLeader | Leader(tick: Tick)

  /**
    One round: the lock attempt, whether a stop request arrives during it, how long it took, and after how many
    slices of the sleep one arrives.
   */
  datatype Round = Round(attempt: Attempt, stopInBody: bool, elapsed: nat, stopInSleep: Option<nat>)

  datatype Action = Try | TickStart | TickEnd | Note | Release | Slice(ms: int) | MarkDead | CloseLock | CloseConnection

  const SLICE: int := 1000

  // ---- What the loop does -------------------------------------------------------------------

  function Body(round: Round): seq<Action> {
    match round.attempt
    case AcquireRaised => [Try]
    case NotLeader => [Try]
    case Leader(Finished) => [Try, TickStart, TickEnd, Note, Release]
    case Leader(Raised) => [Try, TickStart, TickEnd, Release]
  }

  function SliceOf(remaining: int): int {
    if remaining < SLICE then remaining else SLICE
  }

  /** After how many more slices a stop request arrives, `slices` of them having passed. */
  function Sooner(stopAfter: Option<nat>, slices: nat): Option<nat> {
    match stopAfter
    case None => None
    case Some(n) => Some(if n <= slices then 0 else n - slices)
  }

  /** Slices of at most a second until nothing remains or a stop request is seen. */
  function Sleep(remaining: int, stopAfter: Option<nat>): seq<Action>
    decreases remaining
  {
    if remaining <= 0 || stopAfter == Some(0) then []
    else [Slice(SliceOf(remaining))] + Sleep(remaining - SliceOf(remaining), Sooner(stopAfter, 1))
  }

  predicate Stops(round: Round) {
    round.stopInBody || round.stopInSleep.Some?
  }

  function RoundLog(interval: int, round: Round): seq<Action> {
    Body(round) + if round.stopInBody then [] else Sleep(interval - round.elapsed, round.stopInSleep)
  }

  /** Rounds run until one of them sees a stop request. */
  function Rounds(interval: int, script: seq<Round>): seq<Action>
    decreases |script|
  {
    if script == [] then []
    else RoundLog(interval, script[0]) + if Stops(script[0]) then [] else Rounds(interval, script[1..])
  }

  function TicksNoted(script: seq<Round>): nat
    decreases |script|
  {
    if script == [] then 0
    else
      (if script[0].attempt == Leader(Finished) then 1 else 0)
      + if Stops(script[0]) then 0 else TicksNoted(script[1..])
  }

  const SHUTDOWN: seq<Action> := [MarkDead, CloseLock, CloseConnection]

  // ---- The loop -----------------------------------------------------------------------------

  class LoopState {
    var alive: bool
    var stopping: bool
    var ticks: nat

    constructor ()
      ensures alive && !stopping && ticks == 0
    {
      alive, stopping, ticks := true, false, 0;
    }

    method RequestStop()
      modifies this`stopping
      ensures stopping
    {
      stopping := true;
    }

    method MarkDead()
      modifies this`alive
      ensures !alive
    {
      alive := false;
    }

    method NoteTick()
      modifies this`ticks
      ensures ticks == old(ticks) + 1
    {
      ticks := ticks + 1;
    }
  }

  lemma SliceMore(log: seq<Action>, remaining: int, stopAfter: Option<nat>, slices: nat)
    requires remaining > 0 && Sooner(stopAfter, slices) != Some(0)
    ensures log + Sleep(remaining, Sooner(stopAfter, slices))
         == (log + [Slice(SliceOf(remaining))]) + Sleep(remaining - SliceOf(remaining), Sooner(stopAfter, slices + 1))
  {
    SoonerStill(stopAfter, slices);
    var rest := Sleep(remaining - SliceOf(remaining), Sooner(stopAfter, slices + 1));
    assert Sleep(remaining, Sooner(stopAfter, slices)) == [Slice(SliceOf(remaining))] + rest;
    assert log + ([Slice(SliceOf(remaining))] + rest) == (log + [Slice(SliceOf(remaining))]) + rest;
  }

  lemma SoonerStill(stopAfter: Option<nat>, slices: nat)
    ensures Sooner(Sooner(stopAfter, slices), 1) == Sooner(stopAfter, slices + 1)
  {
  }

  /** The sleep loop: it looks at the stop flag before every slice. */
  method SleepRemainder(state: LoopState, interval: int, round: Round) returns (log: seq<Action>)
    requires !state.stopping
    modifies state`stopping
    ensures log == Sleep(interval - round.elapsed, round.stopInSleep)
    ensures state.stopping <==> round.stopInSleep.Some?
  {
    log := [];
    var remaining := interval - round.elapsed;
    var slices := 0;
    if round.stopInSleep == Some(0) {
      state.RequestStop();
    }
    while remaining > 0 && !state.stopping
      invariant state.stopping <==> Sooner(round.stopInSleep, slices) == Some(0)
      invariant log + Sleep(remaining, Sooner(round.stopInSleep, slices)) ==
                Sleep(interval - round.elapsed, round.stopInSleep)
      decreases remaining
    {
      SliceMore(log, remaining, round.stopInSleep, slices);
      var slept := SliceOf(remaining);
      log := log + [Slice(slept)];
      remaining := remaining - slept;
      slices := slices + 1;
      if round.stopInSleep == Some(slices) {
        state.RequestStop();
      }
    }
    if round.stopInSleep.Some? {
      // A request that comes when the sleep is already over is seen at the top of the loop.
      state.RequestStop();
    }
  }

  /** One round of the loop, up to the sleep. */
  method RunBody(state: LoopState, round: Round) returns (log: seq<Action>)
    modifies state`stopping, state`ticks
    ensures log == Body(round)
    ensures state.stopping <==> old(state.stopping) || round.stopInBody
    ensures state.ticks == old(state.ticks) + if round.attempt == Leader(Finished) then 1 else 0
  {
    log := [Try];
    var ranAsLeader := false;
    if round.stopInBody {
      state.RequestStop();
    }
    match round.attempt {
      case AcquireRaised =>
      case NotLeader =>
      case Leader(tick) =>
        ranAsLeader := true;
        log := log + [TickStart, TickEnd];
        if tick.Finished? {
          state.NoteTick();
          log := log + [Note];
        }
    }
    if ranAsLeader {
      log := log + [Release];
    }
  }

  method RunRound(state: LoopState, interval: int, round: Round) returns (log: seq<Action>)
    requires !state.stopping
    modifies state`stopping, state`ticks
    ensures log == RoundLog(interval, round)
    ensures state.stopping <==> Stops(round)
    ensures state.ticks == old(state.ticks) + if round.attempt == Leader(Finished) then 1 else 0
  {
    log := RunBody(state, round);
    if !state.stopping {
      var slices := SleepRemainder(state, interval, round);
      log := log + slices;
    }
  }

  lemma RoundsFirst(interval: int, script: seq<Round>)
    requires script != []
    ensures Rounds(interval, script) ==
            RoundLog(interval, script[0]) + if Stops(script[0]) then [] else Rounds(interval, script[1..])
    ensures TicksNoted(script) ==
            (if script[0].attempt == Leader(Finished) then 1 else 0)
            + if Stops(script[0]) then 0 else TicksNoted(script[1..])
  {
  }

  lemma RoundsDone(interval: int, script: seq<Round>)
    ensures Rounds(interval, script[|script|..]) == [] && TicksNoted(script[|script|..]) == 0
    ensures script[0..] == script
  {
  }

  lemma RoundsUnfold(interval: int, script: seq<Round>, i: nat, log: seq<Action>)
    requires i < |script|
    ensures var rest := if Stops(script[i]) then [] else Rounds(interval, script[i + 1..]);
            log + Rounds(interval, script[i..]) == (log + RoundLog(interval, script[i])) + rest
    ensures TicksNoted(script[i..]) ==
              (if script[i].attempt == Leader(Finished) then 1 else 0)
              + if Stops(script[i]) then 0 else TicksNoted(script[i + 1..])
  {
    var rest := if Stops(script[i]) then [] else Rounds(interval, script[i + 1..]);
    assert script[i..][0] == script[i] && script[i..][1..] == script[i + 1..];
    RoundsFirst(interval, script[i..]);
    Regrouped(log, RoundLog(interval, script[i]), rest);
  }

  /** The resident loop on a finite script; a stop request arrives at the latest when the script ends. */
  method RunResident(interval: int, script: seq<Round>) returns (log: seq<Action>, state: LoopState)
    ensures log == Rounds(interval, script) + SHUTDOWN
    ensures state.ticks == TicksNoted(script) && !state.alive
  {
    state := new LoopState();
    log := [];
    var i := 0;
    RoundsDone(interval, script);
    while i < |script| && !state.stopping
      invariant i <= |script|
      invariant log + (if state.stopping then [] else Rounds(interval, script[i..])) == Rounds(interval, script)
      invariant state.ticks + (if state.stopping then 0 else TicksNoted(script[i..])) == TicksNoted(script)
      invariant fresh(state)
      decreases |script| - i
    {
      RoundsUnfold(interval, script, i, log);
      var actions := RunRound(state, interval, script[i]);
      log := log + actions;
      i := i + 1;
    }
    state.MarkDead();
    log := log + [MarkDead, CloseLock, CloseConnection];
  }

  // ---- What that means ----------------------------------------------------------------------

  /** A tick started at `i` ends, and its release is attempted before anything else but the note. */
  predicate ReleasedAt(log: seq<Action>, i: nat) {
    i < |log| && log[i] == TickStart ==>
      && i + 2 < |log| && log[i + 1] == TickEnd
      && (log[i + 2] == Release || (log[i + 2] == Note && i + 3 < |log| && log[i + 3] == Release))
  }

  ghost predicate Released(log: seq<Action>) {
    forall i: nat :: ReleasedAt(log, i)
  }

  lemma ReleasedConcat(a: seq<Action>, b: seq<Action>)
    requires Released(a) && Released(b)
    ensures Released(a + b)
  {
    forall i: nat ensures ReleasedAt(a + b, i) {
      if i < |a| {
        assert ReleasedAt(a, i);
      } else {
        assert ReleasedAt(b, i - |a|);
      }
    }
  }

  lemma {:induction false} SleepOnlySleeps(remaining: int, stopAfter: Option<nat>)
    ensures forall a <- Sleep(remaining, stopAfter) :: a.Slice? && 0 < a.ms <= 1000
    ensures stopAfter.Some? ==> |Sleep(remaining, stopAfter)| <= stopAfter.value
    decreases remaining
  {
    if remaining > 0 && stopAfter != Some(0) {
      SleepOnlySleeps(remaining - SliceOf(remaining), Sooner(stopAfter, 1));
    }
  }

  lemma SleepReleases(remaining: int, stopAfter: Option<nat>)
    ensures Released(Sleep(remaining, stopAfter))
  {
    var sleep := Sleep(remaining, stopAfter);
    SleepOnlySleeps(remaining, stopAfter);
    forall i: nat ensures ReleasedAt(sleep, i) {
      assert i < |sleep| ==> sleep[i] in sleep;
    }
  }

  lemma BodyReleases(round: Round)
    ensures Released(Body(round))
  {
  }

  lemma RoundReleases(interval: int, round: Round)
    ensures Released(RoundLog(interval, round))
  {
    BodyReleases(round);
    SleepReleases(interval - round.elapsed, round.stopInSleep);
    ReleasedConcat(Body(round), if round.stopInBody then [] else Sleep(interval - round.elapsed, round.stopInSleep));
  }

  /** Every leader tick is followed by a release attempt, whatever happens in any round. */
  lemma {:induction false} EveryTickIsReleased(interval: int, script: seq<Round>)
    ensures Released(Rounds(interval, script) + SHUTDOWN)
    decreases |script|
  {
    if script == [] || Stops(script[0]) {
      if script != [] {
        RoundReleases(interval, script[0]);
        assert Rounds(interval, script) == RoundLog(interval, script[0]);
        ReleasedConcat(RoundLog(interval, script[0]), SHUTDOWN);
      }
    } else {
      RoundReleases(interval, script[0]);
      EveryTickIsReleased(interval, script[1..]);
      ReleasedConcat(RoundLog(interval, script[0]), Rounds(interval, script[1..]) + SHUTDOWN);
      assert Rounds(interval, script) + SHUTDOWN ==
             RoundLog(interval, script[0]) + (Rounds(interval, script[1..]) + SHUTDOWN);
    }
  }

  /** How many rounds of a script begin. */
  function Begun(script: seq<Round>): (n: nat)
    ensures n <= |script| && (script != [] ==> n > 0)
    ensures forall i | 0 <= i < n - 1 :: !script[i].stopInBody && script[i].stopInSleep.None?
    ensures n < |script| ==> n > 0 && (script[n - 1].stopInBody || script[n - 1].stopInSleep.Some?)
    decreases |script|
  {
    if script == [] then 0 else 1 + if Stops(script[0]) then 0 else Begun(script[1..])
  }

  function Led(round: Round): nat {
    if round.attempt.Leader? then 1 else 0
  }

  function Done(round: Round): nat {
    if round.attempt == Leader(Finished) then 1 else 0
  }

  function Leaders(rounds: seq<Round>): nat {
    if rounds == [] then 0 else Led(rounds[0]) + Leaders(rounds[1..])
  }

  function Completed(rounds: seq<Round>): nat {
    if rounds == [] then 0 else Done(rounds[0]) + Completed(rounds[1..])
  }

  /** How often an action stands in a log. */
  function CountOf(log: seq<Action>, a: Action): nat {
    if log == [] then 0 else (if log[0] == a then 1 else 0) + CountOf(log[1..], a)
  }

  lemma {:induction false} CountConcat(a: seq<Action>, b: seq<Action>, x: Action)
    ensures CountOf(a + b, x) == CountOf(a, x) + CountOf(b, x)
  {
    if a == [] {
      assert a + b == b;
    } else {
      assert (a + b)[1..] == a[1..] + b;
      CountConcat(a[1..], b, x);
    }
  }

  /** The numbers of attempts, of ticks started, ended and released, and of ticks noted. */
  ghost predicate Ticks(log: seq<Action>, tries: nat, led: nat, completed: nat) {
    && CountOf(log, Try) == tries
    && CountOf(log, TickStart) == CountOf(log, TickEnd) == CountOf(log, Release) == led
    && CountOf(log, Note) == completed
  }

  lemma TicksConcat(a: seq<Action>, b: seq<Action>, tries: nat, led: nat, done: nat, tries': nat, led': nat, done': nat)
    requires Ticks(a, tries, led, done) && Ticks(b, tries', led', done')
    ensures Ticks(a + b, tries + tries', led + led', done + done')
  {
    CountConcat(a, b, Try);
    CountConcat(a, b, TickStart);
    CountConcat(a, b, TickEnd);
    CountConcat(a, b, Release);
    CountConcat(a, b, Note);
  }

  lemma BodyTicks(round: Round)
    ensures Ticks(Body(round), 1, Led(round), Done(round))
  {
    TicksOfOne(Try);
    TicksOfOne(TickStart);
    TicksOfOne(TickEnd);
    TicksOfOne(Release);
    TicksOfOne(Note);
    if round.attempt.Leader? {
      var end := if round.attempt.tick.Finished? then [Note] + [Release] else [Release];
      assert Body(round) == [Try] + ([TickStart] + ([TickEnd] + end));
      forall a: Action
        ensures CountOf(Body(round), a) ==
                CountOf([Try], a) + CountOf([TickStart], a) + CountOf([TickEnd], a) + CountOf([Release], a)
                + if round.attempt.tick.Finished? then CountOf([Note], a) else 0
      {
        CountConcat([Note], [Release], a);
        CountConcat([TickEnd], end, a);
        CountConcat([TickStart], [TickEnd] + end, a);
        CountConcat([Try], [TickStart] + ([TickEnd] + end), a);
      }
    }
  }

  lemma TicksOfOne(x: Action)
    ensures forall a :: CountOf([x], a) == if x == a then 1 else 0
  {
    assert [x][1..] == [];
  }

  lemma {:induction false} SleepTicks(remaining: int, stopAfter: Option<nat>)
    ensures Ticks(Sleep(remaining, stopAfter), 0, 0, 0)
    decreases remaining
  {
    if remaining > 0 && stopAfter != Some(0) {
      var rest := Sleep(remaining - SliceOf(remaining), Sooner(stopAfter, 1));
      SleepTicks(remaining - SliceOf(remaining), Sooner(stopAfter, 1));
      assert Sleep(remaining, stopAfter)[1..] == rest;
    }
  }

  lemma RoundTicks(interval: int, round: Round)
    ensures Ticks(RoundLog(interval, round), 1, Led(round), Done(round))
  {
    var log, sleep := RoundLog(interval, round), Sleep(interval - round.elapsed, round.stopInSleep);
    SleepTicks(interval - round.elapsed, round.stopInSleep);
    BodyTicks(round);
    TicksAfter(log, Body(round), Led(round), Done(round), if round.stopInBody then [] else sleep);
  }

  lemma TicksAfter(log: seq<Action>, body: seq<Action>, led: nat, done: nat, sleep: seq<Action>)
    requires log == body + sleep && Ticks(body, 1, led, done) && Ticks(sleep, 0, 0, 0)
    ensures Ticks(log, 1, led, done)
  {
    TicksConcat(body, sleep, 1, led, done, 0, 0, 0);
  }

  lemma BegunFirst(script: seq<Round>)
    requires script != []
    ensures var begun := script[..Begun(script)];
            && begun[0] == script[0]
            && begun[1..] == if Stops(script[0]) then [] else script[1..][..Begun(script[1..])]
  {
  }

  /**
    Leaders tick and nobody else does: every round that begins tries the lock once; there is one tick, ended and
    released, for each of them that leads, and the ticks noted are those that finished.
   */
  lemma {:induction false} TicksAreLeaders(interval: int, script: seq<Round>)
    ensures var begun := script[..Begun(script)];
            Ticks(Rounds(interval, script), |begun|, Leaders(begun), Completed(begun))
            && TicksNoted(script) == Completed(begun)
    decreases |script|
  {
    if script != [] {
      BegunFirst(script);
      RoundTicks(interval, script[0]);
      RoundsFirst(interval, script);
      var led, done := Led(script[0]), Done(script[0]);
      if Stops(script[0]) {
        TicksConcat(RoundLog(interval, script[0]), [], 1, led, done, 0, 0, 0);
      } else {
        var more := script[1..][..Begun(script[1..])];
        TicksAreLeaders(interval, script[1..]);
        TicksConcat(RoundLog(interval, script[0]), Rounds(interval, script[1..]), 1, led, done,
                    |more|, Leaders(more), Completed(more));
      }
    }
  }

  /** A tick directly follows the attempt that won the lock. */
  predicate TriedAt(log: seq<Action>, i: nat) {
    i < |log| && log[i] == TickStart ==> i > 0 && log[i - 1] == Try
  }

  ghost predicate TriedFirst(log: seq<Action>) {
    forall i: nat :: TriedAt(log, i)
  }

  lemma TriedFirstConcat(a: seq<Action>, b: seq<Action>)
    requires TriedFirst(a) && TriedFirst(b)
    ensures TriedFirst(a + b)
  {
    forall i: nat ensures TriedAt(a + b, i) {
      if i < |a| {
        assert TriedAt(a, i);
      } else {
        assert TriedAt(b, i - |a|);
      }
    }
  }

  lemma SleepTriesFirst(remaining: int, stopAfter: Option<nat>)
    ensures TriedFirst(Sleep(remaining, stopAfter))
  {
    var sleep := Sleep(remaining, stopAfter);
    SleepOnlySleeps(remaining, stopAfter);
    forall i: nat ensures TriedAt(sleep, i) {
      assert i < |sleep| ==> sleep[i] in sleep;
    }
  }

  lemma BodyTriesFirst(round: Round)
    ensures TriedFirst(Body(round))
  {
  }

  lemma RoundTriesFirst(interval: int, round: Round)
    ensures TriedFirst(RoundLog(interval, round))
  {
    BodyTriesFirst(round);
    SleepTriesFirst(interval - round.elapsed, round.stopInSleep);
    TriedFirstConcat(Body(round), if round.stopInBody then [] else Sleep(interval - round.elapsed, round.stopInSleep));
  }

  lemma {:induction false} TicksFollowTries(interval: int, script: seq<Round>)
    ensures TriedFirst(Rounds(interval, script))
    decreases |script|
  {
    if script != [] {
      RoundsFirst(interval, script);
      RoundTriesFirst(interval, script[0]);
      TicksFollowTries(interval, script[1..]);
      TriedFirstConcat(RoundLog(interval, script[0]), if Stops(script[0]) then [] else Rounds(interval, script[1..]));
    }
  }

  function Slept(log: seq<Action>): int {
    if log == [] then 0 else (if log[0].Slice? then log[0].ms else 0) + Slept(log[1..])
  }

  /** An undisturbed sleep lasts the rest of the interval, and none of it when the tick overran. */
  lemma {:induction false} SleepIsTheRemainder(remaining: int)
    ensures Slept(Sleep(remaining, None)) == if remaining > 0 then remaining else 0
    decreases remaining
  {
    if remaining > 0 {
      SleepIsTheRemainder(remaining - SliceOf(remaining));
      assert Sleep(remaining, None)[1..] == Sleep(remaining - SliceOf(remaining), None);
    }
  }

  /** A stop request during the sleep ends it after the slice then running: what was slept is what would have been. */
  lemma {:induction false} StopCutsSleep(remaining: int, n: nat)
    ensures var whole := Sleep(remaining, None);
            Sleep(remaining, Some(n)) == if n <= |whole| then whole[..n] else whole
    decreases remaining
  {
    if remaining > 0 && n > 0 {
      StopCutsSleep(remaining - SliceOf(remaining), n - 1);
    }
  }

  /** A stop request lets the running tick finish and be released, and no further round starts. */
  lemma StopDrains(interval: int, before: seq<Round>, round: Round, later: seq<Round>)
    requires forall r <- before :: !r.stopInBody && r.stopInSleep.None?
    requires round.stopInBody || round.stopInSleep.Some?
    ensures Rounds(interval, before + [round] + later) == Rounds(interval, before) + RoundLog(interval, round)
    decreases |before|
  {
    var script := before + [round] + later;
    FirstOf(before, round, later);
    RoundsFirst(interval, script);
    if before != [] {
      StopDrains(interval, before[1..], round, later);
      RoundsFirst(interval, before);
      Regrouped(RoundLog(interval, before[0]), Rounds(interval, before[1..]), RoundLog(interval, round));
    }
  }

  lemma FirstOf(before: seq<Round>, round: Round, later: seq<Round>)
    ensures var script := before + [round] + later;
            if before == [] then script[0] == round
            else script[0] == before[0] && before[0] in before && script[1..] == before[1..] + [round] + later
  {
  }

  lemma Regrouped(a: seq<Action>, b: seq<Action>, c: seq<Action>)
    ensures a + (b + c) == (a + b) + c
  {
  }

  // ---- The shared connection ----------------------------------------------------------------

  /** A first registration succeeds or is refused for its own reasons. */
  datatype Engine = Accepts | Rejects

  /** `functions` are those of the live connection; `registered` is what the proxy believes. */
  class SharedConnection {
    var functions: map<string, int>
    var registered: set<string>

    /** The proxy never skips a function the connection does not have. */
    predicate Valid()
      reads this
    {
      registered <= functions.Keys
    }

    constructor ()
      ensures Valid() && functions == map[] && registered == {}
    {
      functions, registered := map[], {};
    }

    /** `ok` is false when the registration raises. A name that exists keeps its first body. */
    method CreateFunction(name: string, body: int, engine: Engine) returns (ok: bool)
      requires Valid()
      modifies this
      ensures Valid()
      ensures ok <==> name in functions
      ensures ok <==> name in old(functions) || engine.Accepts?
      ensures functions == if name in old(functions) || !ok then old(functions) else old(functions)[name := body]
      ensures registered == if ok then old(registered) + {name} else old(registered)
    {
      if name in registered {
        return true;
      }
      if name in functions {
        // The engine reports a duplicate, which counts as success.
        registered := registered + {name};
        return true;
      }
      if engine.Rejects? {
        return false;
      }
      functions := functions[name := body];
      registered := registered + {name};
      return true;
    }

    /** A fresh attach under the same proxy; a failed attach leaves everything as it was. */
    method Refresh(attached: bool)
      requires Valid()
      modifies this
      ensures Valid()
      ensures attached ==> functions == map[] && registered == {}
      ensures !attached ==> functions == old(functions) && registered == old(registered)
    {
      if !attached {
        return;
      }
      functions := map[];
      registered := {};
    }
  }
}
