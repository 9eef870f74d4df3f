/**
  `getOrSet` of the analytics cache as a state machine: any number of processes, each with its own
  in-flight map, over one Redis whose commands may fail before or after taking effect and whose keys
  may expire at any time. JavaScript runs without interruption between two awaits, so every event
  below is the stretch of code from one await to the next.
 */
module AnalyticsCache {
  import opened Options
  import opened Texts
  import opened CacheKeys

  type Proc = nat
  type ReqId = nat

  /** `encode` is the stored form; `hit` is what `get` makes of a stored text, `None` for a miss. */
  datatype Codec<!V> = Codec(encode: V -> Text, hit: Text -> Option<V>)

  datatype LockOptions = LockOptions(enabled: bool, pollIntervalMs: int, maxPollMs: int)

  /** `Failed`: `compute` threw, and the error reaches the caller. */
  datatype Outcome<+V> = Value(v: V) | Failed

  /** Where a call of `getOrSet` waits. `locked` says whether it holds the distributed lock. */
  datatype Pc<+V> =
    | Reading
    | Missed
    | Following
    | Locking
    | Polling(left: nat)
    | Computing(locked: bool)
    | Storing(v: V, locked: bool)
    | Checking(out: Outcome<V>)
    | Deleting(out: Outcome<V>)
    | Settled(out: Outcome<V>)
    | Done(out: Outcome<V>)

  /** `joined` is the leader whose promise this call returned. */
  datatype Req<+V> = Req(proc: Proc, key: Text, pc: Pc<V>, token: Text, joined: Option<ReqId>)

  /** `computed` logs every value a `compute` returned, with the key it was asked for. */
  datatype World<+V> = World(
    store: map<Text, Text>,
    inFlight: map<(Proc, Text), ReqId>,
    reqs: map<ReqId, Req<V>>,
    computed: seq<(Text, V)>)

  /** What became of a Redis write: executed and answered, never executed, or executed but the answer lost. */
  datatype Reply = Answered | RequestLost | AnswerLost

  datatype Event<+V> =
    | Arrive(r: ReqId, proc: Proc, key: Text)
    | ReadReply(r: ReqId, fault: bool)
    | Continue(r: ReqId, token: Text)
    | LockReply(r: ReqId, reply: Reply)
    | PollReply(r: ReqId, fault: bool)
    | Computed(r: ReqId, result: Outcome<V>)
    | StoreReply(r: ReqId, reply: Reply)
    | CheckReply(r: ReqId, fault: bool)
    | DeleteReply(r: ReqId, reply: Reply)
    | Settle(r: ReqId)
    | Follow(r: ReqId)
    | Expire(key: Text)
    | Forget(proc: Proc, key: Text)

  /** How many times a lock loser polls: at least once, else as often as whole intervals fit. */
  function Attempts(o: LockOptions): (n: nat)
    ensures n >= 1
    ensures n > 1 ==> n * o.pollIntervalMs <= o.maxPollMs
    ensures o.pollIntervalMs >= 1 ==> o.maxPollMs < (n + 1) * o.pollIntervalMs
    ensures o.pollIntervalMs < 1 ==> o.maxPollMs <= n
  {
    var interval := if o.pollIntervalMs > 1 then o.pollIntervalMs else 1;
    if o.maxPollMs < interval then 1
    else
      WholeIntervals(o.maxPollMs, interval);
      o.maxPollMs / interval
  }

  lemma WholeIntervals(max: int, interval: int)
    requires max >= interval >= 1
    ensures 1 <= max / interval && max / interval * interval <= max < (max / interval + 1) * interval
  {
    assert max == max / interval * interval + max % interval;
  }

  // ---- One step -----------------------------------------------------------------------------

  function Lookup<V>(c: Codec<V>, store: map<Text, Text>, key: Text, fault: bool): Option<V> {
    if fault || key !in store then None else c.hit(store[key])
  }

  function At<V>(w: World<V>, r: ReqId, pc: Pc<V>): World<V>
    requires r in w.reqs
  {
    w.(reqs := w.reqs[r := w.reqs[r].(pc := pc)])
  }

  function Unlocked<V>(out: Outcome<V>, locked: bool): Pc<V> {
    if locked then Checking(out) else Settled(out)
  }

  /** Between the missed read and the next await: join the live leader of this process, or lead. */
  function JoinOrLead<V>(o: LockOptions, w: World<V>, r: ReqId, token: Text): World<V>
    requires r in w.reqs
  {
    var q := w.reqs[r];
    var slot := (q.proc, q.key);
    if slot in w.inFlight then
      w.(reqs := w.reqs[r := q.(pc := Following, joined := Some(w.inFlight[slot]))])
    else
      w.(reqs := w.reqs[r := q.(pc := if o.enabled then Locking else Computing(false), token := token)],
         inFlight := w.inFlight[slot := r])
  }

  /** The answer to SET-NX: acquired, lost to another instance, or unknown. */
  function AfterLock<V>(o: LockOptions, w: World<V>, r: ReqId, reply: Reply): World<V>
    requires r in w.reqs
  {
    var lock := LockKey(w.reqs[r].key);
    var free := lock !in w.store;
    var w' := if free && !reply.RequestLost? then w.(store := w.store[lock := w.reqs[r].token]) else w;
    At(w', r, if !reply.Answered? then Computing(false)
              else if free then Computing(true)
              else Polling(Attempts(o)))
  }

  /** One poll: serve the winner's write, or give up on a fault or after the last attempt. */
  function Polled<V>(left: nat, found: Option<V>, fault: bool): Pc<V> {
    match found
    case Some(v) => Settled(Value(v))
    case None => if fault || left <= 1 then Computing(false) else Polling(left - 1)
  }

  function AfterPoll<V>(c: Codec<V>, w: World<V>, r: ReqId, fault: bool): World<V>
    requires r in w.reqs && w.reqs[r].pc.Polling?
  {
    At(w, r, Polled(w.reqs[r].pc.left, Lookup(c, w.store, w.reqs[r].key, fault), fault))
  }

  function AfterCompute<V>(w: World<V>, r: ReqId, result: Outcome<V>): World<V>
    requires r in w.reqs && w.reqs[r].pc.Computing?
  {
    var locked := w.reqs[r].pc.locked;
    match result
    case Failed => At(w, r, Unlocked(Failed, locked))
    case Value(v) => At(w.(computed := w.computed + [(w.reqs[r].key, v)]), r, Storing(v, locked))
  }

  function AfterStore<V>(c: Codec<V>, w: World<V>, r: ReqId, reply: Reply): World<V>
    requires r in w.reqs && w.reqs[r].pc.Storing?
  {
    var pc := w.reqs[r].pc;
    var w' := if reply.RequestLost? then w else w.(store := w.store[w.reqs[r].key := c.encode(pc.v)]);
    At(w', r, Unlocked(Value(pc.v), pc.locked))
  }

  /** The token check of the release; the delete is a separate command. */
  function AfterCheck<V>(w: World<V>, r: ReqId, fault: bool): World<V>
    requires r in w.reqs && w.reqs[r].pc.Checking?
  {
    var lock := LockKey(w.reqs[r].key);
    var mine := !fault && lock in w.store && w.store[lock] == w.reqs[r].token;
    At(w, r, if mine then Deleting(w.reqs[r].pc.out) else Settled(w.reqs[r].pc.out))
  }

  function AfterDelete<V>(w: World<V>, r: ReqId, reply: Reply): World<V>
    requires r in w.reqs && w.reqs[r].pc.Deleting?
  {
    var w' := if reply.RequestLost? then w else w.(store := w.store - {LockKey(w.reqs[r].key)});
    At(w', r, Settled(w.reqs[r].pc.out))
  }

  /** The clean-up when the promise settles: whatever is in the slot goes. */
  function AfterSettle<V>(w: World<V>, r: ReqId): World<V>
    requires r in w.reqs && w.reqs[r].pc.Settled?
  {
    At(w.(inFlight := w.inFlight - {(w.reqs[r].proc, w.reqs[r].key)}), r, Done(w.reqs[r].pc.out))
  }

  function AfterFollow<V>(w: World<V>, r: ReqId): World<V>
    requires r in w.reqs
  {
    match w.reqs[r].joined
    case None => w
    case Some(l) => if l in w.reqs && w.reqs[l].pc.Done? then At(w, r, Done(w.reqs[l].pc.out)) else w
  }

  /** An event addressed to a request that is not waiting for it changes nothing. */
  function Step<V>(o: LockOptions, c: Codec<V>, w: World<V>, e: Event<V>): World<V> {
    match e
    case Arrive(r, p, key) =>
      if r in w.reqs then w else w.(reqs := w.reqs[r := Req(p, key, Reading, [], None)])
    case ReadReply(r, fault) =>
      if r !in w.reqs || !w.reqs[r].pc.Reading? then w
      else (match Lookup(c, w.store, w.reqs[r].key, fault)
            case Some(v) => At(w, r, Done(Value(v)))
            case None => At(w, r, Missed))
    case Continue(r, token) => if r in w.reqs && w.reqs[r].pc.Missed? then JoinOrLead(o, w, r, token) else w
    case LockReply(r, reply) => if r in w.reqs && w.reqs[r].pc.Locking? then AfterLock(o, w, r, reply) else w
    case PollReply(r, fault) => if r in w.reqs && w.reqs[r].pc.Polling? then AfterPoll(c, w, r, fault) else w
    case Computed(r, result) => if r in w.reqs && w.reqs[r].pc.Computing? then AfterCompute(w, r, result) else w
    case StoreReply(r, reply) => if r in w.reqs && w.reqs[r].pc.Storing? then AfterStore(c, w, r, reply) else w
    case CheckReply(r, fault) => if r in w.reqs && w.reqs[r].pc.Checking? then AfterCheck(w, r, fault) else w
    case DeleteReply(r, reply) => if r in w.reqs && w.reqs[r].pc.Deleting? then AfterDelete(w, r, reply) else w
    case Settle(r) => if r in w.reqs && w.reqs[r].pc.Settled? then AfterSettle(w, r) else w
    case Follow(r) => if r in w.reqs && w.reqs[r].pc.Following? then AfterFollow(w, r) else w
    case Expire(key) => w.(store := w.store - {key})
    case Forget(p, key) => w.(inFlight := w.inFlight - {(p, key)})
  }

  function Run<V>(o: LockOptions, c: Codec<V>, w: World<V>, events: seq<Event<V>>): World<V>
    decreases |events|
  {
    if events == [] then w else Run(o, c, Step(o, c, w, events[0]), events[1..])
  }

  function Empty<V>(): World<V> {
    World(map[], map[], map[], [])
  }

  // ---- Provenance ---------------------------------------------------------------------------

  /** No value key is the lock key of a value key. */
  ghost predicate Separate(keys: iset<Text>) {
    forall k, l | k in keys && l in keys :: k != LockKey(l)
  }

  /** `raw` is the stored form of a value computed for `key`. */
  ghost predicate StoredFrom<V>(c: Codec<V>, computed: seq<(Text, V)>, key: Text, raw: Text) {
    exists x <- computed :: x.0 == key && raw == c.encode(x.1)
  }

  /** `v` was computed for `key`, or is what the codec makes of the stored form of such a value. */
  ghost predicate ServedFrom<V>(c: Codec<V>, computed: seq<(Text, V)>, key: Text, v: V) {
    (key, v) in computed || exists x <- computed :: x.0 == key && c.hit(c.encode(x.1)) == Some(v)
  }

  ghost predicate OutcomeFrom<V>(c: Codec<V>, computed: seq<(Text, V)>, key: Text, out: Outcome<V>) {
    out.Value? ==> ServedFrom(c, computed, key, out.v)
  }

  /** A token either lands under no value key, or does not read as a value there. */
  ghost predicate TokenMisses<V>(c: Codec<V>, keys: iset<Text>, token: Text) {
    Separate(keys) || c.hit(token).None?
  }

  ghost predicate RequestFrom<V>(c: Codec<V>, w: World<V>, keys: iset<Text>, q: Req<V>) {
    && q.key in keys
    && (q.pc.Locking? ==> TokenMisses(c, keys, q.token))
    && (q.pc.Storing? ==> (q.key, q.pc.v) in w.computed)
    && (q.pc.Checking? || q.pc.Deleting? || q.pc.Settled? || q.pc.Done? ==> OutcomeFrom(c, w.computed, q.key, q.pc.out))
    && (q.joined.Some? ==> q.joined.value in w.reqs && w.reqs[q.joined.value].key == q.key)
  }

  ghost predicate Provenance<V>(c: Codec<V>, w: World<V>, keys: iset<Text>) {
    && (forall k | k in w.store && k in keys :: StoredFrom(c, w.computed, k, w.store[k]) || c.hit(w.store[k]).None?)
    && (forall r | r in w.reqs :: RequestFrom(c, w, keys, w.reqs[r]))
    && (forall s | s in w.inFlight :: w.inFlight[s] in w.reqs && w.reqs[w.inFlight[s]].key == s.1)
  }

  /** Calls are for value keys. */
  predicate Addressed<V>(e: Event<V>, keys: iset<Text>) {
    e.Arrive? ==> e.key in keys
  }

  /** And the tokens they take are no cached values. */
  ghost predicate Proper<V>(c: Codec<V>, e: Event<V>, keys: iset<Text>) {
    Addressed(e, keys) && (e.Continue? ==> TokenMisses(c, keys, e.token))
  }

  lemma LookupServes<V>(c: Codec<V>, w: World<V>, keys: iset<Text>, key: Text, fault: bool)
    requires Provenance(c, w, keys) && key in keys
    ensures Lookup(c, w.store, key, fault).Some? ==>
              ServedFrom(c, w.computed, key, Lookup(c, w.store, key, fault).value)
  {
  }

  lemma ComputedGrows<V>(c: Codec<V>, w: World<V>, keys: iset<Text>, x: (Text, V))
    requires Provenance(c, w, keys)
    ensures Provenance(c, w.(computed := w.computed + [x]), keys)
  {
  }

  /** Writing one request back keeps provenance when the new state of that request has it. */
  lemma RewriteKeeps<V>(c: Codec<V>, w: World<V>, keys: iset<Text>, r: ReqId, q: Req<V>)
    requires Provenance(c, w, keys)
    requires RequestFrom(c, w, keys, q)
    requires r in w.reqs ==> w.reqs[r].key == q.key
    ensures Provenance(c, w.(reqs := w.reqs[r := q]), keys)
  {
  }

  lemma StoreShrinks<V>(c: Codec<V>, w: World<V>, keys: iset<Text>, key: Text)
    requires Provenance(c, w, keys)
    ensures Provenance(c, w.(store := w.store - {key}), keys)
  {
  }

  lemma StoreGrows<V>(c: Codec<V>, w: World<V>, keys: iset<Text>, key: Text, raw: Text)
    requires Provenance(c, w, keys)
    requires key in keys ==> StoredFrom(c, w.computed, key, raw) || c.hit(raw).None?
    ensures Provenance(c, w.(store := w.store[key := raw]), keys)
  {
  }

  lemma SlotsChange<V>(c: Codec<V>, w: World<V>, keys: iset<Text>, inFlight: map<(Proc, Text), ReqId>)
    requires Provenance(c, w, keys)
    requires forall s | s in inFlight :: inFlight[s] in w.reqs && w.reqs[inFlight[s]].key == s.1
    ensures Provenance(c, w.(inFlight := inFlight), keys)
  {
  }

  lemma AtKeeps<V>(c: Codec<V>, w: World<V>, keys: iset<Text>, r: ReqId, pc: Pc<V>)
    requires Provenance(c, w, keys) && r in w.reqs
    requires RequestFrom(c, w, keys, w.reqs[r].(pc := pc))
    ensures Provenance(c, At(w, r, pc), keys)
  {
  }

  lemma JoinOrLeadKeeps<V>(o: LockOptions, c: Codec<V>, w: World<V>, keys: iset<Text>, r: ReqId, token: Text)
    requires Provenance(c, w, keys) && r in w.reqs && w.reqs[r].pc.Missed? && TokenMisses(c, keys, token)
    ensures Provenance(c, JoinOrLead(o, w, r, token), keys)
  {
    var q := w.reqs[r];
    var slot := (q.proc, q.key);
    assert RequestFrom(c, w, keys, q);
    if slot in w.inFlight {
      RewriteKeeps(c, w, keys, r, q.(pc := Following, joined := Some(w.inFlight[slot])));
    } else {
      var q' := q.(pc := if o.enabled then Locking else Computing(false), token := token);
      RewriteKeeps(c, w, keys, r, q');
      SlotsChange(c, w.(reqs := w.reqs[r := q']), keys, w.inFlight[slot := r]);
    }
  }

  lemma WritesKeep<V>(o: LockOptions, c: Codec<V>, w: World<V>, keys: iset<Text>, r: ReqId, reply: Reply)
    requires Provenance(c, w, keys) && r in w.reqs
    ensures w.reqs[r].pc.Locking? ==> Provenance(c, AfterLock(o, w, r, reply), keys)
    ensures w.reqs[r].pc.Storing? ==> Provenance(c, AfterStore(c, w, r, reply), keys)
    ensures w.reqs[r].pc.Deleting? ==> Provenance(c, AfterDelete(w, r, reply), keys)
  {
    var q := w.reqs[r];
    assert RequestFrom(c, w, keys, q);
    if q.pc.Locking? {
      assert LockKey(q.key) in keys ==> c.hit(q.token).None?;
      StoreGrows(c, w, keys, LockKey(q.key), q.token);
      var w' := if LockKey(q.key) !in w.store && !reply.RequestLost?
        then w.(store := w.store[LockKey(q.key) := q.token]) else w;
      AtKeeps(c, w', keys, r, AfterLock(o, w, r, reply).reqs[r].pc);
    } else if q.pc.Storing? {
      assert (q.key, q.pc.v) in w.computed;
      assert StoredFrom(c, w.computed, q.key, c.encode(q.pc.v));
      StoreGrows(c, w, keys, q.key, c.encode(q.pc.v));
      var w' := if reply.RequestLost? then w else w.(store := w.store[q.key := c.encode(q.pc.v)]);
      AtKeeps(c, w', keys, r, Unlocked(Value(q.pc.v), q.pc.locked));
    } else if q.pc.Deleting? {
      StoreShrinks(c, w, keys, LockKey(q.key));
      var w' := if reply.RequestLost? then w else w.(store := w.store - {LockKey(q.key)});
      AtKeeps(c, w', keys, r, Settled(q.pc.out));
    }
  }

  lemma ReadsKeep<V>(c: Codec<V>, w: World<V>, keys: iset<Text>, r: ReqId, fault: bool)
    requires Provenance(c, w, keys) && r in w.reqs
    ensures w.reqs[r].pc.Polling? ==> Provenance(c, AfterPoll(c, w, r, fault), keys)
    ensures w.reqs[r].pc.Checking? ==> Provenance(c, AfterCheck(w, r, fault), keys)
    ensures w.reqs[r].pc.Reading? ==> Provenance(c, Step(LockOptions(false, 0, 0), c, w, ReadReply(r, fault)), keys)
  {
    var q := w.reqs[r];
    assert RequestFrom(c, w, keys, q);
    LookupServes(c, w, keys, q.key, fault);
    if q.pc.Polling? {
      AtKeeps(c, w, keys, r, AfterPoll(c, w, r, fault).reqs[r].pc);
    } else if q.pc.Checking? {
      AtKeeps(c, w, keys, r, AfterCheck(w, r, fault).reqs[r].pc);
    } else if q.pc.Reading? {
      AtKeeps(c, w, keys, r, match Lookup(c, w.store, q.key, fault)
                             case Some(v) => Done(Value(v))
                             case None => Missed);
    }
  }

  lemma OutcomesKeep<V>(c: Codec<V>, w: World<V>, keys: iset<Text>, r: ReqId, result: Outcome<V>)
    requires Provenance(c, w, keys) && r in w.reqs
    ensures w.reqs[r].pc.Computing? ==> Provenance(c, AfterCompute(w, r, result), keys)
    ensures w.reqs[r].pc.Settled? ==> Provenance(c, AfterSettle(w, r), keys)
    ensures w.reqs[r].pc.Following? ==> Provenance(c, AfterFollow(w, r), keys)
  {
    var q := w.reqs[r];
    assert RequestFrom(c, w, keys, q);
    if q.pc.Computing? {
      if result.Value? {
        var w' := w.(computed := w.computed + [(q.key, result.v)]);
        ComputedGrows(c, w, keys, (q.key, result.v));
        assert RequestFrom(c, w', keys, w'.reqs[r]);
        AtKeeps(c, w', keys, r, Storing(result.v, q.pc.locked));
      } else {
        AtKeeps(c, w, keys, r, Unlocked(Failed, q.pc.locked));
      }
    } else if q.pc.Settled? {
      SlotsChange(c, w, keys, w.inFlight - {(q.proc, q.key)});
      AtKeeps(c, w.(inFlight := w.inFlight - {(q.proc, q.key)}), keys, r, Done(q.pc.out));
    } else if q.pc.Following? && q.joined.Some? && w.reqs[q.joined.value].pc.Done? {
      assert RequestFrom(c, w, keys, w.reqs[q.joined.value]);
      AtKeeps(c, w, keys, r, Done(w.reqs[q.joined.value].pc.out));
    }
  }

  lemma StepKeepsProvenance<V>(o: LockOptions, c: Codec<V>, w: World<V>, keys: iset<Text>, e: Event<V>)
    requires Provenance(c, w, keys) && Proper(c, e, keys)
    ensures Provenance(c, Step(o, c, w, e), keys)
  {
    match e
    case Arrive(r, p, key) =>
      if r !in w.reqs {
        RewriteKeeps(c, w, keys, r, Req(p, key, Reading, [], None));
      }
    case ReadReply(r, fault) => if r in w.reqs { ReadsKeep(c, w, keys, r, fault); }
    case PollReply(r, fault) => if r in w.reqs { ReadsKeep(c, w, keys, r, fault); }
    case CheckReply(r, fault) => if r in w.reqs { ReadsKeep(c, w, keys, r, fault); }
    case Continue(r, token) =>
      if r in w.reqs && w.reqs[r].pc.Missed? { JoinOrLeadKeeps(o, c, w, keys, r, token); }
    case LockReply(r, reply) => if r in w.reqs { WritesKeep(o, c, w, keys, r, reply); }
    case StoreReply(r, reply) => if r in w.reqs { WritesKeep(o, c, w, keys, r, reply); }
    case DeleteReply(r, reply) => if r in w.reqs { WritesKeep(o, c, w, keys, r, reply); }
    case Computed(r, result) => if r in w.reqs { OutcomesKeep(c, w, keys, r, result); }
    case Settle(r) => if r in w.reqs { OutcomesKeep(c, w, keys, r, Failed); }
    case Follow(r) => if r in w.reqs { OutcomesKeep(c, w, keys, r, Failed); }
    case Expire(key) => StoreShrinks(c, w, keys, key);
    case Forget(p, key) => SlotsChange(c, w, keys, w.inFlight - {(p, key)});
  }

  lemma {:induction false} RunsKeepProvenance<V>(
        o: LockOptions, c: Codec<V>, w: World<V>, keys: iset<Text>, events: seq<Event<V>>)
    requires Provenance(c, w, keys) && forall e <- events :: Proper(c, e, keys)
    ensures Provenance(c, Run(o, c, w, events), keys)
    decreases |events|
  {
    if events != [] {
      StepKeepsProvenance(o, c, w, keys, events[0]);
      RunsKeepProvenance(o, c, Step(o, c, w, events[0]), keys, events[1..]);
    }
  }

  /**
    Whatever the interleaving, the faults, the expiries and the evictions: a call that returns a value
    returns one that some `compute` returned for the same key, possibly passed through the codec.
   */
  lemma ServedValuesWereComputed<V>(o: LockOptions, c: Codec<V>, keys: iset<Text>, events: seq<Event<V>>, r: ReqId)
    requires forall e <- events :: Proper(c, e, keys)
    ensures var w := Run(o, c, Empty(), events);
            r in w.reqs && w.reqs[r].pc.Done? && w.reqs[r].pc.out.Value? ==>
              ServedFrom(c, w.computed, w.reqs[r].key, w.reqs[r].pc.out.v)
  {
    RunsKeepProvenance(o, c, Empty(), keys, events);
    var w := Run(o, c, Empty(), events);
    if r in w.reqs {
      assert RequestFrom(c, w, keys, w.reqs[r]);
    }
  }

  // ---- Single flight in one process ---------------------------------------------------------

  /** The call that registered the promise and has not cleaned up yet. */
  predicate Leading<V>(q: Req<V>) {
    || q.pc.Locking? || q.pc.Polling? || q.pc.Computing? || q.pc.Storing? || q.pc.Checking? || q.pc.Deleting?
    || q.pc.Settled?
  }

  predicate Slot<V>(q: Req<V>, s: (Proc, Text)) {
    (q.proc, q.key) == s
  }

  /** A follower waits for, or has copied, the outcome of a leader of its own process and key. */
  ghost predicate FollowsWell<V>(w: World<V>, q: Req<V>) {
    match q.joined
    case None => !q.pc.Following?
    case Some(l) =>
      && l in w.reqs
      && Slot(w.reqs[l], (q.proc, q.key))
      && w.reqs[l].joined.None?
      && (Leading(w.reqs[l]) || w.reqs[l].pc.Done?)
      && (q.pc.Following? || (q.pc.Done? && w.reqs[l].pc == q.pc))
  }

  /** The in-flight map holds exactly the live leaders, so there is at most one per process and key. */
  ghost predicate SingleFlight<V>(w: World<V>) {
    && (forall s | s in w.inFlight ::
          w.inFlight[s] in w.reqs && Leading(w.reqs[w.inFlight[s]]) && Slot(w.reqs[w.inFlight[s]], s))
    && (forall r | r in w.reqs && Leading(w.reqs[r]) ::
          (w.reqs[r].proc, w.reqs[r].key) in w.inFlight && w.inFlight[(w.reqs[r].proc, w.reqs[r].key)] == r)
    && (forall r | r in w.reqs :: FollowsWell(w, w.reqs[r]))
  }

  /** `invalidate` does not reach into a live flight. */
  predicate Calm<V>(w: World<V>, e: Event<V>) {
    e.Forget? ==> (e.proc, e.key) !in w.inFlight
  }

  predicate CalmRun<V>(o: LockOptions, c: Codec<V>, w: World<V>, events: seq<Event<V>>)
    decreases |events|
  {
    events == [] || (Calm(w, events[0]) && CalmRun(o, c, Step(o, c, w, events[0]), events[1..]))
  }

  /** What a step of a live leader other than settling leaves in place. */
  ghost predicate StaysLeader<V>(w: World<V>, w': World<V>, r: ReqId)
    requires r in w.reqs
  {
    && r in w'.reqs
    && w'.reqs == w.reqs[r := w'.reqs[r]]
    && w'.inFlight == w.inFlight
    && Leading(w'.reqs[r])
    && w'.reqs[r].proc == w.reqs[r].proc && w'.reqs[r].key == w.reqs[r].key && w'.reqs[r].joined == w.reqs[r].joined
  }

  /** A live leader moves on and stays live. */
  lemma LeaderMoves<V>(w: World<V>, w': World<V>, r: ReqId)
    requires SingleFlight(w) && r in w.reqs && Leading(w.reqs[r]) && StaysLeader(w, w', r)
    ensures SingleFlight(w')
  {
    assert FollowsWell(w, w.reqs[r]);
    forall s | s in w'.reqs ensures FollowsWell(w', w'.reqs[s]) {
      if s != r {
        assert FollowsWell(w, w.reqs[s]);
      }
    }
  }

  lemma ArrivalKeepsFlight<V>(w: World<V>, r: ReqId, q: Req<V>)
    requires SingleFlight(w) && !Leading(q) && FollowsWell(w, q)
    requires r !in w.reqs || (!Leading(w.reqs[r]) && !w.reqs[r].pc.Done? && Slot(w.reqs[r], (q.proc, q.key)))
    ensures SingleFlight(w.(reqs := w.reqs[r := q]))
  {
    var w' := w.(reqs := w.reqs[r := q]);
    forall s | s in w'.reqs ensures FollowsWell(w', w'.reqs[s]) {
      if s != r {
        assert FollowsWell(w, w.reqs[s]);
      }
    }
  }

  lemma LeadingKeepsFlight<V>(o: LockOptions, w: World<V>, r: ReqId, token: Text)
    requires SingleFlight(w) && r in w.reqs && w.reqs[r].pc.Missed?
    ensures SingleFlight(JoinOrLead(o, w, r, token))
  {
    var q := w.reqs[r];
    assert FollowsWell(w, q);
    var slot := (q.proc, q.key);
    var w' := JoinOrLead(o, w, r, token);
    if slot in w.inFlight {
      assert FollowsWell(w, w.reqs[w.inFlight[slot]]);
      ArrivalKeepsFlight(w, r, w'.reqs[r]);
    } else {
      forall s | s in w'.reqs ensures FollowsWell(w', w'.reqs[s]) {
        if s != r {
          assert FollowsWell(w, w.reqs[s]);
        }
      }
    }
  }

  lemma SettlingKeepsFlight<V>(w: World<V>, r: ReqId)
    requires SingleFlight(w) && r in w.reqs && w.reqs[r].pc.Settled?
    ensures SingleFlight(AfterSettle(w, r))
  {
    var w' := AfterSettle(w, r);
    assert FollowsWell(w, w.reqs[r]);
    forall s | s in w'.reqs ensures FollowsWell(w', w'.reqs[s]) {
      if s != r {
        assert FollowsWell(w, w.reqs[s]);
      }
    }
  }

  lemma LeaderSteps<V>(o: LockOptions, c: Codec<V>, w: World<V>, e: Event<V>)
    requires !e.Expire? && !e.Forget? && !e.Arrive? && !e.Settle?
    requires e.r in w.reqs && Leading(w.reqs[e.r])
    ensures StaysLeader(w, Step(o, c, w, e), e.r)
  {
    var w' := Step(o, c, w, e);
    match e
    case LockReply(r, reply) => assert w'.reqs == w.reqs[r := w'.reqs[r]];
    case PollReply(r, fault) => assert w'.reqs == w.reqs[r := w'.reqs[r]];
    case Computed(r, result) => assert w'.reqs == w.reqs[r := w'.reqs[r]];
    case StoreReply(r, reply) => assert w'.reqs == w.reqs[r := w'.reqs[r]];
    case CheckReply(r, fault) => assert w'.reqs == w.reqs[r := w'.reqs[r]];
    case DeleteReply(r, reply) => assert w'.reqs == w.reqs[r := w'.reqs[r]];
    case _ =>
  }

  lemma SameFlight<V>(w: World<V>, w': World<V>)
    requires SingleFlight(w) && w'.reqs == w.reqs && w'.inFlight == w.inFlight
    ensures SingleFlight(w')
  {
  }

  /** A call that neither leads nor is done: it reads, joins or copies its leader's outcome. */
  lemma WaiterSteps<V>(o: LockOptions, c: Codec<V>, w: World<V>, e: Event<V>)
    requires SingleFlight(w) && !e.Expire? && !e.Forget? && !e.Arrive?
    requires e.r in w.reqs && !Leading(w.reqs[e.r])
    ensures SingleFlight(Step(o, c, w, e))
  {
    var w' := Step(o, c, w, e);
    assert FollowsWell(w, w.reqs[e.r]);
    match e
    case Continue(r, token) => if w.reqs[r].pc.Missed? { LeadingKeepsFlight(o, w, r, token); }
    case ReadReply(r, fault) => if w.reqs[r].pc.Reading? { ArrivalKeepsFlight(w, r, w'.reqs[r]); }
    case Follow(r) => if w.reqs[r].pc.Following? { ArrivalKeepsFlight(w, r, w'.reqs[r]); }
    case _ =>
  }

  lemma StepKeepsSingleFlight<V>(o: LockOptions, c: Codec<V>, w: World<V>, e: Event<V>)
    requires SingleFlight(w) && Calm(w, e)
    ensures SingleFlight(Step(o, c, w, e))
  {
    if e.Expire? || e.Forget? {
      SameFlight(w, Step(o, c, w, e));
    } else if e.Arrive? {
      if e.r !in w.reqs { ArrivalKeepsFlight(w, e.r, Req(e.proc, e.key, Reading, [], None)); }
    } else if e.r in w.reqs {
      if !Leading(w.reqs[e.r]) {
        WaiterSteps(o, c, w, e);
      } else if !e.Settle? {
        LeaderSteps(o, c, w, e);
        LeaderMoves(w, Step(o, c, w, e), e.r);
      } else if w.reqs[e.r].pc.Settled? {
        SettlingKeepsFlight(w, e.r);
      }
    }
  }

  /** Over any calm run, from any state in which it holds. */
  lemma {:induction false} RunsKeepSingleFlight<V>(o: LockOptions, c: Codec<V>, w: World<V>, events: seq<Event<V>>)
    requires SingleFlight(w) && CalmRun(o, c, w, events)
    ensures SingleFlight(Run(o, c, w, events))
    decreases |events|
  {
    if events != [] {
      StepKeepsSingleFlight(o, c, w, events[0]);
      RunsKeepSingleFlight(o, c, Step(o, c, w, events[0]), events[1..]);
    }
  }

  /** Eviction breaks single flight exactly when it hits a live flight. */
  lemma ForgetKeepsSingleFlight<V>(o: LockOptions, c: Codec<V>, w: World<V>, p: Proc, key: Text)
    requires SingleFlight(w)
    ensures SingleFlight(Step(o, c, w, Forget(p, key))) <==> (p, key) !in w.inFlight
  {
    var w' := Step(o, c, w, Forget(p, key));
    if (p, key) in w.inFlight {
      var r := w.inFlight[(p, key)];
      assert r in w'.reqs && Leading(w'.reqs[r]) && (w'.reqs[r].proc, w'.reqs[r].key) !in w'.inFlight;
    } else {
      StepKeepsSingleFlight(o, c, w, Forget(p, key));
    }
  }

  /** What single flight means for callers: one live leader per process and key, and shared outcomes. */
  lemma OneLeaderAndItsFollowers<V>(o: LockOptions, c: Codec<V>, events: seq<Event<V>>, r: ReqId, s: ReqId)
    requires CalmRun(o, c, Empty(), events)
    ensures var w := Run(o, c, Empty(), events);
            r in w.reqs && s in w.reqs && w.reqs[r].proc == w.reqs[s].proc && w.reqs[r].key == w.reqs[s].key ==>
              && (Leading(w.reqs[r]) && Leading(w.reqs[s]) ==> r == s)
              && (w.reqs[r].joined == Some(s) && w.reqs[r].pc.Done? ==> w.reqs[s].pc == w.reqs[r].pc)
  {
    RunsKeepSingleFlight(o, c, Empty(), events);
    var w := Run(o, c, Empty(), events);
    if r in w.reqs {
      assert FollowsWell(w, w.reqs[r]);
    }
  }

  /** A call that reads a miss and goes on. */
  function Miss<V>(r: ReqId, p: Proc, key: Text, token: Text): seq<Event<V>> {
    [Arrive(r, p, key), ReadReply(r, false), Continue(r, token)]
  }

  /** An eviction that hits a live flight lets a second call of the same process compute the same key. */
  lemma EvictionAllowsTwoLeaders<V>(o: LockOptions, c: Codec<V>, p: Proc, key: Text)
    ensures var w := Run(o, c, Empty(), Miss(0, p, key, [0]) + ([Forget(p, key)] + Miss(1, p, key, [1])));
            && 0 in w.reqs && 1 in w.reqs && Leading(w.reqs[0]) && Leading(w.reqs[1])
            && Slot(w.reqs[0], (p, key)) && Slot(w.reqs[1], (p, key))
  {
    var rest := [Forget(p, key)] + Miss(1, p, key, [1]);
    MissLeads(o, c, Empty(), 0, p, key, [0]);
    RunConcat(o, c, Empty(), Miss(0, p, key, [0]), rest);
    var w := Run(o, c, Empty(), Miss(0, p, key, [0]));
    MissLeads(o, c, Step(o, c, w, Forget(p, key)), 1, p, key, [1]);
    assert rest[1..] == Miss(1, p, key, [1]);
  }

  /** A call that finds neither a stored value nor a live flight leads. */
  lemma MissLeads<V>(o: LockOptions, c: Codec<V>, w: World<V>, r: ReqId, p: Proc, key: Text, token: Text)
    requires r !in w.reqs && (p, key) !in w.inFlight && key !in w.store
    ensures var w' := Run(o, c, w, Miss(r, p, key, token));
            && r in w'.reqs && Leading(w'.reqs[r]) && Slot(w'.reqs[r], (p, key))
            && w'.reqs == w.reqs[r := w'.reqs[r]] && w'.store == w.store
            && w'.inFlight == w.inFlight[(p, key) := r]
  {
    var w1 := Step(o, c, w, Arrive(r, p, key));
    var w2 := Step(o, c, w1, ReadReply(r, false));
    var w3 := Step(o, c, w2, Continue(r, token));
    var events: seq<Event<V>> := Miss(r, p, key, token);
    assert events[1..] == [ReadReply(r, false), Continue(r, token)] && events[1..][1..] == [Continue(r, token)];
    assert Run(o, c, w2, [Continue(r, token)]) == w3;
    assert Run(o, c, w1, events[1..]) == w3;
  }

  lemma {:induction false} RunConcat<V>(o: LockOptions, c: Codec<V>, w: World<V>, a: seq<Event<V>>, b: seq<Event<V>>)
    ensures Run(o, c, w, a + b) == Run(o, c, Run(o, c, w, a), b)
    decreases |a|
  {
    if a == [] {
      assert a + b == b;
    } else {
      assert (a + b)[1..] == a[1..] + b;
      RunConcat(o, c, Step(o, c, w, a[0]), a[1..], b);
    }
  }

  // ---- The distributed lock -----------------------------------------------------------------

  /** Between acquiring the lock and giving it back. */
  predicate Holding<V>(q: Req<V>) {
    (q.pc.Computing? && q.pc.locked) || (q.pc.Storing? && q.pc.locked) || q.pc.Checking? || q.pc.Deleting?
  }

  /** The lock key of every holder carries the holder's token, and no two live calls share a token. */
  ghost predicate LockHeld<V>(w: World<V>, keys: iset<Text>) {
    && (forall r | r in w.reqs :: w.reqs[r].key in keys)
    && (forall r | r in w.reqs && Holding(w.reqs[r]) ::
          LockKey(w.reqs[r].key) in w.store && w.store[LockKey(w.reqs[r].key)] == w.reqs[r].token)
    && (forall r, s | r in w.reqs && s in w.reqs && r != s && Leading(w.reqs[r]) && Leading(w.reqs[s]) ::
          w.reqs[r].token != w.reqs[s].token)
  }

  /** Tokens are fresh, and the lock outlives its holder (`lockTtlMs` exceeds the slowest compute). */
  ghost predicate LockOutlives<V>(w: World<V>, e: Event<V>) {
    && (e.Continue? ==> forall r | r in w.reqs && Leading(w.reqs[r]) :: w.reqs[r].token != e.token)
    && (e.Expire? ==> forall r | r in w.reqs && Holding(w.reqs[r]) :: LockKey(w.reqs[r].key) != e.key)
  }

  ghost predicate LockOutlivesRun<V>(o: LockOptions, c: Codec<V>, w: World<V>, events: seq<Event<V>>)
    decreases |events|
  {
    events == [] || (LockOutlives(w, events[0]) && LockOutlivesRun(o, c, Step(o, c, w, events[0]), events[1..]))
  }

  /** A step of `r` that takes no lock and frees none. */
  lemma LockFrame<V>(w: World<V>, w': World<V>, keys: iset<Text>, r: ReqId)
    requires LockHeld(w, keys) && r in w.reqs && r in w'.reqs && w'.reqs == w.reqs[r := w'.reqs[r]]
    requires w'.reqs[r].key == w.reqs[r].key
    requires Holding(w'.reqs[r]) ==> Holding(w.reqs[r])
    requires Leading(w'.reqs[r]) ==> Leading(w.reqs[r]) && w'.reqs[r].token == w.reqs[r].token
    requires forall k | k in keys && LockKey(k) in w.store ::
               LockKey(k) in w'.store && w'.store[LockKey(k)] == w.store[LockKey(k)]
    ensures LockHeld(w', keys)
  {
  }

  lemma LockTaken<V>(o: LockOptions, w: World<V>, keys: iset<Text>, r: ReqId, reply: Reply)
    requires LockHeld(w, keys) && r in w.reqs && w.reqs[r].pc.Locking?
    ensures LockHeld(AfterLock(o, w, r, reply), keys)
  {
    var w' := AfterLock(o, w, r, reply);
    var lock := LockKey(w.reqs[r].key);
    forall s | s in w'.reqs && Holding(w'.reqs[s])
      ensures LockKey(w'.reqs[s].key) in w'.store && w'.store[LockKey(w'.reqs[s].key)] == w'.reqs[s].token
    {
      if s != r && LockKey(w.reqs[s].key) == lock {
        assert lock in w.store;
      }
    }
  }

  lemma LockFreed<V>(w: World<V>, keys: iset<Text>, r: ReqId, reply: Reply)
    requires LockHeld(w, keys) && r in w.reqs && w.reqs[r].pc.Deleting?
    ensures LockHeld(AfterDelete(w, r, reply), keys)
  {
  }

  lemma LeadKeepsLock<V>(o: LockOptions, w: World<V>, keys: iset<Text>, r: ReqId, token: Text)
    requires LockHeld(w, keys) && r in w.reqs && w.reqs[r].pc.Missed?
    requires forall s | s in w.reqs && Leading(w.reqs[s]) :: w.reqs[s].token != token
    ensures LockHeld(JoinOrLead(o, w, r, token), keys)
  {
  }

  lemma StoreKeepsLock<V>(c: Codec<V>, w: World<V>, keys: iset<Text>, r: ReqId, reply: Reply)
    requires LockHeld(w, keys) && Separate(keys) && r in w.reqs && w.reqs[r].pc.Storing?
    ensures LockHeld(AfterStore(c, w, r, reply), keys)
  {
    assert w.reqs[r].key in keys;
    LockFrame(w, AfterStore(c, w, r, reply), keys, r);
  }

  /** A step that writes nothing to Redis and takes no lock. */
  ghost predicate Harmless<V>(w: World<V>, w': World<V>, r: ReqId)
    requires r in w.reqs
  {
    && w'.store == w.store && r in w'.reqs && w'.reqs == w.reqs[r := w'.reqs[r]] && w'.reqs[r].key == w.reqs[r].key
    && (Holding(w'.reqs[r]) ==> Holding(w.reqs[r]))
    && (Leading(w'.reqs[r]) ==> Leading(w.reqs[r]) && w'.reqs[r].token == w.reqs[r].token)
  }

  lemma ReadStepIsHarmless<V>(o: LockOptions, c: Codec<V>, w: World<V>, e: Event<V>)
    requires e.ReadReply? || e.PollReply? || e.Computed? || e.CheckReply? || e.Settle? || e.Follow?
    requires e.r in w.reqs
    ensures Harmless(w, Step(o, c, w, e), e.r)
  {
    match e
    case _ =>
  }

  lemma ReadStepKeepsLock<V>(o: LockOptions, c: Codec<V>, w: World<V>, keys: iset<Text>, e: Event<V>)
    requires LockHeld(w, keys)
    requires e.ReadReply? || e.PollReply? || e.Computed? || e.CheckReply? || e.Settle? || e.Follow?
    ensures LockHeld(Step(o, c, w, e), keys)
  {
    if e.r in w.reqs {
      ReadStepIsHarmless(o, c, w, e);
      LockFrame(w, Step(o, c, w, e), keys, e.r);
    }
  }

  lemma StepKeepsLock<V>(o: LockOptions, c: Codec<V>, w: World<V>, keys: iset<Text>, e: Event<V>)
    requires LockHeld(w, keys) && Separate(keys) && Addressed(e, keys) && LockOutlives(w, e)
    ensures LockHeld(Step(o, c, w, e), keys)
  {
    match e
    case Arrive(_, _, _) =>
    case Expire(_) =>
    case Forget(_, _) =>
    case Continue(r, token) => if r in w.reqs && w.reqs[r].pc.Missed? { LeadKeepsLock(o, w, keys, r, token); }
    case LockReply(r, reply) => if r in w.reqs && w.reqs[r].pc.Locking? { LockTaken(o, w, keys, r, reply); }
    case StoreReply(r, reply) => if r in w.reqs && w.reqs[r].pc.Storing? { StoreKeepsLock(c, w, keys, r, reply); }
    case DeleteReply(r, reply) => if r in w.reqs && w.reqs[r].pc.Deleting? { LockFreed(w, keys, r, reply); }
    case ReadReply(_, _) => ReadStepKeepsLock(o, c, w, keys, e);
    case PollReply(_, _) => ReadStepKeepsLock(o, c, w, keys, e);
    case Computed(_, _) => ReadStepKeepsLock(o, c, w, keys, e);
    case CheckReply(_, _) => ReadStepKeepsLock(o, c, w, keys, e);
    case Settle(_) => ReadStepKeepsLock(o, c, w, keys, e);
    case Follow(_) => ReadStepKeepsLock(o, c, w, keys, e);
  }

  lemma {:induction false} RunsKeepLock<V>(
        o: LockOptions, c: Codec<V>, w: World<V>, keys: iset<Text>, events: seq<Event<V>>)
    requires LockHeld(w, keys) && Separate(keys) && LockOutlivesRun(o, c, w, events)
    requires forall e <- events :: Addressed(e, keys)
    ensures LockHeld(Run(o, c, w, events), keys)
    decreases |events|
  {
    if events != [] {
      StepKeepsLock(o, c, w, keys, events[0]);
      RunsKeepLock(o, c, Step(o, c, w, events[0]), keys, events[1..]);
    }
  }

  /**
    Across all processes at most one call computes a key under the lock, although the release checks and
    deletes in two commands, as long as no lock expires under its holder.
   */
  lemma LockIsExclusive<V>(o: LockOptions, c: Codec<V>, keys: iset<Text>, events: seq<Event<V>>, r: ReqId, s: ReqId)
    requires Separate(keys) && LockOutlivesRun(o, c, Empty(), events) && forall e <- events :: Addressed(e, keys)
    ensures var w := Run(o, c, Empty(), events);
            r in w.reqs && s in w.reqs && Holding(w.reqs[r]) && Holding(w.reqs[s]) && w.reqs[r].key == w.reqs[s].key ==>
              r == s
  {
    RunsKeepLock(o, c, Empty(), keys, events);
  }

  // ---- Releases ------------------------------------------------------------------------------

  /** A release deletes the lock exactly when the check was answered and found the caller's own token. */
  lemma ReleaseComparesTokens<V>(o: LockOptions, c: Codec<V>, w: World<V>, r: ReqId, fault: bool, reply: Reply)
    requires r in w.reqs && w.reqs[r].pc.Checking?
    ensures var lock := LockKey(w.reqs[r].key);
            var after := Step(o, c, Step(o, c, w, CheckReply(r, fault)), DeleteReply(r, reply)).store;
            if lock in w.store && w.store[lock] == w.reqs[r].token && !fault && reply != RequestLost
            then after == w.store - {lock} else after == w.store
  {
  }

  /** A call starts to hold the lock when it takes the free lock and hears so, and holds it until its release. */
  lemma HoldingIsBracketed<V>(o: LockOptions, c: Codec<V>, w: World<V>, e: Event<V>, r: ReqId)
    requires r in w.reqs && r in Step(o, c, w, e).reqs
    ensures var lock, w' := LockKey(w.reqs[r].key), Step(o, c, w, e);
            && (!Holding(w.reqs[r]) && Holding(w'.reqs[r]) ==>
                  e == LockReply(r, Answered) && lock !in w.store && w'.store == w.store[lock := w.reqs[r].token])
            && (Holding(w.reqs[r]) && !Holding(w'.reqs[r]) ==>
                  || (e.DeleteReply? && e.r == r && w.reqs[r].pc.Deleting?)
                  || (e.CheckReply? && e.r == r && w.reqs[r].pc.Checking?
                      && (e.fault || lock !in w.store || w.store[lock] != w.reqs[r].token)))
  {
    if e.Expire? || e.Forget? || e.Arrive? || e.r != r {
      OtherStep(o, c, w, e, r);
    }
  }

  /** The state before the `i`-th event. */
  function Before<V>(o: LockOptions, c: Codec<V>, events: seq<Event<V>>, i: nat): World<V>
    requires i <= |events|
  {
    Run(o, c, Empty(), events[..i])
  }

  lemma NextState<V>(o: LockOptions, c: Codec<V>, events: seq<Event<V>>, i: nat)
    requires i < |events|
    ensures Before(o, c, events, i + 1) == Step(o, c, Before(o, c, events, i), events[i])
  {
    assert events[..i + 1] == events[..i] + [events[i]];
    RunConcat(o, c, Empty(), events[..i], [events[i]]);
    assert Run(o, c, Before(o, c, events, i), [events[i]]) == Step(o, c, Before(o, c, events, i), events[i]);
  }

  /** The `i`-th event is an answered check of `r` that finds its own token. */
  ghost predicate ChecksOwn<V>(o: LockOptions, c: Codec<V>, events: seq<Event<V>>, i: nat, r: ReqId)
    requires i < |events|
  {
    var w := Before(o, c, events, i);
    && events[i] == CheckReply(r, false) && r in w.reqs
    && LockKey(w.reqs[r].key) in w.store && w.store[LockKey(w.reqs[r].key)] == w.reqs[r].token
  }

  /** The `i`-th event removes the lock, or changes it. */
  ghost predicate Drops<V>(o: LockOptions, c: Codec<V>, events: seq<Event<V>>, i: nat, lock: Text)
    requires i < |events|
  {
    var before, after := Before(o, c, events, i).store, Before(o, c, events, i + 1).store;
    lock in before && (lock !in after || after[lock] != before[lock])
  }

  /** Only an answered check that finds the caller's own token lets a call delete. */
  lemma OnlyChecksArm<V>(o: LockOptions, c: Codec<V>, w: World<V>, e: Event<V>, r: ReqId)
    requires var w' := Step(o, c, w, e); r in w'.reqs && w'.reqs[r].pc.Deleting?
    ensures r in w.reqs && Step(o, c, w, e).reqs[r].key == w.reqs[r].key
    ensures Step(o, c, w, e).reqs[r].token == w.reqs[r].token
    ensures var lock := LockKey(w.reqs[r].key);
            || w.reqs[r].pc.Deleting?
            || (e == CheckReply(r, false) && lock in w.store && w.store[lock] == w.reqs[r].token)
    ensures !(e.DeleteReply? && e.r == r)
  {
    if r in w.reqs && (e.Expire? || e.Forget? || e.Arrive? || e.r != r) {
      OtherStep(o, c, w, e, r);
    }
  }

  /** So before every delete there was such a check, by the same call with the same token. */
  lemma {:induction false} DeletesWereChecked<V>(
        o: LockOptions, c: Codec<V>, events: seq<Event<V>>, i: nat, r: ReqId) returns (j: nat)
    requires i <= |events|
    requires var w := Before(o, c, events, i); r in w.reqs && w.reqs[r].pc.Deleting?
    ensures j < i && ChecksOwn(o, c, events, j, r)
    ensures Before(o, c, events, j).reqs[r].key == Before(o, c, events, i).reqs[r].key
    ensures Before(o, c, events, j).reqs[r].token == Before(o, c, events, i).reqs[r].token
    ensures Adjacent(events) ==> j == i - 1
    decreases i
  {
    NextState(o, c, events, i - 1);
    var w := Before(o, c, events, i - 1);
    OnlyChecksArm(o, c, w, events[i - 1], r);
    j := i - 1;
    if w.reqs[r].pc.Deleting? {
      j := DeletesWereChecked(o, c, events, i - 1, r);
    }
  }

  /** Nothing comes between a check and its delete. */
  ghost predicate Adjacent<V>(events: seq<Event<V>>) {
    forall i | 0 <= i < |events| - 1 && events[i].CheckReply? ::
      events[i + 1].DeleteReply? && events[i + 1].r == events[i].r
  }

  /** All calls are for value keys. */
  ghost predicate Calls<V>(w: World<V>, keys: iset<Text>) {
    forall r <- w.reqs :: w.reqs[r].key in keys
  }

  lemma CallsStay<V>(o: LockOptions, c: Codec<V>, w: World<V>, e: Event<V>, r: ReqId)
    requires r in Step(o, c, w, e).reqs
    ensures if r in w.reqs then Step(o, c, w, e).reqs[r].key == w.reqs[r].key
            else e.Arrive? && Step(o, c, w, e).reqs[r].key == e.key
  {
    if r in w.reqs && (e.Expire? || e.Forget? || e.Arrive? || e.r != r) {
      OtherStep(o, c, w, e, r);
    }
  }

  lemma {:induction false} RunsKeepCalls<V>(
        o: LockOptions, c: Codec<V>, w: World<V>, keys: iset<Text>, events: seq<Event<V>>)
    requires Calls(w, keys) && forall e <- events :: Addressed(e, keys)
    ensures Calls(Run(o, c, w, events), keys)
    decreases |events|
  {
    if events != [] {
      assert events[0] in events;
      forall r <- Step(o, c, w, events[0]).reqs ensures Step(o, c, w, events[0]).reqs[r].key in keys {
        CallsStay(o, c, w, events[0], r);
      }
      RunsKeepCalls(o, c, Step(o, c, w, events[0]), keys, events[1..]);
    }
  }

  /** A lock is never overwritten; it goes by an expiry or by a release of the same lock. */
  lemma LockGoes<V>(o: LockOptions, c: Codec<V>, w: World<V>, keys: iset<Text>, e: Event<V>, key: Text)
    requires Calls(w, keys) && Separate(keys) && key in keys && LockKey(key) in w.store
    ensures var lock, w' := LockKey(key), Step(o, c, w, e);
            if lock in w'.store then w'.store[lock] == w.store[lock]
            else
              || e == Expire(lock)
              || (e.DeleteReply? && e.r in w.reqs && w.reqs[e.r].pc.Deleting? && LockKey(w.reqs[e.r].key) == lock)
  {
  }

  /** A lock that was there and is not as it was has gone in between. */
  lemma {:induction false} DropBetween<V>(
        o: LockOptions, c: Codec<V>, events: seq<Event<V>>, i: nat, j: nat, lock: Text) returns (k: nat)
    requires i <= j <= |events| && lock in Before(o, c, events, i).store
    requires lock in Before(o, c, events, j).store ==>
               Before(o, c, events, j).store[lock] != Before(o, c, events, i).store[lock]
    ensures i <= k < j && Drops(o, c, events, k, lock)
    decreases j - i
  {
    k := i;
    if !Drops(o, c, events, i, lock) {
      k := DropBetween(o, c, events, i + 1, j, lock);
    }
  }

  /**
    The race that the two-command release leaves, exactly. Over any run, locks expiring under their holders
    included: a lock goes by an expiry or by the delete of a call whose check had found its own token; and when the
    deleted lock is another call's, it replaced that token between the check and the delete.
   */
  lemma LocksGoToOwners<V>(
        o: LockOptions, c: Codec<V>, keys: iset<Text>, events: seq<Event<V>>, e: Event<V>, key: Text)
    returns (i: nat, k: nat)
    requires Separate(keys) && key in keys && forall e <- events :: Addressed(e, keys)
    requires LockKey(key) in Run(o, c, Empty(), events).store
    requires LockKey(key) !in Step(o, c, Run(o, c, Empty(), events), e).store
    ensures var lock, w := LockKey(key), Run(o, c, Empty(), events);
            || e == Expire(lock)
            || (e.DeleteReply? && e.r in w.reqs && LockKey(w.reqs[e.r].key) == lock
                && i < |events| && ChecksOwn(o, c, events, i, e.r)
                && (w.store[lock] == w.reqs[e.r].token || (i < k < |events| && Drops(o, c, events, k, lock))))
    ensures Adjacent(events + [e]) && e.DeleteReply? && e != Expire(LockKey(key)) ==> i + 1 == |events|
  {
    var lock, w := LockKey(key), Run(o, c, Empty(), events);
    assert events[..|events|] == events;
    RunsKeepCalls(o, c, Empty(), keys, events);
    LockGoes(o, c, w, keys, e, key);
    i, k := 0, 0;
    if e != Expire(lock) {
      assert Adjacent(events + [e]) ==> Adjacent(events) by {
        assert forall x | 0 <= x < |events| :: (events + [e])[x] == events[x];
      }
      i := DeletesWereChecked(o, c, events, |events|, e.r);
      if w.store[lock] != w.reqs[e.r].token {
        NextState(o, c, events, i);
        k := DropBetween(o, c, events, i + 1, |events|, lock);
      }
    }
  }

  /**
    A successor's lock is safe from late releases, with no assumption on how long locks live: where each delete
    follows its check directly, a lock is removed only by an expiry or by the call whose token it holds.
   */
  lemma OnlyOwnersUnlock<V>(
        o: LockOptions, c: Codec<V>, keys: iset<Text>, events: seq<Event<V>>, e: Event<V>, key: Text)
    requires Separate(keys) && key in keys && forall e <- events :: Addressed(e, keys)
    requires Adjacent(events + [e])
    requires LockKey(key) in Run(o, c, Empty(), events).store
    requires LockKey(key) !in Step(o, c, Run(o, c, Empty(), events), e).store
    ensures var lock, w := LockKey(key), Run(o, c, Empty(), events);
            || e == Expire(lock)
            || (e.DeleteReply? && e.r in w.reqs && LockKey(w.reqs[e.r].key) == lock
                && w.reqs[e.r].token == w.store[lock])
  {
    var i, k := LocksGoToOwners(o, c, keys, events, e, key);
  }

  // ---- Outcomes ------------------------------------------------------------------------------

  /** The call is bound to return `out`. */
  predicate Bound<V(==)>(pc: Pc<V>, out: Outcome<V>) {
    if pc.Storing? then out == Value(pc.v)
    else (pc.Checking? || pc.Deleting? || pc.Settled? || pc.Done?) && pc.out == out
  }

  /** Once bound a call stays bound, whatever Redis answers. */
  lemma {:induction false} BoundForGood<V>(
        o: LockOptions, c: Codec<V>, w: World<V>, events: seq<Event<V>>, r: ReqId, out: Outcome<V>)
    requires r in w.reqs && Bound(w.reqs[r].pc, out)
    ensures r in Run(o, c, w, events).reqs && Bound(Run(o, c, w, events).reqs[r].pc, out)
    decreases |events|
  {
    if events != [] {
      if events[0].Expire? || events[0].Forget? || events[0].Arrive? || events[0].r != r {
        OtherStep(o, c, w, events[0], r);
      }
      BoundForGood(o, c, Step(o, c, w, events[0]), events[1..], r, out);
    }
  }

  /**
    The cache never gets in the way of a read: what `compute` returned or threw is what the call ends with, however
    the store, the check and the delete fare and whatever the other calls do.
   */
  lemma ComputedIsReturned<V>(
        o: LockOptions, c: Codec<V>, w: World<V>, r: ReqId, result: Outcome<V>, events: seq<Event<V>>)
    requires r in w.reqs && w.reqs[r].pc.Computing?
    ensures var w' := Run(o, c, Step(o, c, w, Computed(r, result)), events);
            r in w'.reqs && Bound(w'.reqs[r].pc, result)
  {
    BoundForGood(o, c, Step(o, c, w, Computed(r, result)), events, r, result);
  }

  /** With Redis out of reach a call computes at once, returns what it computed and leaves the store alone. */
  lemma OutageComputes<V>(o: LockOptions, c: Codec<V>, w: World<V>, r: ReqId, p: Proc, key: Text, token: Text, v: V)
    requires r !in w.reqs && (p, key) !in w.inFlight
    ensures var lock := if o.enabled then [LockReply(r, RequestLost)] else [];
            Run(o, c, w, [Arrive(r, p, key), ReadReply(r, true), Continue(r, token)]
                         + (lock + [Computed(r, Value(v)), StoreReply(r, RequestLost), Settle(r)])) ==
              World(w.store, w.inFlight, w.reqs[r := Req(p, key, Done(Value(v)), token, None)],
                    w.computed + [(key, v)])
  {
    var w3 := w.(reqs := w.reqs[r := Req(p, key, if o.enabled then Locking else Computing(false), token, None)],
                 inFlight := w.inFlight[(p, key) := r]);
    var w4 := w.(reqs := w.reqs[r := Req(p, key, Computing(false), token, None)],
                 inFlight := w.inFlight[(p, key) := r]);
    var last := [Computed(r, Value(v)), StoreReply(r, RequestLost), Settle(r)];
    var lock := if o.enabled then [LockReply(r, RequestLost)] else [];
    MissedRead(o, c, w, r, p, key, token, true);
    RunConcat(o, c, w, [Arrive(r, p, key), ReadReply(r, true), Continue(r, token)], lock + last);
    RunConcat(o, c, w3, lock, last);
    if o.enabled {
      UnansweredLock(o, c, w3, r, RequestLost);
      assert w3.reqs[r := w3.reqs[r].(pc := Computing(false))] == w4.reqs;
    }
    ComputeUnlocked(o, c, w4, r, v, RequestLost);
    assert w4.inFlight - {(p, key)} == w.inFlight;
    assert w4.reqs[r := Req(p, key, Done(Value(v)), token, None)] ==
           w.reqs[r := Req(p, key, Done(Value(v)), token, None)];
  }

  lemma MissedRead<V>(o: LockOptions, c: Codec<V>, w: World<V>, r: ReqId, p: Proc, key: Text, token: Text, fault: bool)
    requires r !in w.reqs && (p, key) !in w.inFlight && (fault || key !in w.store)
    ensures Run(o, c, w, [Arrive(r, p, key), ReadReply(r, fault), Continue(r, token)]) ==
              w.(reqs := w.reqs[r := Req(p, key, if o.enabled then Locking else Computing(false), token, None)],
                 inFlight := w.inFlight[(p, key) := r])
  {
    ThreeSteps(o, c, w, Arrive(r, p, key), ReadReply(r, fault), Continue(r, token));
    var w1 := w.(reqs := w.reqs[r := Req(p, key, Reading, [], None)]);
    var w2 := w.(reqs := w.reqs[r := Req(p, key, Missed, [], None)]);
    assert Step(o, c, w1, ReadReply(r, fault)).reqs == w2.reqs;
    assert JoinOrLead(o, w2, r, token).reqs ==
           w.reqs[r := Req(p, key, if o.enabled then Locking else Computing(false), token, None)];
  }

  /** A call that gets no answer to its SET-NX computes at once and will release nothing. */
  lemma UnansweredLock<V>(o: LockOptions, c: Codec<V>, w: World<V>, r: ReqId, reply: Reply)
    requires r in w.reqs && w.reqs[r].pc.Locking? && reply != Answered
    ensures var lock := LockKey(w.reqs[r].key);
            Run(o, c, w, [LockReply(r, reply)]) ==
              w.(store := if reply == AnswerLost && lock !in w.store then w.store[lock := w.reqs[r].token] else w.store,
                 reqs := w.reqs[r := w.reqs[r].(pc := Computing(false))])
  {
    var events: seq<Event<V>> := [LockReply(r, reply)];
    assert events[1..] == [];
  }

  /** A call that computes without the lock stores its value all the same. */
  lemma ComputeUnlocked<V>(o: LockOptions, c: Codec<V>, w: World<V>, r: ReqId, v: V, reply: Reply)
    requires r in w.reqs && w.reqs[r].pc == Computing(false)
    ensures var q := w.reqs[r];
            Run(o, c, w, [Computed(r, Value(v)), StoreReply(r, reply), Settle(r)]) ==
              World(if reply == RequestLost then w.store else w.store[q.key := c.encode(v)],
                    w.inFlight - {(q.proc, q.key)}, w.reqs[r := q.(pc := Done(Value(v)))], w.computed + [(q.key, v)])
  {
    ThreeSteps(o, c, w, Computed(r, Value(v)), StoreReply(r, reply), Settle(r));
    var w1 := Step(o, c, w, Computed(r, Value(v)));
    var w2 := Step(o, c, w1, StoreReply(r, reply));
    assert w2.reqs == w.reqs[r := w.reqs[r].(pc := Settled(Value(v)))];
    assert Step(o, c, w2, Settle(r)).reqs == w.reqs[r := w.reqs[r].(pc := Done(Value(v)))];
  }

  /** A call that finds another instance's lock polls as long as its polls find nothing, and only then computes. */
  lemma {:induction false} LoserWaits<V>(o: LockOptions, c: Codec<V>, w: World<V>, r: ReqId, polls: seq<Event<V>>)
    requires r in w.reqs && LockKey(w.reqs[r].key) in w.store && w.reqs[r].key !in w.store
    requires w.reqs[r].pc.Locking? && |polls| <= Attempts(o) && forall e <- polls :: e == PollReply(r, false)
    ensures Run(o, c, w, [LockReply(r, Answered)] + polls) ==
              At(w, r, if |polls| < Attempts(o) then Polling(Attempts(o) - |polls|) else Computing(false))
  {
    assert ([LockReply(r, Answered)] + polls)[1..] == polls;
    assert Step(o, c, w, LockReply(r, Answered)) == At(w, r, Polling(Attempts(o)));
    PollsInVain(o, c, At(w, r, Polling(Attempts(o))), r, polls);
  }

  lemma {:induction false} PollsInVain<V>(o: LockOptions, c: Codec<V>, w: World<V>, r: ReqId, polls: seq<Event<V>>)
    requires r in w.reqs && w.reqs[r].key !in w.store && w.reqs[r].pc.Polling? && |polls| <= w.reqs[r].pc.left
    requires w.reqs[r].pc.left > 0 && forall e <- polls :: e == PollReply(r, false)
    ensures Run(o, c, w, polls) ==
              At(w, r, if |polls| < w.reqs[r].pc.left then Polling(w.reqs[r].pc.left - |polls|) else Computing(false))
    decreases |polls|
  {
    if polls != [] {
      assert polls[0] in polls;
      var w' := Step(o, c, w, polls[0]);
      if w.reqs[r].pc.left > 1 {
        assert w' == At(w, r, Polling(w.reqs[r].pc.left - 1));
        assert forall e <- polls[1..] :: e in polls;
        PollsInVain(o, c, w', r, polls[1..]);
        assert forall pc :: At(w', r, pc).reqs == At(w, r, pc).reqs;
      } else {
        assert polls[1..] == [];
      }
    } else {
      assert At(w, r, w.reqs[r].pc).reqs == w.reqs;
    }
  }

  /** A call that misses and then takes the lock. */
  function Take<V>(r: ReqId, p: Proc, key: Text, token: Text): seq<Event<V>> {
    Miss(r, p, key, token) + [LockReply(r, Answered)]
  }

  lemma TakesTheLock<V>(o: LockOptions, c: Codec<V>, w: World<V>, r: ReqId, p: Proc, key: Text, token: Text)
    requires o.enabled && r !in w.reqs && (p, key) !in w.inFlight && key !in w.store && LockKey(key) !in w.store
    ensures Run(o, c, w, Take(r, p, key, token)) ==
              World(w.store[LockKey(key) := token], w.inFlight[(p, key) := r],
                    w.reqs[r := Req(p, key, Computing(true), token, None)], w.computed)
  {
    MissedRead(o, c, w, r, p, key, token, false);
    var w1 := w.(reqs := w.reqs[r := Req(p, key, Locking, token, None)], inFlight := w.inFlight[(p, key) := r]);
    var last: seq<Event<V>> := [LockReply(r, Answered)];
    RunConcat(o, c, w, Miss(r, p, key, token), last);
    assert last[1..] == [];
    assert Step(o, c, w1, last[0]).reqs == w.reqs[r := Req(p, key, Computing(true), token, None)];
  }

  /**
    What the two-command release is there for: a lock that expires under its holder lets a second process take it,
    and then the first one's release leaves the second one's lock alone.
   */
  lemma ExpiredLockIsTakenAndKept<V>(
        o: LockOptions, c: Codec<V>, p: Proc, q: Proc, key: Text, t0: Text, t1: Text, v: V)
    requires o.enabled && p != q && t0 != t1
    ensures var w := Run(o, c, Empty(), Take(0, p, key, t0) + ([Expire(LockKey(key))] + Take(1, q, key, t1)));
            && 0 in w.reqs && 1 in w.reqs && Holding(w.reqs[0]) && Holding(w.reqs[1])
            && LockKey(key) in Run(o, c, w, Release(0, v)).store
            && Run(o, c, w, Release(0, v)).store[LockKey(key)] == t1
  {
    var lock := LockKey(key);
    assert lock != key by { assert |lock| > |key|; }
    var rest := [Expire(lock)] + Take(1, q, key, t1);
    TakesTheLock(o, c, Empty(), 0, p, key, t0);
    RunConcat(o, c, Empty(), Take(0, p, key, t0), rest);
    var w1 := Run(o, c, Empty(), Take(0, p, key, t0));
    assert rest[1..] == Take(1, q, key, t1);
    TakesTheLock(o, c, Step(o, c, w1, Expire(lock)), 1, q, key, t1);
    var w := Run(o, c, w1, rest);
    ForeignLockIsKept(o, c, w, 0, v);
  }

  /** The steps of a lock holder from the end of its compute to the end of its release. */
  function Release<V>(r: ReqId, v: V): seq<Event<V>> {
    [Computed(r, Value(v)), StoreReply(r, Answered)] + [CheckReply(r, false), DeleteReply(r, Answered)]
  }

  lemma ForeignLockIsKept<V>(o: LockOptions, c: Codec<V>, w: World<V>, r: ReqId, v: V)
    requires r in w.reqs && w.reqs[r].pc == Computing(true)
    requires LockKey(w.reqs[r].key) in w.store && w.store[LockKey(w.reqs[r].key)] != w.reqs[r].token
    ensures Run(o, c, w, Release(r, v)).store == w.store[w.reqs[r].key := c.encode(v)]
  {
    var lock := LockKey(w.reqs[r].key);
    assert lock != w.reqs[r].key by { assert |lock| > |w.reqs[r].key|; }
    var a: seq<Event<V>>, b: seq<Event<V>> :=
      [Computed(r, Value(v)), StoreReply(r, Answered)], [CheckReply(r, false), DeleteReply(r, Answered)];
    RunConcat(o, c, w, a, b);
    TwoSteps(o, c, w, a[0], a[1]);
    var w2 := Run(o, c, w, a);
    TwoSteps(o, c, w2, b[0], b[1]);
    ReleaseComparesTokens(o, c, w2, r, false, Answered);
  }

  lemma TwoSteps<V>(o: LockOptions, c: Codec<V>, w: World<V>, a: Event<V>, b: Event<V>)
    ensures Run(o, c, w, [a, b]) == Step(o, c, Step(o, c, w, a), b)
  {
    assert [a, b][1..] == [b];
    assert Run(o, c, Step(o, c, w, a), [b]) == Step(o, c, Step(o, c, w, a), b);
  }

  // ---- Undisturbed calls --------------------------------------------------------------------

  /** The steps of a call that finds nothing, wins the lock and meets no fault. */
  function Rebuild<V>(r: ReqId, v: V): seq<Event<V>> {
    [LockReply(r, Answered), Computed(r, Value(v)), StoreReply(r, Answered),
     CheckReply(r, false), DeleteReply(r, Answered), Settle(r)]
  }

  lemma LockComputeStore<V>(o: LockOptions, c: Codec<V>, w: World<V>, r: ReqId, v: V)
    requires r in w.reqs && w.reqs[r].pc.Locking? && LockKey(w.reqs[r].key) !in w.store
    ensures var q := w.reqs[r];
            var w2 := Step(o, c, Step(o, c, w, LockReply(r, Answered)), Computed(r, Value(v)));
            Step(o, c, w2, StoreReply(r, Answered)) ==
              World(w.store[LockKey(q.key) := q.token][q.key := c.encode(v)], w.inFlight,
                    w.reqs[r := q.(pc := Checking(Value(v)))], w.computed + [(q.key, v)])
  {
    var w1 := Step(o, c, w, LockReply(r, Answered));
    var w2 := Step(o, c, w1, Computed(r, Value(v)));
    var w3 := Step(o, c, w2, StoreReply(r, Answered));
    assert w3.reqs == w.reqs[r := w.reqs[r].(pc := Checking(Value(v)))];
  }

  lemma ReleaseAndSettle<V>(o: LockOptions, c: Codec<V>, w: World<V>, r: ReqId, v: V)
    requires r in w.reqs && w.reqs[r].pc == Checking(Value(v))
    requires LockKey(w.reqs[r].key) in w.store && w.store[LockKey(w.reqs[r].key)] == w.reqs[r].token
    ensures var q := w.reqs[r];
            Step(o, c, Step(o, c, Step(o, c, w, CheckReply(r, false)), DeleteReply(r, Answered)), Settle(r)) ==
              World(w.store - {LockKey(q.key)}, w.inFlight - {(q.proc, q.key)},
                    w.reqs[r := q.(pc := Done(Value(v)))], w.computed)
  {
    var w1 := Step(o, c, w, CheckReply(r, false));
    var w2 := Step(o, c, w1, DeleteReply(r, Answered));
    var w3 := Step(o, c, w2, Settle(r));
    assert w3.reqs == w.reqs[r := w.reqs[r].(pc := Done(Value(v)))];
  }

  lemma RebuildRuns<V>(o: LockOptions, c: Codec<V>, w: World<V>, r: ReqId, v: V)
    requires r in w.reqs && w.reqs[r].pc.Locking? && LockKey(w.reqs[r].key) !in w.store
    ensures var q := w.reqs[r];
            Run(o, c, w, Rebuild(r, v)) == World(w.store[q.key := c.encode(v)], w.inFlight - {(q.proc, q.key)},
                                                 w.reqs[r := q.(pc := Done(Value(v)))], w.computed + [(q.key, v)])
  {
    var q := w.reqs[r];
    var lock := LockKey(q.key);
    assert lock != q.key by { assert |lock| > |q.key|; }
    SixSteps(o, c, w, Rebuild(r, v));
    LockComputeStore(o, c, w, r, v);
    var w3 := World(w.store[lock := q.token][q.key := c.encode(v)], w.inFlight,
                    w.reqs[r := q.(pc := Checking(Value(v)))], w.computed + [(q.key, v)]);
    ReleaseAndSettle(o, c, w3, r, v);
    assert w3.store - {lock} == w.store[q.key := c.encode(v)];
    assert w3.reqs[r := q.(pc := Done(Value(v)))] == w.reqs[r := q.(pc := Done(Value(v)))];
  }

  lemma SixSteps<V>(o: LockOptions, c: Codec<V>, w: World<V>, e: seq<Event<V>>)
    requires |e| == 6
    ensures var w3 := Step(o, c, Step(o, c, Step(o, c, w, e[0]), e[1]), e[2]);
            Run(o, c, w, e) == Step(o, c, Step(o, c, Step(o, c, w3, e[3]), e[4]), e[5])
  {
    assert e == [e[0], e[1], e[2]] + [e[3], e[4], e[5]];
    var w3 := Step(o, c, Step(o, c, Step(o, c, w, e[0]), e[1]), e[2]);
    RunConcat(o, c, w, [e[0], e[1], e[2]], [e[3], e[4], e[5]]);
    ThreeSteps(o, c, w, e[0], e[1], e[2]);
    ThreeSteps(o, c, w3, e[3], e[4], e[5]);
  }

  lemma ThreeSteps<V>(o: LockOptions, c: Codec<V>, w: World<V>, a: Event<V>, b: Event<V>, d: Event<V>)
    ensures Run(o, c, w, [a, b, d]) == Step(o, c, Step(o, c, Step(o, c, w, a), b), d)
  {
    assert [a, b, d][1..] == [b, d] && [b, d][1..] == [d];
    assert Run(o, c, Step(o, c, Step(o, c, w, a), b), [d]) == Step(o, c, Step(o, c, Step(o, c, w, a), b), d);
    assert Run(o, c, Step(o, c, w, a), [b, d]) == Step(o, c, Step(o, c, Step(o, c, w, a), b), d);
  }

  /**
    A miss that nothing disturbs computes once, stores the value, and leaves neither a lock nor an in-flight
    entry behind.
   */
  lemma UndisturbedMiss<V>(o: LockOptions, c: Codec<V>, w: World<V>, r: ReqId, p: Proc, key: Text, token: Text, v: V)
    requires o.enabled && r !in w.reqs && (p, key) !in w.inFlight && key !in w.store && LockKey(key) !in w.store
    ensures Run(o, c, w, Miss(r, p, key, token) + Rebuild(r, v)) ==
              World(w.store[key := c.encode(v)], w.inFlight,
                    w.reqs[r := Req(p, key, Done(Value(v)), token, None)], w.computed + [(key, v)])
  {
    MissLeads(o, c, w, r, p, key, token);
    RunConcat(o, c, w, Miss(r, p, key, token), Rebuild(r, v));
    var w3 := Run(o, c, w, Miss(r, p, key, token));
    ThreeSteps(o, c, w, Arrive(r, p, key), ReadReply(r, false), Continue(r, token));
    assert w3.reqs[r] == Req(p, key, Locking, token, None) && w3.computed == w.computed;
    RebuildRuns(o, c, w3, r, v);
    assert w3.inFlight - {(p, key)} == w.inFlight;
  }

  /** The next read of that key, in any process, is a hit on the stored form, and changes nothing else. */
  lemma StoredValueIsServed<V>(o: LockOptions, c: Codec<V>, w: World<V>, r: ReqId, p: Proc, key: Text, v: V, u: V)
    requires r !in w.reqs && key in w.store && w.store[key] == c.encode(v) && c.hit(c.encode(v)) == Some(u)
    ensures Step(o, c, Step(o, c, w, Arrive(r, p, key)), ReadReply(r, false)) ==
              w.(reqs := w.reqs[r := Req(p, key, Done(Value(u)), [], None)])
  {
  }

  /** A lock loser serves the winner's write as soon as a poll finds it. */
  lemma LoserServesWinner<V>(o: LockOptions, c: Codec<V>, w: World<V>, r: ReqId, u: V)
    requires r in w.reqs && w.reqs[r].pc.Polling? && Lookup(c, w.store, w.reqs[r].key, false) == Some(u)
    ensures var w' := Step(o, c, Step(o, c, w, PollReply(r, false)), Settle(r));
            && w'.store == w.store && w'.computed == w.computed
            && r in w'.reqs && w'.reqs[r].pc == Done(Value(u))
            && (w.reqs[r].proc, w.reqs[r].key) !in w'.inFlight
  {
  }

  // ---- Every call finishes ------------------------------------------------------------------

  /** How many more of its own steps a call can take. */
  function Rank<V>(o: LockOptions, pc: Pc<V>): nat {
    match pc
    case Reading => Attempts(o) + 9
    case Missed => Attempts(o) + 8
    case Locking => Attempts(o) + 7
    case Polling(left) => left + 6
    case Computing(_) => 5
    case Storing(_, _) => 4
    case Checking(_) => 3
    case Deleting(_) => 2
    case Settled(_) => 1
    case Following => 1
    case Done(_) => 0
  }

  /** A step of a call that is waiting for it brings that call closer to the end. */
  lemma OwnStepLowersRank<V>(o: LockOptions, c: Codec<V>, w: World<V>, e: Event<V>)
    requires !e.Expire? && !e.Forget? && !e.Arrive? && e.r in w.reqs
    ensures var w' := Step(o, c, w, e);
            e.r in w'.reqs && (w' == w || Rank(o, w'.reqs[e.r].pc) < Rank(o, w.reqs[e.r].pc))
  {
    match e
    case _ =>
  }

  /** A step of another call, or of the environment, leaves a call alone. */
  lemma OtherStep<V>(o: LockOptions, c: Codec<V>, w: World<V>, e: Event<V>, r: ReqId)
    requires r in w.reqs && (e.Expire? || e.Forget? || e.Arrive? || e.r != r)
    ensures r in Step(o, c, w, e).reqs && Step(o, c, w, e).reqs[r] == w.reqs[r]
  {
    match e
    case _ =>
  }

  lemma StepLowersRank<V>(o: LockOptions, c: Codec<V>, w: World<V>, e: Event<V>, r: ReqId)
    requires r in w.reqs
    ensures var w' := Step(o, c, w, e);
            r in w'.reqs && (w'.reqs[r] == w.reqs[r] || Rank(o, w'.reqs[r].pc) < Rank(o, w.reqs[r].pc))
  {
    if e.Expire? || e.Forget? || e.Arrive? || e.r != r {
      OtherStep(o, c, w, e, r);
    } else {
      OwnStepLowersRank(o, c, w, e);
    }
  }

  /** The number of steps of a run that change call `r`. */
  function OwnSteps<V(==)>(o: LockOptions, c: Codec<V>, w: World<V>, events: seq<Event<V>>, r: ReqId): nat
    requires r in w.reqs
    decreases |events|
  {
    if events == [] then 0
    else
      var w' := Step(o, c, w, events[0]);
      if r !in w'.reqs then 0
      else (if w'.reqs[r] == w.reqs[r] then 0 else 1) + OwnSteps(o, c, w', events[1..], r)
  }

  /** However long the run, a call takes at most `Attempts + 9` steps after it arrived. */
  lemma {:induction false} OwnStepsBounded<V>(o: LockOptions, c: Codec<V>, w: World<V>, events: seq<Event<V>>, r: ReqId)
    requires r in w.reqs
    ensures r in Run(o, c, w, events).reqs
    ensures OwnSteps(o, c, w, events, r) + Rank(o, Run(o, c, w, events).reqs[r].pc) <= Rank(o, w.reqs[r].pc)
    ensures w.reqs[r].pc.Reading? ==> OwnSteps(o, c, w, events, r) <= Attempts(o) + 9
    decreases |events|
  {
    if events != [] {
      StepLowersRank(o, c, w, events[0], r);
      OwnStepsBounded(o, c, Step(o, c, w, events[0]), events[1..], r);
    }
  }

  /** The call whose next step a waiting call depends on. */
  function Responsible<V>(w: World<V>, r: ReqId): ReqId
    requires r in w.reqs
  {
    match w.reqs[r].joined
    case None => r
    case Some(l) => if l in w.reqs && !w.reqs[l].pc.Done? then l else r
  }

  /** The event a call waits for when Redis answers and `compute` finishes. */
  function Awaited<V>(q: Req<V>, r: ReqId): Event<V> {
    match q.pc
    case Reading => ReadReply(r, true)
    case Missed => Continue(r, [])
    case Following => Follow(r)
    case Locking => LockReply(r, RequestLost)
    case Polling(_) => PollReply(r, true)
    case Computing(_) => Computed(r, Failed)
    case Storing(_, _) => StoreReply(r, RequestLost)
    case Checking(_) => CheckReply(r, true)
    case Deleting(_) => DeleteReply(r, RequestLost)
    case _ => Settle(r)
  }

  lemma AwaitedMoves<V>(o: LockOptions, c: Codec<V>, w: World<V>, r: ReqId)
    requires r in w.reqs && !w.reqs[r].pc.Done?
    requires w.reqs[r].pc.Following? ==>
               w.reqs[r].joined.Some? && w.reqs[r].joined.value in w.reqs && w.reqs[w.reqs[r].joined.value].pc.Done?
    ensures var w' := Step(o, c, w, Awaited(w.reqs[r], r)); r in w'.reqs && w'.reqs[r].pc != w.reqs[r].pc
  {
    match w.reqs[r].pc
    case _ =>
  }

  /** An unfinished call, or the leader it follows, can always take a step, even when every Redis command fails. */
  lemma NeverStuck<V>(o: LockOptions, c: Codec<V>, w: World<V>, r: ReqId)
    requires SingleFlight(w) && r in w.reqs && !w.reqs[r].pc.Done?
    ensures var s := Responsible(w, r);
            && s in w.reqs
            && s in Step(o, c, w, Awaited(w.reqs[s], s)).reqs
            && Step(o, c, w, Awaited(w.reqs[s], s)).reqs[s].pc != w.reqs[s].pc
  {
    assert FollowsWell(w, w.reqs[r]);
    AwaitedMoves(o, c, w, Responsible(w, r));
  }
}
