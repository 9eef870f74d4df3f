/** The part of the cache adapter that one process keeps in memory, and its polling loop. */
module CacheAdapter {
  import opened Options
  import opened Texts
  import opened JsonText
  import opened BigintCodec
  import opened CacheKeys
  import opened AnalyticsCache

  /** What one `get` of a lock loser brings: an exception, a miss, or a value. */
  datatype Answer<+V> = Threw | Miss | Hit(v: V)

  function AfterAnswer<V>(left: nat, a: Answer<V>): Pc<V> {
    Polled(left, if a.Hit? then Some(a.v) else None, a.Threw?)
  }

  /** Where the polling transitions of the state machine end on a list of answers. */
  function PollOutcome<V>(left: nat, answers: seq<Answer<V>>): Pc<V>
    decreases |answers|
  {
    if answers == [] then Polling(left)
    else
      var pc := AfterAnswer(left, answers[0]);
      if pc.Polling? then PollOutcome(pc.left, answers[1..]) else pc
  }

  /** `None` sends the caller to compute directly. */
  method PollForValue<V>(o: LockOptions, answers: seq<Answer<V>>) returns (value: Option<V>, polls: nat)
    requires |answers| == Attempts(o)
    ensures 1 <= polls <= Attempts(o)
    ensures forall i | 0 <= i < polls - 1 :: answers[i].Miss?
    ensures value.Some? ==> answers[polls - 1] == Hit(value.value)
    ensures value.None? ==> answers[polls - 1].Threw? || (answers[polls - 1].Miss? && polls == Attempts(o))
    ensures PollOutcome(Attempts(o), answers) == (if value.Some? then Settled(Value(value.value)) else Computing(false))
  {
    var attempts := Attempts(o);
    var i := 0;
    while i < attempts
      invariant 0 <= i <= attempts
      invariant forall j | 0 <= j < i :: answers[j].Miss?
      invariant i < attempts ==> PollOutcome(attempts, answers) == PollOutcome(attempts - i, answers[i..])
      invariant i == attempts ==> PollOutcome(attempts, answers) == Computing(false)
    {
      var a := answers[i];
      assert answers[i..][1..] == answers[i + 1..];
      if a.Hit? {
        return Some(a.v), i + 1;
      }
      if a.Threw? {
        return None, i + 1;
      }
      i := i + 1;
    }
    return None, attempts;
  }

  /** One process: its in-flight map mirrors its slice of the shared state machine. */
  class Process {
    const id: Proc
    var inFlight: map<Text, ReqId>

    ghost predicate Mirrors<V>(w: World<V>)
      reads this
    {
      && (forall key | key in inFlight :: (id, key) in w.inFlight && w.inFlight[(id, key)] == inFlight[key])
      && (forall s | s in w.inFlight && s.0 == id :: s.1 in inFlight)
    }

    constructor (id: Proc)
      ensures this.id == id && inFlight == map[]
    {
      this.id := id;
      inFlight := map[];
    }

    /** Return the live promise of this key, or register the caller's own. */
    method JoinOrRegister<V>(o: LockOptions, c: Codec<V>, ghost w: World<V>, r: ReqId, key: Text, ghost token: Text)
      returns (leader: Option<ReqId>)
      requires Mirrors(w) && r in w.reqs && w.reqs[r].pc.Missed? && Slot(w.reqs[r], (id, key))
      requires w.reqs[r].joined.None?
      modifies this
      ensures leader == (if key in old(inFlight) then Some(old(inFlight)[key]) else None)
      ensures inFlight == (if leader.Some? then old(inFlight) else old(inFlight)[key := r])
      ensures Mirrors(Step(o, c, w, Continue(r, token)))
      ensures Step(o, c, w, Continue(r, token)).reqs[r].joined == leader
    {
      leader := None;
      if key in inFlight {
        leader := Some(inFlight[key]);
      } else {
        inFlight := inFlight[key := r];
      }
    }

    /** The `then`/`catch` handler: the entry of the key goes, whoever put it there. */
    method Clear<V>(o: LockOptions, c: Codec<V>, ghost w: World<V>, ghost r: ReqId, key: Text)
      requires Mirrors(w) && r in w.reqs && w.reqs[r].pc.Settled? && Slot(w.reqs[r], (id, key))
      modifies this
      ensures inFlight == old(inFlight) - {key}
      ensures Mirrors(Step(o, c, w, Settle(r)))
    {
      inFlight := inFlight - {key};
    }

    /** The in-memory half of `invalidate`. */
    method Invalidate<V>(o: LockOptions, c: Codec<V>, ghost w: World<V>, key: Text)
      requires Mirrors(w)
      modifies this
      ensures inFlight == old(inFlight) - {key}
      ensures Mirrors(Step(o, c, w, Forget(id, key)))
    {
      inFlight := inFlight - {key};
    }
  }

  // ---- With the real codec ------------------------------------------------------------------

  function JsonCodec(parse: BigIntParser): Codec<Tree> {
    Codec(Encode, (raw: Text) => BigintCodec.Hit(parse, raw))
  }

  const DASH: CodeUnit := 45

  /** Base 36, as `toString(36)` prints it. */
  predicate IsBase36(t: Text) {
    forall u <- t :: 48 <= u < 58 || 97 <= u < 123
  }

  /** A lock token: the time, a sequence number and a random part, joined by dashes. */
  ghost predicate IsToken(token: Text) {
    exists time, number, random :: time != [] && IsBase36(time) && token == TokenOf(time, number, random)
  }

  function TokenOf(time: Text, number: Text, random: Text): Text {
    time + [DASH] + number + [DASH] + random
  }

  lemma TwoDashes(time: Text, number: Text, random: Text)
    ensures multiset(TokenOf(time, number, random))[DASH] >= 2
  {
  }

  lemma NoLiteral(t: Text, literal: Text)
    requires literal in {NULL_TEXT, TRUE_TEXT, FALSE_TEXT} && literal <= t && multiset(t)[DASH] >= 2
    ensures t[|literal|..] != []
  {
    assert multiset(NULL_TEXT)[DASH] == multiset(TRUE_TEXT)[DASH] == multiset(FALSE_TEXT)[DASH] == 0;
    assert t == literal + t[|literal|..];
  }

  lemma DashedIsNoNumber(t: Text)
    requires t != [] && t[0] != DASH && multiset(t)[DASH] >= 2
    ensures ParseNumber(t).Parsed? ==> ParseNumber(t).rest != []
  {
    if ParseNumber(t).Parsed? && ParseNumber(t).rest == [] {
      var lexeme := ParseNumber(t).value.lexeme;
      assert lexeme + [] == lexeme;
      NumberMinuses(lexeme);
    }
  }

  lemma DashedIsNoLiteral(t: Text)
    requires multiset(t)[DASH] >= 2
    ensures ParseLiteral(t).Parsed? ==> ParseLiteral(t).rest != []
  {
    if NULL_TEXT <= t {
      NoLiteral(t, NULL_TEXT);
    } else if TRUE_TEXT <= t {
      NoLiteral(t, TRUE_TEXT);
    } else if FALSE_TEXT <= t {
      NoLiteral(t, FALSE_TEXT);
    }
  }

  /** A text that starts in base 36 and holds two dashes is no JSON value. */
  lemma DashedIsNoValue(t: Text)
    requires t != [] && (48 <= t[0] < 58 || 97 <= t[0] < 123) && multiset(t)[DASH] >= 2
    ensures ParseValue(t).Parsed? ==> ParseValue(t).rest != []
  {
    if 48 <= t[0] < 58 {
      DashedIsNoNumber(t);
    } else {
      DashedIsNoLiteral(t);
    }
  }

  /** So a token under a value key is a malformed entry, and reads as a miss. */
  lemma TokenIsAMiss(parse: BigIntParser, token: Text)
    requires IsToken(token)
    ensures BigintCodec.Hit(parse, token).None?
  {
    var time, number, random :| time != [] && IsBase36(time) && token == TokenOf(time, number, random);
    TwoDashes(time, number, random);
    assert token[0] == time[0] && time[0] in time;
    DashedIsNoValue(token);
  }

  /**
    With the tagged-bigint codec and tag-free values, a returned value is one that `compute` returned for
    that very key, type and all; even for the one name whose value key is a lock key.
   */
  lemma ServedTreesWereComputed(
        o: LockOptions, parse: BigIntParser, names: iset<Name>, events: seq<Event<Tree>>, r: ReqId)
    requires ReadsPrinted(parse)
    requires forall e <- events :: e.Arrive? ==> exists n <- names :: e.key == KeyOf(n)
    requires forall e <- events :: e.Continue? ==> IsToken(e.token)
    requires forall e <- events :: e.Computed? && e.result.Value? ==> Finite(e.result.v) && TagFree(e.result.v)
    ensures var w := Run(o, JsonCodec(parse), Empty(), events);
            r in w.reqs && w.reqs[r].pc.Done? && w.reqs[r].pc.out.Value? ==>
              (w.reqs[r].key, w.reqs[r].pc.out.v) in w.computed
  {
    var c := JsonCodec(parse);
    var keys := iset n <- names :: KeyOf(n);
    forall e <- events ensures Proper(c, e, keys) {
      if e.Continue? {
        TokenIsAMiss(parse, e.token);
      }
    }
    ServedValuesWereComputed(o, c, keys, events, r);
    LoggedValuesAreTagFree(o, c, Empty(), events);
    var w := Run(o, c, Empty(), events);
    if r in w.reqs && w.reqs[r].pc.Done? && w.reqs[r].pc.out.Value? {
      var v := w.reqs[r].pc.out.v;
      if (w.reqs[r].key, v) !in w.computed {
        var x :| x in w.computed && x.0 == w.reqs[r].key && c.hit(c.encode(x.1)) == Some(v);
        StoredValueIsAHit(parse, x.1);
        CodecRoundTrip(parse, x.1);
      }
    }
  }

  lemma {:induction false} LoggedValuesAreTagFree(
        o: LockOptions, c: Codec<Tree>, w: World<Tree>, events: seq<Event<Tree>>)
    requires forall x <- w.computed :: Finite(x.1) && TagFree(x.1)
    requires forall e <- events :: e.Computed? && e.result.Value? ==> Finite(e.result.v) && TagFree(e.result.v)
    ensures forall x <- Run(o, c, w, events).computed :: Finite(x.1) && TagFree(x.1)
    decreases |events|
  {
    if events != [] {
      StepLogs(o, c, w, events[0]);
      LoggedValuesAreTagFree(o, c, Step(o, c, w, events[0]), events[1..]);
    }
  }

  lemma StepLogs<V>(o: LockOptions, c: Codec<V>, w: World<V>, e: Event<V>)
    ensures forall x <- Step(o, c, w, e).computed ::
              x in w.computed || (e.Computed? && e.result.Value? && x.1 == e.result.v)
  {
  }
}
