/** The seed hashed into the event id of an ad-spend row. */
module SpendSeed {
  import opened Texts
  import opened Segments
  import opened BreakdownKey

  /** `spend.live.v1` */
  const SUFFIX: Text := [115, 112, 101, 110, 100, 46, 108, 105, 118, 101, 46, 118, 49]

  datatype Grain = Grain(brand: Text, platform: Text, statDate: Text, level: Text, levelId: Text)

  /** The breakdown segment, absent on the base pass. */
  function BreakdownSegment(key: Text): Text {
    if key == [] then [] else [COLON] + key
  }

  /** Everything after the level. */
  function Tail(g: Grain, key: Text): Text {
    g.levelId + BreakdownSegment(key) + [COLON] + SUFFIX
  }

  function Seed(g: Grain, key: Text): Text {
    g.brand + [COLON] + (g.platform + [COLON] + (g.statDate + [COLON] + (g.level + [COLON] + Tail(g, key))))
  }

  /** The seed as it is spelled: five segments, the breakdown if there is one, the discriminator. */
  lemma SeedIsSpelled(g: Grain, key: Text)
    ensures var sep := Literal(":");
            var last := g.levelId + (if key == [] then [] else sep + key) + Literal(":spend.live.v1");
            Seed(g, key) == g.brand + sep + (g.platform + sep + (g.statDate + sep + (g.level + sep + last)))
  {
    assert Literal(":") == [COLON] && Literal(":spend.live.v1") == [COLON] + SUFFIX;
    assert Tail(g, key) == g.levelId + BreakdownSegment(key) + ([COLON] + SUFFIX);
  }

  predicate PlainHead(g: Grain) {
    ColonFree(g.brand) && ColonFree(g.platform) && ColonFree(g.statDate) && ColonFree(g.level)
  }

  /** The segments before the level id, then everything else. */
  function Parts(g: Grain, key: Text): seq<Text> {
    [g.brand] + ([g.platform] + ([g.statDate] + ([g.level] + [Tail(g, key)])))
  }

  lemma SeedIsJoined(g: Grain, key: Text)
    ensures Seed(g, key) == Join(COLON, Parts(g, key))
  {
    JoinedCons(g.level, [Tail(g, key)]);
    JoinedCons(g.statDate, [g.level] + [Tail(g, key)]);
    JoinedCons(g.platform, [g.statDate] + ([g.level] + [Tail(g, key)]));
    JoinedCons(g.brand, [g.platform] + ([g.statDate] + ([g.level] + [Tail(g, key)])));
  }

  lemma PartsAgree(g: Grain, key: Text, h: Grain, key': Text)
    ensures Parts(g, key) == Parts(h, key') <==>
              && g.brand == h.brand && g.platform == h.platform && g.statDate == h.statDate && g.level == h.level
              && Tail(g, key) == Tail(h, key')
  {
    var p, q := Parts(g, key), Parts(h, key');
    assert p[0] == g.brand && p[1] == g.platform && p[2] == g.statDate && p[3] == g.level && p[4] == Tail(g, key);
    assert q[0] == h.brand && q[1] == h.platform && q[2] == h.statDate && q[3] == h.level && q[4] == Tail(h, key');
  }

  lemma TailsAgree(x: Text, y: Text)
    ensures x + [COLON] + SUFFIX == y + [COLON] + SUFFIX <==> x == y
  {
    var s, t := x + [COLON] + SUFFIX, y + [COLON] + SUFFIX;
    if s == t {
      assert |x| == |y| && x == s[..|x|] && y == t[..|y|];
    }
  }

  /**
    Two rows share a seed exactly when their first four segments agree and level id and breakdown read the same
    together.
   */
  lemma SeedsAgree(g: Grain, key: Text, h: Grain, key': Text)
    requires PlainHead(g) && PlainHead(h)
    ensures Seed(g, key) == Seed(h, key') <==>
              && g.brand == h.brand && g.platform == h.platform && g.statDate == h.statDate && g.level == h.level
              && g.levelId + BreakdownSegment(key) == h.levelId + BreakdownSegment(key')
  {
    SeedIsJoined(g, key);
    SeedIsJoined(h, key');
    JoinedInjectiveToLast(Parts(g, key), Parts(h, key'));
    PartsAgree(g, key, h, key');
    TailsAgree(g.levelId + BreakdownSegment(key), h.levelId + BreakdownSegment(key'));
  }

  /** With a colon-free level id the seed determines the whole grain and the breakdown. */
  lemma SeedIsInjective(g: Grain, key: Text, h: Grain, key': Text)
    requires PlainHead(g) && ColonFree(g.levelId) && PlainHead(h) && ColonFree(h.levelId)
    ensures Seed(g, key) == Seed(h, key') <==> g == h && key == key'
  {
    SeedsAgree(g, key, h, key');
    assert g.levelId + [] == g.levelId && h.levelId + [] == h.levelId;
    if g.levelId + BreakdownSegment(key) == h.levelId + BreakdownSegment(key') {
      if key == [] && key' != [] {
        NoColon(g.levelId, h.levelId, key');
        assert h.levelId + [COLON] + key' == h.levelId + BreakdownSegment(key');
      } else if key != [] && key' == [] {
        NoColon(h.levelId, g.levelId, key);
        assert g.levelId + [COLON] + key == g.levelId + BreakdownSegment(key);
      } else if key != [] {
        assert g.levelId + [COLON] + key == g.levelId + BreakdownSegment(key);
        assert h.levelId + [COLON] + key' == h.levelId + BreakdownSegment(key');
        FirstColon(g.levelId, key, h.levelId, key');
      }
    }
  }

  /** A level id holding a colon collides: its tail reads as a breakdown of the shorter id. */
  lemma ColonInLevelIdCollides(g: Grain, key: Text)
    requires key != []
    ensures Seed(g, key) == Seed(g.(levelId := g.levelId + [COLON] + key), [])
  {
    assert g.levelId + BreakdownSegment(key) == g.levelId + [COLON] + key + BreakdownSegment([]);
  }

  /** The event id seed of a row, from its grain and its dimensions. */
  function RowSeed(g: Grain, dims: Dimensions): Text {
    Seed(g, Key(dims))
  }

  /** Re-reading a row gives its seed again, and two rows share one only at the same grain and breakdown. */
  lemma RowSeedsAreExact(g: Grain, a: Dimensions, h: Grain, b: Dimensions)
    requires PlainHead(g) && ColonFree(g.levelId) && PlainHead(h) && ColonFree(h.levelId)
    requires DistinctKeys(a) && DistinctKeys(b)
    ensures RowSeed(g, a) == RowSeed(h, b) <==> g == h && SameMembers(Present(a), Present(b))
  {
    SeedIsInjective(g, Key(a), h, Key(b));
    KeyIsExact(a, b);
  }
}
