/** Meeples and tiles are neither lost nor invented. */
module Conservation {
  import opened Tiles
  import opened Topology
  import opened Pieces
  import opened Placements
  import opened FeatureScores
  import opened GameStates
  import opened FinalScores
  import opened Rules

  // ---------------------------------------------------------------- meeples

  /** The meeples of one kind a player has, in hand or on the board. */
  function Owned(s: State, i: nat, big: bool): int
    requires i < |s.players|
  {
    HandCount(s.players[i], big) + CountOf(s.meeples, s.players[i].actor, big)
  }

  /** Player i is still the same player, owns as many meeples of the kind, and took none of them from the hand. */
  ghost predicate KeptAt(s: State, t: State, i: nat, big: bool) {
    && i < |s.players| == |t.players|
    && t.players[i].actor == s.players[i].actor && t.players[i].seat == s.players[i].seat
    && Owned(t, i, big) == Owned(s, i, big)
  }

  /** Nobody gains or loses a meeple of either kind. */
  ghost predicate MeeplesKept(s: State, t: State) {
    |t.players| == |s.players| && forall i: nat, big {:trigger KeptAt(s, t, i, big)} :: i < |s.players| ==>
        KeptAt(s, t, i, big)
  }

  lemma KeptTransitive(s: State, t: State, u: State)
    requires MeeplesKept(s, t) && MeeplesKept(t, u)
    ensures MeeplesKept(s, u)
  {
    forall i: nat, big | i < |s.players|
      ensures KeptAt(s, u, i, big)
    {
      assert KeptAt(s, t, i, big) && KeptAt(t, u, i, big);
    }
  }

  lemma KeptActors(s: State, t: State)
    requires MeeplesKept(s, t)
    ensures DistinctActors(s.players) ==> DistinctActors(t.players)
    ensures forall a :: IsPlayer(s.players, a) ==> IsPlayer(t.players, a)
    ensures forall i :: 0 <= i < |s.players| ==> t.players[i].actor == s.players[i].actor
  {
    forall i: nat | i < |s.players|
      ensures t.players[i].actor == s.players[i].actor
    {
      assert KeptAt(s, t, i, true);
    }
  }

  /** Meeples taken off the board are exactly the ones given back. */
  lemma SettleKeeps(s: State, zones: set<ZoneRef>, winners: set<Id>, points: int)
    requires DistinctActors(s.players)
    ensures MeeplesKept(s, Settle(s, zones, winners, points))
  {
    var t, scored := Settle(s, zones, winners, points), AddScore(s.players, winners, points);
    forall i: nat, big | i < |s.players|
      ensures KeptAt(s, t, i, big)
    {
      GiveBackCounts(scored, Taken(s.meeples, zones), i, big);
      CountSplits(s.meeples, zones, s.players[i].actor, big);
    }
  }

  lemma ScoreFeatureConserves(cat: Catalog, s: State, kind: Kind, ref: ZoneRef)
    requires DistinctActors(s.players)
    ensures MeeplesKept(s, ScoreFeature(cat, s, kind, ref))
  {
    var zones := Class(cat, s.board, ref);
    SettleKeeps(s, zones, Winners(s.meeples, zones), CompletedPoints(cat, s.board, kind, zones));
    KeptSame(s);
  }

  lemma KeptSame(s: State)
    ensures MeeplesKept(s, s)
  {}

  lemma {:induction false} ScoreFeaturesConserve(cat: Catalog, s: State, kind: Kind, refs: seq<ZoneRef>)
    requires DistinctActors(s.players)
    ensures MeeplesKept(s, ScoreFeatures(cat, s, kind, refs))
  {
    KeptSame(s);
    if refs != [] {
      var before := ScoreFeatures(cat, s, kind, refs[..|refs| - 1]);
      ScoreFeaturesConserve(cat, s, kind, refs[..|refs| - 1]);
      KeptActors(s, before);
      ScoreFeatureConserves(cat, before, kind, refs[|refs| - 1]);
      KeptTransitive(s, before, ScoreFeatures(cat, s, kind, refs));
    }
  }

  lemma {:induction false} ScoreMonksConserve(s: State, monks: seq<Meeple>)
    requires DistinctActors(s.players)
    ensures MeeplesKept(s, ScoreMonks(s, monks))
  {
    KeptSame(s);
    if monks != [] {
      var before, m := ScoreMonks(s, monks[..|monks| - 1]), monks[|monks| - 1];
      ScoreMonksConserve(s, monks[..|monks| - 1]);
      KeptActors(s, before);
      SettleKeeps(before, {m.Ref()}, {m.actor}, 9);
      KeptTransitive(s, before, ScoreMonks(s, monks));
    }
  }

  lemma ScoreTurnConserves(cat: Catalog, s: State)
    requires DistinctActors(s.players)
    ensures MeeplesKept(s, ScoreTurn(cat, s))
  {
    var roads := ScoreFeatures(cat, s, Road, LastZones(cat, s.last, Road));
    ScoreFeaturesConserve(cat, s, Road, LastZones(cat, s.last, Road));
    KeptActors(s, roads);
    var cities := ScoreFeatures(cat, roads, City, LastZones(cat, s.last, City));
    ScoreFeaturesConserve(cat, roads, City, LastZones(cat, s.last, City));
    KeptActors(roads, cities);
    KeptTransitive(s, roads, cities);
    ScoreMonksConserve(cities, CompleteMonks(cat, cities.board, cities.meeples));
    KeptTransitive(s, cities, ScoreTurn(cat, s));
  }

  lemma {:induction false} PayMonksKeepsHands(cat: Catalog, b: Board, monks: seq<Meeple>, players: seq<Player>, i: nat)
    requires i < |players|
    ensures var r := PayMonks(cat, b, monks, players);
            r[i] == players[i].(score := r[i].score)
  {
    if monks != [] {
      PayMonksKeepsHands(cat, b, monks[..|monks| - 1], players, i);
    }
  }

  /** Final scoring changes scores only, then every meeple goes home. */
  lemma FinalConserves(cat: Catalog, s: State)
    requires DistinctActors(s.players)
    ensures MeeplesKept(s, ScoreFinal(cat, s))
  {
    var paid, t := FinalPlayers(cat, s.board, s.meeples, s.players), ScoreFinal(cat, s);
    forall i: nat | i < |s.players|
      ensures paid[i] == s.players[i].(score := paid[i].score)
    {
      FinalKeepsHands(cat, s, i);
    }
    forall i: nat, big | i < |s.players|
      ensures KeptAt(s, t, i, big)
    {
      GiveBackCounts(paid, s.meeples, i, big);
    }
  }

  lemma FinalKeepsHands(cat: Catalog, s: State, i: nat)
    requires i < |s.players|
    ensures var paid := FinalPlayers(cat, s.board, s.meeples, s.players);
            paid[i] == s.players[i].(score := paid[i].score)
  {
    var b, ms := s.board, s.meeples;
    var roads := PayShares(cat, b, ms, Road, OccupiedClasses(cat, b, ms, Road), s.players);
    var cities := PayShares(cat, b, ms, City, OccupiedClasses(cat, b, ms, City), roads);
    PayMonksKeepsHands(cat, b, Monks(cat, b, ms), cities, i);
  }

  lemma FinishConserves(cat: Catalog, s: State)
    requires DistinctActors(s.players)
    ensures MeeplesKept(s, FinishTurn(cat, s))
  {
    var drawn := s.(deck := Undrawn(cat, s.deck, s.board), currentTile := Drawn(cat, s.deck, s.board), last := None);
    if drawn.currentTile.None? {
      FinalConserves(cat, drawn);
      SamePieces(s, drawn, ScoreFinal(cat, drawn), FinishTurn(cat, s));
    } else {
      KeptSame(s);
      SamePieces(s, s, s, FinishTurn(cat, s));
    }
  }

  /** Only players and meeples matter. */
  lemma SamePieces(s: State, s': State, t': State, t: State)
    requires s.players == s'.players && s.meeples == s'.meeples && t.players == t'.players && t.meeples == t'.meeples
    requires MeeplesKept(s', t')
    ensures MeeplesKept(s, t)
  {
    forall i: nat, big | i < |s.players|
      ensures KeptAt(s, t, i, big)
    {
      assert KeptAt(s', t', i, big);
    }
  }

  lemma ResolveConserves(cat: Catalog, s: State)
    requires DistinctActors(s.players)
    ensures MeeplesKept(s, Resolve(cat, s))
  {
    var s1 := s.(phase := ResolveTurn);
    KeptSame(s);
    SamePieces(s, s, s, s1);
    ScoreTurnConserves(cat, s1);
    var s2 := ScoreTurn(cat, s1);
    KeptActors(s1, s2);
    FinishConserves(cat, s2);
    KeptTransitive(s, s1, s2);
    KeptTransitive(s, s2, Resolve(cat, s));
  }

  /** Putting a meeple on the board takes it from the hand of the player who owns it. */
  lemma PlacingKeepsMeeples(s: State, m: Meeple)
    requires DistinctActors(s.players) && IsPlayer(s.players, m.actor)
    ensures MeeplesKept(s, WithMeeple(s, m))
  {
    var t := WithMeeple(s, m);
    var k := IndexOf(s.players, m.actor);
    forall i: nat, big | i < |s.players|
      ensures KeptAt(s, t, i, big)
    {
      CountSnoc(s.meeples, m, s.players[i].actor, big);
      if s.players[i].actor == m.actor { assert i == k; }
    }
  }

  // ---------------------------------------------------------------- tiles

  function BoardBag(b: Board): multiset<Instance> {
    if b == [] then multiset{}
    else BoardBag(b[..|b| - 1]) + multiset{Instance(b[|b| - 1].instance, b[|b| - 1].tile)}
  }

  function TileBag(s: State): multiset<Instance> {
    BoardBag(s.board) + multiset(s.deck) + (if s.currentTile.Some? then multiset{s.currentTile.value} else multiset{})
  }

  /** No tile occurs twice, and no two tiles share an id. */
  ghost predicate UniqueIds(bag: multiset<Instance>) {
    forall x, y :: x in bag && y in bag && x.id == y.id ==> x == y && bag[x] == 1
  }

  lemma {:induction false} BoardBagMember(b: Board, n: PlacedTile)
    requires n in b
    ensures Instance(n.instance, n.tile) in BoardBag(b)
  {
    if n != b[|b| - 1] {
      assert n in b[..|b| - 1];
      BoardBagMember(b[..|b| - 1], n);
    }
  }

  /** The tile in hand is not on the board. */
  lemma CurrentIsNew(s: State)
    requires UniqueIds(TileBag(s)) && s.currentTile.Some?
    ensures forall n :: n in s.board ==> n.instance != s.currentTile.value.id
  {
    var c := s.currentTile.value;
    forall n | n in s.board
      ensures n.instance != c.id
    {
      BoardBagMember(s.board, n);
      assert c in TileBag(s);
      if n.instance == c.id {
        TwiceInBag(s, Instance(n.instance, n.tile));
      }
    }
  }

  lemma TwiceInBag(s: State, x: Instance)
    requires x in BoardBag(s.board) && s.currentTile.Some?
    ensures x == s.currentTile.value ==> TileBag(s)[x] >= 2
    ensures x in TileBag(s)
  {}

  lemma PlacingKeepsTiles(s: State, actor: Id, x: int, y: int, rotation: int)
    requires s.currentTile.Some?
    ensures TileBag(WithTile(s, NewTile(s, actor, x, y, rotation))) == TileBag(s)
  {
    var t := NewTile(s, actor, x, y, rotation);
    assert (s.board + [t])[..|s.board|] == s.board;
  }

  /** Ending a turn moves tiles between deck and hand and touches nothing else. */
  lemma FinishKeepsTiles(cat: Catalog, s: State)
    requires s.currentTile.None?
    ensures TileBag(FinishTurn(cat, s)) == TileBag(s) && FinishTurn(cat, s).board == s.board
    ensures |FinishTurn(cat, s).deck| + (if FinishTurn(cat, s).currentTile.Some? then 1 else 0) == |s.deck|
  {
    DrawIs(cat, s.deck, s.board, Drawn(cat, s.deck, s.board), Undrawn(cat, s.deck, s.board));
    DrawConserves(cat, s.deck, s.board, Drawn(cat, s.deck, s.board), Undrawn(cat, s.deck, s.board));
  }
}
