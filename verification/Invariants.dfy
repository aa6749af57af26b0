/** What holds in every state a match can reach. */
module Invariants {
  import opened Tiles
  import opened Graphs
  import opened Topology
  import opened Pieces
  import opened Placements
  import opened MeeplePlacements
  import opened FeatureScores
  import opened GameStates
  import opened TurnScoring
  import opened FinalScores
  import opened FinalFeatures
  import opened Rules
  import opened Growth
  import opened Conservation

  // ---------------------------------------------------------------- the parts of the invariant

  /** The members of the match are its players, in seat order, with distinct ids. */
  ghost predicate PlayersFit(members: seq<Id>, players: seq<Player>) {
    && players != [] && DistinctActors(players) && |members| == |players|
    && forall i :: 0 <= i < |players| ==> members[i] == players[i].actor && members[i] != ""
  }

  ghost predicate HandsFit(players: seq<Player>) {
    forall i :: 0 <= i < |players| ==> 0 <= players[i].meeples && 0 <= players[i].bigMeeples
  }

  ghost predicate TilesFit(cat: Catalog, s: State) {
    s.board != [] && LegalBoard(cat, s.board) && UniqueIds(TileBag(s))
  }

  /** A meeple of a player on a zone of a scoring kind, drawn as what it stands on. */
  ghost predicate MeepleFits(cat: Catalog, s: State, m: Meeple) {
    IsPlayer(s.players, m.actor) && OnScoringZone(cat, s.board, m) && KindOf(cat, s.board, m.Ref()) == Some(m.feature)
  }

  ghost predicate MeeplesFit(cat: Catalog, s: State) {
    OnePerTile(s.meeples) && forall m {:trigger MeepleFits(cat, s, m)} :: m in s.meeples ==> MeepleFits(cat, s, m)
  }

  ghost predicate Common(cat: Catalog, members: seq<Id>, s: State) {
    && ValidCatalog(cat) && PlayersFit(members, s.players) && HandsFit(s.players)
    && TilesFit(cat, s) && MeeplesFit(cat, s)
  }

  /** The meeple stands on a completed road or city. */
  ghost predicate OnClosed(cat: Catalog, b: Board, m: Meeple) {
    KindOf(cat, b, m.Ref()) in {Some(Road), Some(City)} && Closed(cat, b, m.Ref())
  }

  /** No completed road, city or monastery anywhere on the board holds a meeple. */
  ghost predicate NothingComplete(cat: Catalog, b: Board, ms: seq<Meeple>) {
    forall m {:trigger OnClosed(cat, b, m)} {:trigger OnCompleteMonastery(cat, b, m)} :: m in ms ==>
      !OnClosed(cat, b, m) && !OnCompleteMonastery(cat, b, m)
  }

  ghost predicate TouchesTile(cat: Catalog, b: Board, m: Meeple, t: PlacedTile) {
    exists v :: v in Class(cat, b, m.Ref()) && v in TileZones(cat, t)
  }

  /** Completed roads and cities that hold a meeple pass through the tile. */
  ghost predicate OnlyThrough(cat: Catalog, b: Board, ms: seq<Meeple>, t: PlacedTile) {
    forall m {:trigger OnClosed(cat, b, m)} :: m in ms && OnClosed(cat, b, m) ==> TouchesTile(cat, b, m, t)
  }

  /** A tile was just placed; its features are about to be scored. */
  ghost predicate Resolvable(cat: Catalog, members: seq<Id>, s: State) {
    && Common(cat, members, s)
    && s.currentTile.None? && s.last == Some(s.board[|s.board| - 1]) && |s.board| == s.turn + 1
    && IsPlayer(s.players, s.current)
    && OnlyThrough(cat, s.board, s.meeples, s.board[|s.board| - 1])
  }

  ghost predicate AwaitsTile(cat: Catalog, s: State) {
    && s.currentTile.Some? && Placeable(cat, s.currentTile.value.tile, s.board)
    && s.last.None? && |s.board| == s.turn && IsPlayer(s.players, s.current)
    && NothingComplete(cat, s.board, s.meeples)
  }

  ghost predicate IsFinished(cat: Catalog, s: State) {
    s.currentTile.None? && s.last.None? && s.meeples == [] && s.current == "" && Unplaceable(cat, s.deck, s.board)
  }

  ghost predicate NoMeepleOn(ms: seq<Meeple>, tile: Id) {
    forall m :: m in ms ==> m.tile != tile
  }

  /** The invariant of a match. */
  ghost predicate Inv(cat: Catalog, members: seq<Id>, s: State) {
    && Common(cat, members, s)
    && match s.phase
       case PlaceTile => AwaitsTile(cat, s)
       case PlaceMeeple => Resolvable(cat, members, s) && NoMeepleOn(s.meeples, s.last.value.instance)
       case Finished => IsFinished(cat, s)
       case ResolveTurn => false
  }

  // ---------------------------------------------------------------- placing a tile

  lemma NewTileGrows(cat: Catalog, members: seq<Id>, s: State, t: PlacedTile)
    requires Common(cat, members, s) && s.currentTile.Some? && t.instance == s.currentTile.value.id
    requires t.rotation in {0, 90, 180, 270}
    requires CanPlaceTile(cat, t.tile, t.x, t.y, t.rotation, s.board)
    ensures LegalBoard(cat, s.board + [t]) && Grows(cat, s.board, t)
  {
    CurrentIsNew(s);
    PlacingKeepsLegal(cat, s.board, t);
  }

  lemma MeeplesStillFit(cat: Catalog, s: State, t: PlacedTile)
    requires Grows(cat, s.board, t) && MeeplesFit(cat, s)
    ensures MeeplesFit(cat, WithTile(s, t))
  {
    forall m | m in s.meeples
      ensures MeepleFits(cat, WithTile(s, t), m)
    {
      assert MeepleFits(cat, s, m);
      ResolvesIff(cat, s.board, m.Ref());
      LookupKept(cat, s.board, t, m.Ref());
    }
  }

  /** A tile cannot complete an occupied feature it does not join. */
  lemma OnlyNewTileCompletes(cat: Catalog, b: Board, ms: seq<Meeple>, t: PlacedTile)
    requires Grows(cat, b, t) && NothingComplete(cat, b, ms)
    requires forall m :: m in ms ==> m.Ref() in Zones(cat, b)
    ensures OnlyThrough(cat, b + [t], ms, t)
  {
    forall m | m in ms && OnClosed(cat, b + [t], m)
      ensures TouchesTile(cat, b + [t], m, t)
    {
      if !TouchesTile(cat, b + [t], m, t) {
        FeatureKept(cat, b, t, m.Ref());
        LookupKept(cat, b, t, m.Ref());
        assert OnClosed(cat, b, m);
      }
    }
  }

  lemma KnownZone(cat: Catalog, members: seq<Id>, s: State, m: Meeple)
    requires Common(cat, members, s) && m in s.meeples
    ensures m.Ref() in Zones(cat, s.board) && exists n :: n in s.board && n.instance == m.tile
  {
    assert MeepleFits(cat, s, m);
    ResolvesIff(cat, s.board, m.Ref());
    var pz := GetPlacedZone(cat, s.board, m.Ref()).value;
    assert pz.tile in s.board && pz.tile.instance == m.tile;
  }

  lemma PlacingKeepsInv(cat: Catalog, members: seq<Id>, s: State, actor: Id, x: int, y: int, rotation: int)
    requires Inv(cat, members, s) && s.phase == PlaceTile && IsValidRotation(rotation)
    requires CanPlaceTile(cat, s.currentTile.value.tile, x, y, rotation, s.board)
    ensures Inv(cat, members, WithTile(s, NewTile(s, actor, x, y, rotation)))
  {
    var t := NewTile(s, actor, x, y, rotation);
    RotationClass(cat, t.tile, x, y, rotation, s.board);
    NewTileGrows(cat, members, s, t);
    MeeplesStillFit(cat, s, t);
    PlacingKeepsTiles(s, actor, x, y, rotation);
    forall m | m in s.meeples
      ensures m.Ref() in Zones(cat, s.board) && m.tile != t.instance
    {
      KnownZone(cat, members, s, m);
      CurrentIsNew(s);
    }
    OnlyNewTileCompletes(cat, s.board, s.meeples, t);
    assert (s.board + [t])[|s.board|] == t;
  }

  // ---------------------------------------------------------------- placing a meeple

  lemma MeepleOnLastFits(cat: Catalog, members: seq<Id>, s: State, z: ZoneDef, actor: Id, kind: MeepleType)
    requires Resolvable(cat, members, s) && NoMeepleOn(s.meeples, s.last.value.instance) && IsPlayer(s.players, actor)
    requires z in cat[s.last.value.tile].zones && z.segments != [] && z.kind in {Road, City, Monastery, Field}
    ensures MeeplesFit(cat, WithMeeple(s, NewMeeple(s.last.value, z, actor, kind)))
    ensures NewMeeple(s.last.value, z, actor, kind).Ref() in TileZones(cat, s.last.value)
    ensures NewMeeple(s.last.value, z, actor, kind).Ref() in Zones(cat, s.board)
  {
    var t := s.last.value;
    var m := NewMeeple(t, z, actor, kind);
    ChangeKeepsActors(s.players, m.actor, m.kind, -1);
    NewMeepleFits(cat, s, t, z, m);
    OneMoreFits(cat, s, m);
  }

  lemma NewMeepleFits(cat: Catalog, s: State, t: PlacedTile, z: ZoneDef, m: Meeple)
    requires ValidCatalog(cat) && WellPlaced(cat, s.board) && t in s.board && z in cat[t.tile].zones
    requires z.kind in {Road, City, Monastery, Field}
    requires m.Ref() == ZoneRef(t.instance, z.id) && m.feature == z.kind && IsPlayer(s.players, m.actor)
    ensures MeepleFits(cat, s, m) && m.Ref() in TileZones(cat, t) && m.Ref() in Zones(cat, s.board)
  {
    Resolves(cat, s.board, m.Ref(), PlacedZone(t, z));
  }

  lemma OneMoreFits(cat: Catalog, s: State, m: Meeple)
    requires MeeplesFit(cat, s) && MeepleFits(cat, s, m) && NoMeepleOn(s.meeples, m.tile)
    ensures MeeplesFit(cat, WithMeeple(s, m))
  {
    var t := WithMeeple(s, m);
    ChangeKeepsActors(s.players, m.actor, m.kind, -1);
    forall k | k in t.meeples
      ensures MeepleFits(cat, t, k)
    {
      assert MeepleFits(cat, s, k);
    }
    assert forall k :: 0 <= k < |s.meeples| ==> s.meeples[k] in s.meeples;
  }

  lemma ChangeKeepsActors(players: seq<Player>, actor: Id, kind: MeepleType, change: int)
    ensures forall i :: 0 <= i < |players| ==> ChangeHand(players, actor, kind, change)[i].actor == players[i].actor
    ensures forall a :: IsPlayer(players, a) ==> IsPlayer(ChangeHand(players, actor, kind, change), a)
  {
    forall i | 0 <= i < |players|
      ensures ChangeHand(players, actor, kind, change)[i].actor == players[i].actor
    {}
  }

  /** Only meeples that are left are placed, so no counter drops below zero. */
  lemma PlacedWasLeft(players: seq<Player>, actor: Id, kind: MeepleType)
    requires HandsFit(players) && HasMeepleLeft(players, actor, NormalizeMeepleType(kind))
    ensures IsPlayer(players, actor) && HandsFit(ChangeHand(players, actor, NormalizeMeepleType(kind), -1))
  {
    var i := IndexOf(players, actor);
    assert i < |players| && players[i].actor == actor;
  }

  lemma PlacingMeepleKeeps(cat: Catalog, room: Id, members: seq<Id>, s: State, actor: Id, a: Action)
    requires Inv(cat, members, s) && a.PlaceMeepleAction? && MeepleAccepted(cat, room, s, actor, a)
    ensures s.last.value.tile in cat && ZoneOfTile(cat, s.last.value, a.zone).Some?
    ensures ZoneOfTile(cat, s.last.value, a.zone).value.segments != []
    ensures Resolvable(cat, members,
              WithMeeple(s, NewMeeple(s.last.value, ZoneOfTile(cat, s.last.value, a.zone).value, actor, a.kind)))
  {
    AcceptedZone(cat, room, s, actor, a);
    var z := ZoneOfTile(cat, s.last.value, a.zone).value;
    var m := NewMeeple(s.last.value, z, actor, a.kind);
    var s' := WithMeeple(s, m);
    PlacedWasLeft(s.players, actor, a.kind);
    MeepleOnLastFits(cat, members, s, z, actor, a.kind);
    ChangeKeepsActors(s.players, actor, m.kind, -1);
    NewMeepleTouches(cat, s.board, s.meeples, m, s.last.value);
  }

  lemma NewMeepleTouches(cat: Catalog, b: Board, ms: seq<Meeple>, m: Meeple, t: PlacedTile)
    requires m.Ref() in Zones(cat, b) && m.Ref() in TileZones(cat, t) && OnlyThrough(cat, b, ms, t)
    ensures OnlyThrough(cat, b, ms + [m], t)
  {
    Reflexive(ZoneGraph(cat, b), m.Ref());
    forall k | k in ms + [m] && OnClosed(cat, b, k)
      ensures TouchesTile(cat, b, k, t)
    {
      if k !in ms { assert k == m; }
    }
  }

  // ---------------------------------------------------------------- resolving a turn

  /** Taking meeples away and handing them back keeps the players, the hands and the fit of the others. */
  lemma FewerMeeplesFit(cat: Catalog, members: seq<Id>, s: State, t: State)
    requires Common(cat, members, s) && MeeplesKept(s, t) && t.board == s.board && TileBag(t) == TileBag(s)
    requires OnePerTile(t.meeples) && forall m :: m in t.meeples ==> m in s.meeples
    requires HandsFit(t.players)
    ensures Common(cat, members, t)
  {
    KeptActors(s, t);
    forall m | m in t.meeples
      ensures MeepleFits(cat, t, m)
    {
      assert MeepleFits(cat, s, m);
    }
  }

  lemma {:induction false} GiveBackKeepsHands(players: seq<Player>, ms: seq<Meeple>)
    requires HandsFit(players)
    ensures HandsFit(GiveBack(players, ms))
  {
    if ms != [] { GiveBackKeepsHands(players, ms[..|ms| - 1]); }
  }

  lemma SettleKeepsHands(s: State, zones: set<ZoneRef>, winners: set<Id>, points: int)
    requires HandsFit(s.players)
    ensures HandsFit(Settle(s, zones, winners, points).players)
  {
    GiveBackKeepsHands(AddScore(s.players, winners, points), Taken(s.meeples, zones));
  }

  lemma {:induction false} ScoreFeaturesKeepHands(cat: Catalog, s: State, kind: Kind, refs: seq<ZoneRef>)
    requires HandsFit(s.players)
    ensures HandsFit(ScoreFeatures(cat, s, kind, refs).players)
  {
    if refs != [] {
      ScoreFeaturesKeepHands(cat, s, kind, refs[..|refs| - 1]);
      var before, zones := ScoreFeatures(cat, s, kind, refs[..|refs| - 1]), Class(cat, s.board, refs[|refs| - 1]);
      ScoreFeaturesKeep(cat, s, kind, refs[..|refs| - 1]);
      SettleKeepsHands(before, zones, Winners(before.meeples, zones), CompletedPoints(cat, s.board, kind, zones));
    }
  }

  lemma {:induction false} ScoreMonksKeepHands(s: State, monks: seq<Meeple>)
    requires HandsFit(s.players)
    ensures HandsFit(ScoreMonks(s, monks).players)
  {
    if monks != [] {
      ScoreMonksKeepHands(s, monks[..|monks| - 1]);
      var m := monks[|monks| - 1];
      SettleKeepsHands(ScoreMonks(s, monks[..|monks| - 1]), {m.Ref()}, {m.actor}, 9);
    }
  }

  lemma ScoreTurnKeepsHands(cat: Catalog, s: State)
    requires HandsFit(s.players)
    ensures HandsFit(ScoreTurn(cat, s).players)
  {
    var roads := ScoreFeatures(cat, s, Road, LastZones(cat, s.last, Road));
    ScoreFeaturesKeepHands(cat, s, Road, LastZones(cat, s.last, Road));
    var cities := ScoreFeatures(cat, roads, City, LastZones(cat, s.last, City));
    ScoreFeaturesKeepHands(cat, roads, City, LastZones(cat, s.last, City));
    ScoreMonksKeepHands(cities, CompleteMonks(cat, cities.board, cities.meeples));
  }

  lemma ScoreTurnKeepsCommon(cat: Catalog, members: seq<Id>, s: State)
    requires Common(cat, members, s)
    ensures Common(cat, members, ScoreTurn(cat, s))
  {
    ScoreTurnKeeps(cat, s);
    ScoreTurnConserves(cat, s);
    ScoreTurnKeepsHands(cat, s);
    FewerMeeplesFit(cat, members, s, ScoreTurn(cat, s));
  }

  // ---------------------------------------------------------------- nothing complete stays occupied

  lemma ClosedIsSettled(cat: Catalog, s: State, m: Meeple)
    requires ValidCatalog(cat) && WellPlaced(cat, s.board) && m in s.meeples && m.Ref() in Zones(cat, s.board)
    requires Settled(cat, s, m.Ref())
    ensures !Closed(cat, s.board, m.Ref())
  {
    Reflexive(ZoneGraph(cat, s.board), m.Ref());
  }

  /** A meeple on a completed feature of one kind stands on a feature through a zone of that kind of the last tile. */
  lemma ThroughLastZone(cat: Catalog, b: Board, m: Meeple, t: PlacedTile, kind: Kind) returns (i: nat)
    requires ValidCatalog(cat) && WellPlaced(cat, b) && t in b && m.Ref() in Zones(cat, b)
    requires KindOf(cat, b, m.Ref()) == Some(kind)
    requires TouchesTile(cat, b, m, t)
    ensures i < |LastZones(cat, Some(t), kind)| && m.Ref() in Class(cat, b, LastZones(cat, Some(t), kind)[i])
  {
    var v :| v in Class(cat, b, m.Ref()) && v in TileZones(cat, t);
    ClassHasOneKind(cat, b, m.Ref(), v);
    LastZonesOnBoard(cat, b, t, kind, v);
    var starts := LastZones(cat, Some(t), kind);
    var k :| 0 <= k < |starts| && starts[k] == v;
    i := k;
    NeighborsSymmetric(cat, b);
    Reflexive(ZoneGraph(cat, b), m.Ref());
    SameComponent(ZoneGraph(cat, b), m.Ref(), v);
  }

  lemma RoadsSettled(cat: Catalog, members: seq<Id>, s: State, m: Meeple)
    requires Resolvable(cat, members, s) && m in s.meeples && OnClosed(cat, s.board, m)
    ensures Settled(cat, ScoreTurn(cat, s), m.Ref())
  {
    var t, kind := s.last.value, KindOf(cat, s.board, m.Ref()).value;
    KnownZone(cat, members, s, m);
    assert t in s.board && TouchesTile(cat, s.board, m, t);
    var i := ThroughLastZone(cat, s.board, m, t, kind);
    var roads := ScoreFeatures(cat, s, Road, LastZones(cat, s.last, Road));
    ScoreFeaturesKeep(cat, s, Road, LastZones(cat, s.last, Road));
    var cities := ScoreFeatures(cat, roads, City, LastZones(cat, s.last, City));
    ScoreFeaturesKeep(cat, roads, City, LastZones(cat, s.last, City));
    if kind == Road {
      ScoredAreSettled(cat, s, Road, LastZones(cat, s.last, Road), i, m.Ref());
      StaysSettledThroughout(cat, roads, City, LastZones(cat, s.last, City), m.Ref());
    } else {
      ScoredAreSettled(cat, roads, City, LastZones(cat, s.last, City), i, m.Ref());
    }
    ScoreMonksKeep(cities, CompleteMonks(cat, cities.board, cities.meeples));
  }

  lemma {:induction false} MonksGone(s: State, monks: seq<Meeple>, m: Meeple)
    requires m in monks
    ensures m !in ScoreMonks(s, monks).meeples
  {
    var init, k := monks[..|monks| - 1], monks[|monks| - 1];
    var before := ScoreMonks(s, init);
    Splits(before.meeples, {k.Ref()});
    if m != k {
      assert m in init;
      MonksGone(s, init, m);
    }
  }

  lemma MonasteriesSettled(cat: Catalog, s: State, m: Meeple)
    requires m in ScoreTurn(cat, s).meeples
    ensures !OnCompleteMonastery(cat, s.board, m)
  {
    var roads := ScoreFeatures(cat, s, Road, LastZones(cat, s.last, Road));
    ScoreFeaturesKeep(cat, s, Road, LastZones(cat, s.last, Road));
    var cities := ScoreFeatures(cat, roads, City, LastZones(cat, s.last, City));
    ScoreFeaturesKeep(cat, roads, City, LastZones(cat, s.last, City));
    var monks := CompleteMonks(cat, cities.board, cities.meeples);
    ScoreMonksKeep(cities, monks);
    CompleteMonksMember(cat, cities.board, cities.meeples, m);
    if m in monks { MonksGone(cities, monks, m); }
  }

  /** Scoring only what the last tile touches leaves no completed feature occupied anywhere on the board. */
  lemma ScoringIsComplete(cat: Catalog, members: seq<Id>, s: State)
    requires Resolvable(cat, members, s)
    ensures NothingComplete(cat, s.board, ScoreTurn(cat, s).meeples)
  {
    var t := ScoreTurn(cat, s);
    ScoreTurnKeeps(cat, s);
    forall m | m in t.meeples
      ensures !OnClosed(cat, s.board, m) && !OnCompleteMonastery(cat, s.board, m)
    {
      MonasteriesSettled(cat, s, m);
      if OnClosed(cat, s.board, m) {
        RoadsSettled(cat, members, s, m);
        KnownZone(cat, members, s, m);
        ClosedIsSettled(cat, t, m);
      }
    }
  }

  // ---------------------------------------------------------------- ending a turn

  lemma FinalKeepsHandsFit(cat: Catalog, s: State)
    requires HandsFit(s.players)
    ensures HandsFit(ScoreFinal(cat, s).players)
  {
    var paid := FinalPlayers(cat, s.board, s.meeples, s.players);
    forall i: nat | i < |paid|
      ensures 0 <= paid[i].meeples && 0 <= paid[i].bigMeeples
    {
      FinalKeepsHands(cat, s, i);
    }
    GiveBackKeepsHands(paid, s.meeples);
  }

  lemma FinishKeepsInv(cat: Catalog, members: seq<Id>, s: State)
    requires Common(cat, members, s) && s.currentTile.None? && |s.board| == s.turn + 1
    requires NothingComplete(cat, s.board, s.meeples)
    ensures Inv(cat, members, FinishTurn(cat, s))
  {
    var t := FinishTurn(cat, s);
    FinishKeepsTiles(cat, s);
    FinishConserves(cat, s);
    DrawIs(cat, s.deck, s.board, Drawn(cat, s.deck, s.board), Undrawn(cat, s.deck, s.board));
    DrawConserves(cat, s.deck, s.board, Drawn(cat, s.deck, s.board), Undrawn(cat, s.deck, s.board));
    var drawn := s.(deck := Undrawn(cat, s.deck, s.board), currentTile := Drawn(cat, s.deck, s.board), last := None);
    if drawn.currentTile.None? {
      FinalKeepsHandsFit(cat, drawn);
    } else {
      NextSeatFollows(s.players, s.current);
    }
    FewerMeeplesFit(cat, members, s, t);
  }

  lemma ResolveKeepsInv(cat: Catalog, members: seq<Id>, s: State)
    requires Resolvable(cat, members, s)
    ensures Inv(cat, members, Resolve(cat, s))
  {
    var s1 := s.(phase := ResolveTurn);
    SamePhaseless(cat, members, s, s1);
    ScoringIsComplete(cat, members, s1);
    ScoreTurnKeepsCommon(cat, members, s1);
    ScoreTurnKeeps(cat, s1);
    FinishKeepsInv(cat, members, ScoreTurn(cat, s1));
  }

  /** The phase plays no part in what the scoring needs. */
  lemma SamePhaseless(cat: Catalog, members: seq<Id>, s: State, t: State)
    requires Resolvable(cat, members, s) && t == s.(phase := t.phase)
    ensures Resolvable(cat, members, t)
  {
    forall m | m in t.meeples
      ensures MeepleFits(cat, t, m)
    {
      assert MeepleFits(cat, s, m);
    }
    assert TileBag(t) == TileBag(s);
  }
}
