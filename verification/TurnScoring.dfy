/** Why scoring through the last tile may skip zones it has already seen. */
module TurnScoring {
  import opened Tiles
  import opened Graphs
  import opened Topology
  import opened Pieces
  import opened GameStates
  import opened Rules

  /** Scoring this zone would change nothing. */
  ghost predicate Settled(cat: Catalog, s: State, ref: ZoneRef) {
    Closed(cat, s.board, ref) ==> !Occupied(s.meeples, Class(cat, s.board, ref))
  }

  ghost predicate AllSettled(cat: Catalog, s: State, refs: set<ZoneRef>) {
    forall v {:trigger Settled(cat, s, v)} :: v in refs ==> Settled(cat, s, v)
  }

  lemma SettledNoChange(cat: Catalog, s: State, kind: Kind, ref: ZoneRef)
    requires Settled(cat, s, ref)
    ensures ScoreFeature(cat, s, kind, ref) == s
  {}

  lemma ScoreFeatureKeeps(cat: Catalog, s: State, kind: Kind, ref: ZoneRef)
    ensures var t := ScoreFeature(cat, s, kind, ref);
            && t.board == s.board && t.deck == s.deck && t.current == s.current && t.currentTile == s.currentTile
            && t.last == s.last && t.turn == s.turn && t.phase == s.phase && |t.players| == |s.players|
            && (forall m :: m in t.meeples ==> m in s.meeples)
            && (OnePerTile(s.meeples) ==> OnePerTile(t.meeples))
  {
    Splits(s.meeples, Class(cat, s.board, ref));
    if OnePerTile(s.meeples) { RemainingOnePerTile(s.meeples, Class(cat, s.board, ref)); }
  }

  /** What is settled stays settled while other features are scored. */
  lemma StaysSettled(cat: Catalog, s: State, kind: Kind, ref: ZoneRef, v: ZoneRef)
    requires Settled(cat, s, v)
    ensures Settled(cat, ScoreFeature(cat, s, kind, ref), v)
  {
    ScoreFeatureKeeps(cat, s, kind, ref);
  }

  /** Scoring settles the whole feature. */
  lemma ScoringSettles(cat: Catalog, s: State, kind: Kind, ref: ZoneRef, v: ZoneRef)
    requires ValidCatalog(cat) && WellPlaced(cat, s.board) && v in Class(cat, s.board, ref)
    ensures Settled(cat, ScoreFeature(cat, s, kind, ref), v)
  {
    NeighborsSymmetric(cat, s.board);
    SameComponent(ZoneGraph(cat, s.board), ref, v);
    Splits(s.meeples, Class(cat, s.board, ref));
  }

  lemma SettledStep(cat: Catalog, s: State, kind: Kind, ref: ZoneRef, visited: set<ZoneRef>, members: set<ZoneRef>)
    requires ValidCatalog(cat) && WellPlaced(cat, s.board) && AllSettled(cat, s, visited)
    requires members == Class(cat, s.board, ref)
    ensures AllSettled(cat, ScoreFeature(cat, s, kind, ref), visited + members)
  {
    var t := ScoreFeature(cat, s, kind, ref);
    forall v | v in visited + members
      ensures Settled(cat, t, v)
    {
      if v in members {
        ScoringSettles(cat, s, kind, ref, v);
      } else {
        assert Settled(cat, s, v);
        StaysSettled(cat, s, kind, ref, v);
      }
    }
  }

  lemma {:induction false} ScoreFeaturesKeep(cat: Catalog, s: State, kind: Kind, refs: seq<ZoneRef>)
    ensures var t := ScoreFeatures(cat, s, kind, refs);
            && t.board == s.board && t.deck == s.deck && t.current == s.current && t.currentTile == s.currentTile
            && t.last == s.last && t.turn == s.turn && t.phase == s.phase && |t.players| == |s.players|
            && (forall m :: m in t.meeples ==> m in s.meeples)
            && (OnePerTile(s.meeples) ==> OnePerTile(t.meeples))
  {
    if refs != [] {
      ScoreFeaturesKeep(cat, s, kind, refs[..|refs| - 1]);
      ScoreFeatureKeeps(cat, ScoreFeatures(cat, s, kind, refs[..|refs| - 1]), kind, refs[|refs| - 1]);
    }
  }

  lemma {:induction false} StaysSettledThroughout(cat: Catalog, s: State, kind: Kind, refs: seq<ZoneRef>, v: ZoneRef)
    requires Settled(cat, s, v)
    ensures Settled(cat, ScoreFeatures(cat, s, kind, refs), v)
  {
    if refs != [] {
      StaysSettledThroughout(cat, s, kind, refs[..|refs| - 1], v);
      StaysSettled(cat, ScoreFeatures(cat, s, kind, refs[..|refs| - 1]), kind, refs[|refs| - 1], v);
    }
  }

  /** Every feature through one of the zones is settled after scoring them. */
  lemma {:induction false} ScoredAreSettled(cat: Catalog, s: State, kind: Kind, refs: seq<ZoneRef>, i: nat, v: ZoneRef)
    requires ValidCatalog(cat) && WellPlaced(cat, s.board) && i < |refs| && v in Class(cat, s.board, refs[i])
    ensures Settled(cat, ScoreFeatures(cat, s, kind, refs), v)
  {
    var init := refs[..|refs| - 1];
    var before := ScoreFeatures(cat, s, kind, init);
    ScoreFeaturesKeep(cat, s, kind, init);
    if i == |init| {
      ScoringSettles(cat, before, kind, refs[i], v);
    } else {
      ScoredAreSettled(cat, s, kind, init, i, v);
      StaysSettled(cat, before, kind, refs[|refs| - 1], v);
    }
  }

  // ---------------------------------------------------------------- zones of the last tile

  lemma {:induction false} ZonesOfKindMember(zones: seq<ZoneDef>, instance: Id, kind: Kind, ref: ZoneRef)
    ensures ref in ZonesOfKind(zones, instance, kind) <==>
              exists z :: z in zones && z.kind == kind && ref == ZoneRef(instance, z.id)
  {
    if zones != [] {
      var init, z := zones[..|zones| - 1], zones[|zones| - 1];
      assert zones == init + [z];
      ZonesOfKindMember(init, instance, kind, ref);
    }
  }

  lemma LastZonesOnBoard(cat: Catalog, b: Board, t: PlacedTile, kind: Kind, ref: ZoneRef)
    requires ValidCatalog(cat) && WellPlaced(cat, b) && t in b
    ensures ref in LastZones(cat, Some(t), kind) <==> ref in TileZones(cat, t) && KindOf(cat, b, ref) == Some(kind)
    ensures ref in TileZones(cat, t) ==> ref in Zones(cat, b)
  {
    ZonesOfKindMember(cat[t.tile].zones, t.instance, kind, ref);
    if ref in TileZones(cat, t) {
      var z :| z in cat[t.tile].zones && ref == ZoneRef(t.instance, z.id);
      Resolves(cat, b, ref, PlacedZone(t, z));
      forall y | y in cat[t.tile].zones && ref == ZoneRef(t.instance, y.id)
        ensures y == z
      {
        ZonesDisjoint(cat[t.tile], y, z);
      }
    }
  }

  // ---------------------------------------------------------------- the whole turn scoring

  lemma {:induction false} ScoreMonksKeep(s: State, monks: seq<Meeple>)
    ensures var t := ScoreMonks(s, monks);
            && t.board == s.board && t.deck == s.deck && t.current == s.current && t.currentTile == s.currentTile
            && t.last == s.last && t.turn == s.turn && t.phase == s.phase && |t.players| == |s.players|
            && (forall m :: m in t.meeples ==> m in s.meeples)
            && (OnePerTile(s.meeples) ==> OnePerTile(t.meeples))
  {
    if monks != [] {
      var t, ref := ScoreMonks(s, monks[..|monks| - 1]), monks[|monks| - 1].Ref();
      ScoreMonksKeep(s, monks[..|monks| - 1]);
      Splits(t.meeples, {ref});
      if OnePerTile(s.meeples) { RemainingOnePerTile(t.meeples, {ref}); }
    }
  }

  /** Turn scoring changes nothing but players and meeples, and only takes meeples away. */
  lemma ScoreTurnKeeps(cat: Catalog, s: State)
    ensures var t := ScoreTurn(cat, s);
            && t.board == s.board && t.deck == s.deck && t.current == s.current && t.currentTile == s.currentTile
            && t.last == s.last && t.turn == s.turn && t.phase == s.phase && |t.players| == |s.players|
            && (forall m :: m in t.meeples ==> m in s.meeples)
            && (OnePerTile(s.meeples) ==> OnePerTile(t.meeples))
  {
    ScoreFeaturesKeep(cat, s, Road, LastZones(cat, s.last, Road));
    var roads := ScoreFeatures(cat, s, Road, LastZones(cat, s.last, Road));
    ScoreFeaturesKeep(cat, roads, City, LastZones(cat, s.last, City));
    var cities := ScoreFeatures(cat, roads, City, LastZones(cat, s.last, City));
    ScoreMonksKeep(cities, CompleteMonks(cat, cities.board, cities.meeples));
  }
}
