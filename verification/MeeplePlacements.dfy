/** Where a meeple may stand: the acceptance test and the list of all placements. */
module MeeplePlacements {
  import opened Tiles
  import opened Graphs
  import opened Topology
  import opened Pieces
  import opened FeatureGraph
  import opened FieldGraphs

  // ---------------------------------------------------------------- hands

  function MeeplesLeft(players: seq<Player>, actor: Id): int {
    var i := IndexOf(players, actor);
    if i == |players| then 0 else players[i].meeples
  }

  function BigMeeplesLeft(players: seq<Player>, actor: Id): int {
    var i := IndexOf(players, actor);
    if i == |players| then 0 else players[i].bigMeeples
  }

  predicate HasMeepleLeft(players: seq<Player>, actor: Id, kind: MeepleType) {
    match NormalizeMeepleType(kind)
    case Regular => MeeplesLeft(players, actor) > 0
    case Big => BigMeeplesLeft(players, actor) > 0
    case _ => false
  }

  function AvailableMeepleTypes(players: seq<Player>, actor: Id): (types: seq<MeepleType>)
    ensures forall k :: k in types <==> k in {Regular, Big} && HasMeepleLeft(players, actor, k)
  {
    (if MeeplesLeft(players, actor) > 0 then [Regular] else [])
    + (if BigMeeplesLeft(players, actor) > 0 then [Big] else [])
  }

  // ---------------------------------------------------------------- the segment a meeple is drawn on

  function PlacementRank(s: Segment): nat {
    match s
    case Center => 0
    case TopCenter => 10
    case RightCenter => 20
    case BottomCenter => 30
    case LeftCenter => 40
    case TopLeft => 50
    case TopRight => 60
    case RightTop => 70
    case RightBottom => 80
    case BottomRight => 90
    case BottomLeft => 100
    case LeftBottom => 110
    case LeftTop => 120
  }

  function Foremost(segments: seq<Segment>): (r: Segment)
    requires segments != []
    ensures r in segments && forall s :: s in segments ==> PlacementRank(r) <= PlacementRank(s)
  {
    if |segments| == 1 then segments[0]
    else
      var r := Foremost(segments[1..]);
      assert segments == [segments[0]] + segments[1..];
      if PlacementRank(segments[0]) <= PlacementRank(r) then segments[0] else r
  }

  function PlacementSegment(z: ZoneDef, rotation: int): Option<Segment> {
    if z.segments == [] then None else Some(Foremost(RotateSegments(z.segments, rotation)))
  }

  // ---------------------------------------------------------------- the acceptance test

  function ZoneOfTile(cat: Catalog, t: PlacedTile, zone: Id): Option<ZoneDef> {
    if t.tile in cat then FindZone(cat[t.tile].zones, zone) else None
  }

  /** The zone of the last tile is part of a feature nobody stands on. */
  ghost predicate FreeSpot(cat: Catalog, b: Board, ms: seq<Meeple>, t: PlacedTile, zone: Id) {
    var ref := ZoneRef(t.instance, zone);
    zone != "" &&
    match ZoneOfTile(cat, t, zone)
    case None => false
    case Some(z) =>
      match z.kind
      case Monastery => !Occupied(ms, {ref})
      case Field => KindOf(cat, b, ref) == Some(Field) && !Occupied(ms, Class(cat, b, ref))
      case Road | City => ref in Zones(cat, b) && !Occupied(ms, Class(cat, b, ref))
      case _ => false
  }

  method FieldIsFree(cat: Catalog, b: Board, ms: seq<Meeple>, ref: ZoneRef) returns (r: bool)
    requires ValidCatalog(cat) && WellPlaced(cat, b)
    ensures r <==> KindOf(cat, b, ref) == Some(Field) && !Occupied(ms, Class(cat, b, ref))
  {
    var g := BuildFieldGraph(cat, b, ms);
    FieldZonesListed(cat, b, g.dsu.root, g.segmentByRef, g.segmentsByZone, ref);
    var roots := RootsForZone(cat, b, g.dsu, g.segmentByRef, g.segmentsByZone, ref);
    if roots == [] {
      return false;
    }
    FieldOccupied(cat, b, g.dsu.root, ms, g.meeplesByRoot, ref, roots[0]);
    r := true;
    for i := 0 to |roots|
      invariant r <==> i == 0 || roots[0] !in g.meeplesByRoot
    {
      if roots[i] in g.meeplesByRoot && g.meeplesByRoot[roots[i]] != map[] {
        return false;
      }
    }
  }

  lemma FieldZonesListed(cat: Catalog, b: Board, root: map<FieldSegment, FieldSegment>,
                         refs: map<FieldSegment, PlacedZone>, byZone: map<ZoneRef, seq<FieldSegment>>, ref: ZoneRef)
    requires ValidCatalog(cat) && WellPlaced(cat, b) && Indexed(cat, b, root, refs, byZone)
    ensures ref in byZone <==> KindOf(cat, b, ref) == Some(Field)
  {
    if ref in byZone {
      assert ListedAt(cat, b, byZone, ref);
      var pz := ListedZone(cat, b, byZone, ref);
    }
    ResolvesIff(cat, b, ref);
  }

  lemma FieldOccupied(cat: Catalog, b: Board, root: map<FieldSegment, FieldSegment>, ms: seq<Meeple>,
                      weights: map<FieldSegment, map<Id, nat>>, ref: ZoneRef, r: FieldSegment)
    requires ValidCatalog(cat) && WellPlaced(cat, b) && FieldPartition(cat, b, root)
    requires MeeplesWeighed(cat, b, root, ms, weights)
    requires RootOfZone(cat, b, root, ref, r)
    ensures r in weights <==> Occupied(ms, Class(cat, b, ref))
    ensures r in weights ==> weights[r] != map[]
  {
    FieldZone(cat, b, root, r);
    NeighborsSymmetric(cat, b);
    SameComponent(ZoneGraph(cat, b), r.Zone(), ref);
    if r in weights {
      assert WeighedAt(cat, b, root, ms, weights, r);
      WeighsActors(ms, Class(cat, b, ref), weights[r]);
      var a :| a in weights[r];
      assert a in ActorsOn(ms, Class(cat, b, ref));
    } else {
      UnweighedField(cat, b, root, ms, weights, r);
    }
  }

  method FeatureIsFree(cat: Catalog, b: Board, ms: seq<Meeple>, ref: ZoneRef) returns (r: bool)
    requires ValidCatalog(cat) && WellPlaced(cat, b)
    ensures r <==> ref in Zones(cat, b) && !Occupied(ms, Class(cat, b, ref))
  {
    var found := BuildFeature(cat, b, ms, ref);
    if found.None? {
      return false;
    }
    r := found.value.meeplesByActor == map[];
    EmptyWeights(ms, Class(cat, b, ref), found.value.meeplesByActor);
  }

  lemma EmptyWeights(ms: seq<Meeple>, zones: set<ZoneRef>, w: map<Id, nat>)
    requires Weighs(ms, zones, w)
    ensures w == map[] <==> !Occupied(ms, zones)
  {
    WeighsActors(ms, zones, w);
    if Occupied(ms, zones) {
      var m :| m in ms && m.Ref() in zones;
      assert m.actor in ActorsOn(ms, zones);
    }
    if w != map[] {
      var a :| a in w;
      assert a in ActorsOn(ms, zones);
    }
  }

  method MonasteryIsFree(ms: seq<Meeple>, ref: ZoneRef) returns (r: bool)
    ensures r <==> !Occupied(ms, {ref})
  {
    for i := 0 to |ms|
      invariant forall k :: 0 <= k < i ==> ms[k].Ref() != ref
    {
      if ms[i].Ref() == ref {
        assert ms[i] in ms;
        return false;
      }
    }
    return true;
  }

  method CanPlaceMeeple(cat: Catalog, b: Board, ms: seq<Meeple>, players: seq<Player>, last: Option<PlacedTile>,
                        actor: Id, zone: Id, kind: MeepleType)
    returns (r: bool)
    requires ValidCatalog(cat) && WellPlaced(cat, b)
    ensures r <==> last.Some? && HasMeepleLeft(players, actor, kind) && FreeSpot(cat, b, ms, last.value, zone)
  {
    if zone == "" || last.None? {
      return false;
    }
    if !HasMeepleLeft(players, actor, kind) {
      return false;
    }
    var found := ZoneOfTile(cat, last.value, zone);
    if found.None? {
      return false;
    }
    var ref := ZoneRef(last.value.instance, zone);
    match found.value.kind {
      case Monastery => r := MonasteryIsFree(ms, ref);
      case Field => r := FieldIsFree(cat, b, ms, ref);
      case Road => r := FeatureIsFree(cat, b, ms, ref);
      case City => r := FeatureIsFree(cat, b, ms, ref);
      case _ => r := false;
    }
  }

  // ---------------------------------------------------------------- the list of placements

  datatype MeeplePlacement = MeeplePlacement(
    tile: Id, x: int, y: int, zone: Id, feature: Kind, segment: Option<Segment>, types: seq<MeepleType>)

  /** What the entry of one zone of the last tile says. */
  function EntryFor(t: PlacedTile, z: ZoneDef, types: seq<MeepleType>): MeeplePlacement {
    MeeplePlacement(t.instance, t.x, t.y, z.id, z.kind, PlacementSegment(z, t.rotation), types)
  }

  /** p is the entry of one of the first n zones, and a meeple may stand there. */
  ghost predicate FreeEntry(cat: Catalog, b: Board, ms: seq<Meeple>, t: PlacedTile, zones: seq<ZoneDef>, n: nat,
                            types: seq<MeepleType>, p: MeeplePlacement)
    requires n <= |zones|
  {
    exists k :: 0 <= k < n && p == EntryFor(t, zones[k], types) && FreeSpot(cat, b, ms, t, zones[k].id)
  }

  /** Lists the acceptable zones of the last tile, with every type the actor has left, and nothing else. */
  method ValidMeeplePlacements(cat: Catalog, b: Board, ms: seq<Meeple>, players: seq<Player>, last: Option<PlacedTile>,
                               actor: Id)
    returns (ps: seq<MeeplePlacement>)
    requires ValidCatalog(cat) && WellPlaced(cat, b)
    ensures if last.None? || last.value.tile !in cat || AvailableMeepleTypes(players, actor) == [] then ps == []
            else var zones := cat[last.value.tile].zones;
                 forall p :: p in ps <==>
                     FreeEntry(cat, b, ms, last.value, zones, |zones|, AvailableMeepleTypes(players, actor), p)
  {
    ps := [];
    var types := AvailableMeepleTypes(players, actor);
    if last.None? || (MeeplesLeft(players, actor) <= 0 && BigMeeplesLeft(players, actor) <= 0) ||
       last.value.tile !in cat
    {
      return;
    }
    var t := last.value;
    var zones := cat[t.tile].zones;
    assert types[0] in types;
    for i := 0 to |zones|
      invariant forall p :: p in ps <==> FreeEntry(cat, b, ms, t, zones, i, types, p)
    {
      var free := CanPlaceMeeple(cat, b, ms, players, last, actor, zones[i].id, types[0]);
      FreeEntryStep(cat, b, ms, t, zones, i, types);
      if free {
        ps := ps + [EntryFor(t, zones[i], types)];
      }
    }
  }

  lemma FreeEntryStep(cat: Catalog, b: Board, ms: seq<Meeple>, t: PlacedTile, zones: seq<ZoneDef>, i: nat,
                      types: seq<MeepleType>)
    requires i < |zones|
    ensures forall p {:trigger FreeEntry(cat, b, ms, t, zones, i + 1, types, p)} ::
              FreeEntry(cat, b, ms, t, zones, i + 1, types, p) <==>
              FreeEntry(cat, b, ms, t, zones, i, types, p) ||
              (p == EntryFor(t, zones[i], types) && FreeSpot(cat, b, ms, t, zones[i].id))
  {}
}
