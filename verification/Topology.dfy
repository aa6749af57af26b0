/** The board: placed tiles on an unbounded grid, and the graph that border crossings make of their zones. */
module Topology {
  import opened Tiles
  import opened Graphs

  datatype PlacedTile = PlacedTile(instance: Id, tile: Id, x: int, y: int, rotation: int, placedBy: Id, turn: int)

  type Board = seq<PlacedTile>

  datatype ZoneRef = ZoneRef(tile: Id, zone: Id)

  datatype PlacedZone = PlacedZone(tile: PlacedTile, def: ZoneDef) {
    function Ref(): ZoneRef { ZoneRef(tile.instance, def.id) }
    function Segments(): seq<Segment> { RotateSegments(def.segments, tile.rotation) }
  }

  // ---------------------------------------------------------------- lookups

  function TileAt(b: Board, x: int, y: int): Option<PlacedTile> {
    if b == [] then None
    else if b[0].x == x && b[0].y == y then Some(b[0])
    else TileAt(b[1..], x, y)
  }

  function TileById(b: Board, instance: Id): Option<PlacedTile> {
    if b == [] then None
    else if b[0].instance == instance then Some(b[0])
    else TileById(b[1..], instance)
  }

  function FindZone(zones: seq<ZoneDef>, id: Id): Option<ZoneDef> {
    if zones == [] then None
    else if zones[0].id == id then Some(zones[0])
    else FindZone(zones[1..], id)
  }

  function FindZoneBySegment(zones: seq<ZoneDef>, kind: Kind, rotation: int, s: Segment): Option<ZoneDef> {
    if zones == [] then None
    else if zones[0].kind == kind && s in RotateSegments(zones[0].segments, rotation) then Some(zones[0])
    else FindZoneBySegment(zones[1..], kind, rotation, s)
  }

  function GetPlacedZone(cat: Catalog, b: Board, ref: ZoneRef): Option<PlacedZone> {
    match TileById(b, ref.tile)
    case None => None
    case Some(t) =>
      if t.tile !in cat then None
      else match FindZone(cat[t.tile].zones, ref.zone)
        case None => None
        case Some(z) => Some(PlacedZone(t, z))
  }

  /** The zone of the given kind across the border at a segment of a placed tile. */
  function Across(cat: Catalog, b: Board, t: PlacedTile, kind: Kind, s: Segment): Option<PlacedZone> {
    match BorderNeighbor(s)
    case None => None
    case Some(m) =>
      match TileAt(b, t.x + m.dx, t.y + m.dy)
      case None => None
      case Some(n) =>
        if n.tile !in cat then None
        else match FindZoneBySegment(cat[n.tile].zones, kind, n.rotation, m.segment)
          case None => None
          case Some(z) => Some(PlacedZone(n, z))
  }

  // ---------------------------------------------------------------- the zone graph

  ghost function TileZones(cat: Catalog, t: PlacedTile): set<ZoneRef> {
    if t.tile in cat then set z | z in cat[t.tile].zones :: ZoneRef(t.instance, z.id) else {}
  }

  ghost function Zones(cat: Catalog, b: Board): set<ZoneRef> {
    if b == [] then {} else Zones(cat, b[..|b| - 1]) + TileZones(cat, b[|b| - 1])
  }

  ghost function Neighbors(cat: Catalog, b: Board, pz: PlacedZone): set<ZoneRef> {
    set s | s in pz.Segments() && Across(cat, b, pz.tile, pz.def.kind, s).Some? ::
      Across(cat, b, pz.tile, pz.def.kind, s).value.Ref()
  }

  ghost function NeighborsOf(cat: Catalog, b: Board, ref: ZoneRef): set<ZoneRef> {
    match GetPlacedZone(cat, b, ref)
    case None => {}
    case Some(pz) => Neighbors(cat, b, pz)
  }

  /** Zones of the same kind are linked when they meet at a border. Roads, cities and fields are its classes. */
  ghost function ZoneGraph(cat: Catalog, b: Board): Graph<ZoneRef> {
    map ref | ref in Zones(cat, b) :: NeighborsOf(cat, b, ref)
  }

  ghost function Class(cat: Catalog, b: Board, ref: ZoneRef): set<ZoneRef> {
    Component(ZoneGraph(cat, b), ref)
  }

  // ---------------------------------------------------------------- well-formed and legal boards

  ghost predicate WellPlaced(cat: Catalog, b: Board) {
    && (forall i :: 0 <= i < |b| ==> b[i].tile in cat && b[i].rotation in {0, 90, 180, 270})
    && (forall i, j :: 0 <= i < j < |b| ==> b[i].instance != b[j].instance)
    && (forall i, j :: 0 <= i < j < |b| ==> b[i].x != b[j].x || b[i].y != b[j].y)
  }

  /** The type of one side of a placed tile. */
  function SideKind(cat: Catalog, t: PlacedTile, side: Side): Kind
    requires t.tile in cat
  {
    RotateEdges(cat[t.tile].edges, t.rotation).At(side)
  }

  ghost predicate EdgesMatch(cat: Catalog, t: PlacedTile, n: PlacedTile, side: Side)
    requires t.tile in cat && n.tile in cat
  {
    SideKind(cat, t, side) == SideKind(cat, n, Opposite(side))
  }

  predicate Beside(t: PlacedTile, n: PlacedTile, side: Side) {
    match side
    case Top => n.x == t.x && n.y == t.y - 1
    case Right => n.x == t.x + 1 && n.y == t.y
    case Bottom => n.x == t.x && n.y == t.y + 1
    case Left => n.x == t.x - 1 && n.y == t.y
  }

  /** All touching edges agree, and every tile after the first touches an earlier one. */
  ghost predicate LegalBoard(cat: Catalog, b: Board) {
    && WellPlaced(cat, b)
    && (forall t, n, side {:trigger Beside(t, n, side)} :: t in b && n in b && Beside(t, n, side) ==>
        EdgesMatch(cat, t, n, side))
    && (forall i {:trigger TouchesEarlier(b, i)} :: 0 < i < |b| ==> TouchesEarlier(b, i))
  }

  ghost predicate TouchesEarlier(b: Board, i: nat)
    requires i < |b|
  {
    exists j, side :: 0 <= j < i && Beside(b[i], b[j], side)
  }

  lemma {:induction false} TileAtMeaning(cat: Catalog, b: Board, x: int, y: int, t: PlacedTile)
    requires WellPlaced(cat, b)
    ensures TileAt(b, x, y) == Some(t) <==> t in b && t.x == x && t.y == y
  {
    if b != [] {
      TileAtMeaning(cat, b[1..], x, y, t);
      assert b == [b[0]] + b[1..];
    }
  }

  lemma {:induction false} TileAtNone(b: Board, x: int, y: int)
    ensures TileAt(b, x, y) == None <==> forall t :: t in b ==> t.x != x || t.y != y
    ensures TileAt(b, x, y).Some? ==>
              TileAt(b, x, y).value in b && TileAt(b, x, y).value.x == x && TileAt(b, x, y).value.y == y
  {
    if b != [] {
      TileAtNone(b[1..], x, y);
      assert b == [b[0]] + b[1..];
    }
  }

  lemma {:induction false} TileByIdMeaning(cat: Catalog, b: Board, instance: Id, t: PlacedTile)
    requires WellPlaced(cat, b)
    ensures TileById(b, instance) == Some(t) <==> t in b && t.instance == instance
  {
    if b != [] {
      TileByIdMeaning(cat, b[1..], instance, t);
      assert b == [b[0]] + b[1..];
    }
  }

  lemma {:induction false} FindZoneSound(zones: seq<ZoneDef>, id: Id)
    ensures FindZone(zones, id).Some? ==> FindZone(zones, id).value in zones && FindZone(zones, id).value.id == id
    ensures FindZone(zones, id) == None ==> forall z :: z in zones ==> z.id != id
  {
    if zones != [] {
      FindZoneSound(zones[1..], id);
      assert zones == [zones[0]] + zones[1..];
    }
  }

  lemma FindZoneMeaning(def: TileDef, id: Id, z: ZoneDef)
    requires ValidDef(def)
    ensures FindZone(def.zones, id) == Some(z) <==> z in def.zones && z.id == id
  {
    FindZoneSound(def.zones, id);
    if FindZone(def.zones, id).Some? && z in def.zones && z.id == id {
      ZonesDisjoint(def, z, FindZone(def.zones, id).value);
    }
  }

  lemma {:induction false} FindBySegmentSound(zones: seq<ZoneDef>, kind: Kind, rotation: int, s: Segment)
    ensures var r := FindZoneBySegment(zones, kind, rotation, s);
            && (r.Some? ==> r.value in zones && r.value.kind == kind && s in RotateSegments(r.value.segments, rotation))
            && (r.None? ==> forall z :: z in zones && z.kind == kind ==> s !in RotateSegments(z.segments, rotation))
  {
    if zones != [] {
      FindBySegmentSound(zones[1..], kind, rotation, s);
      assert zones == [zones[0]] + zones[1..];
    }
  }

  lemma FindBySegmentMeaning(def: TileDef, kind: Kind, rotation: int, s: Segment, z: ZoneDef)
    requires ValidDef(def)
    ensures FindZoneBySegment(def.zones, kind, rotation, s) == Some(z) <==>
            z in def.zones && z.kind == kind && s in RotateSegments(z.segments, rotation)
  {
    FindBySegmentSound(def.zones, kind, rotation, s);
    var r := FindZoneBySegment(def.zones, kind, rotation, s);
    if r.Some? && z in def.zones && s in RotateSegments(z.segments, rotation) {
      var i :| 0 <= i < |z.segments| && RotateSegment(z.segments[i], rotation) == s;
      var j :| 0 <= j < |r.value.segments| && RotateSegment(r.value.segments[j], rotation) == s;
      RotationInjective(z.segments[i], r.value.segments[j], rotation);
      assert z.segments[i] in z.segments && z.segments[i] in r.value.segments;
      ZonesDisjoint(def, z, r.value);
    }
  }

  /** pz is a zone of a tile on the board. */
  ghost predicate OnBoard(cat: Catalog, b: Board, pz: PlacedZone) {
    pz.tile in b && pz.tile.tile in cat && pz.def in cat[pz.tile.tile].zones
  }

  lemma {:induction false} ZonesMember(cat: Catalog, b: Board, ref: ZoneRef)
    ensures ref in Zones(cat, b) <==> exists pz :: OnBoard(cat, b, pz) && pz.Ref() == ref
  {
    if b != [] {
      var init, t := b[..|b| - 1], b[|b| - 1];
      assert b == init + [t];
      ZonesMember(cat, init, ref);
      if ref in TileZones(cat, t) {
        var z :| z in cat[t.tile].zones && ZoneRef(t.instance, z.id) == ref;
        assert OnBoard(cat, b, PlacedZone(t, z));
      }
      if pz :| OnBoard(cat, b, pz) && pz.Ref() == ref {
        if pz.tile != t { assert OnBoard(cat, init, pz); }
      }
      if pz :| OnBoard(cat, init, pz) && pz.Ref() == ref {
        assert OnBoard(cat, b, pz);
      }
    }
  }

  lemma LookupSteps(cat: Catalog, b: Board, ref: ZoneRef, pz: PlacedZone)
    ensures GetPlacedZone(cat, b, ref) == Some(pz) <==>
            TileById(b, ref.tile) == Some(pz.tile) && pz.tile.tile in cat &&
            FindZone(cat[pz.tile.tile].zones, ref.zone) == Some(pz.def)
  {}

  lemma LookupIs(cat: Catalog, b: Board, ref: ZoneRef, pz: PlacedZone)
    requires ValidCatalog(cat) && WellPlaced(cat, b)
    ensures GetPlacedZone(cat, b, ref) == Some(pz) <==> OnBoard(cat, b, pz) && pz.Ref() == ref
  {
    LookupSteps(cat, b, ref, pz);
    TileByIdMeaning(cat, b, ref.tile, pz.tile);
    if pz.tile in b {
      FindZoneMeaning(cat[pz.tile.tile], ref.zone, pz.def);
    }
  }

  /** A reference resolves to exactly the placed zone it names. */
  lemma Resolves(cat: Catalog, b: Board, ref: ZoneRef, pz: PlacedZone)
    requires ValidCatalog(cat) && WellPlaced(cat, b)
    ensures GetPlacedZone(cat, b, ref) == Some(pz) <==> OnBoard(cat, b, pz) && pz.Ref() == ref
    ensures ref in Zones(cat, b) <==> GetPlacedZone(cat, b, ref).Some?
  {
    LookupIs(cat, b, ref, pz);
    ZonesMember(cat, b, ref);
    if ref in Zones(cat, b) {
      var q :| OnBoard(cat, b, q) && q.Ref() == ref;
      LookupIs(cat, b, ref, q);
    }
    if q :| GetPlacedZone(cat, b, ref) == Some(q) {
      LookupIs(cat, b, ref, q);
      assert OnBoard(cat, b, q);
    }
  }

  lemma ResolvesIff(cat: Catalog, b: Board, ref: ZoneRef)
    requires ValidCatalog(cat) && WellPlaced(cat, b)
    ensures ref in Zones(cat, b) <==> GetPlacedZone(cat, b, ref).Some?
    ensures GetPlacedZone(cat, b, ref).Some? ==>
              OnBoard(cat, b, GetPlacedZone(cat, b, ref).value) && GetPlacedZone(cat, b, ref).value.Ref() == ref
  {
    if pz :| OnBoard(cat, b, pz) && pz.Ref() == ref {
      Resolves(cat, b, ref, pz);
    } else {
      ZonesMember(cat, b, ref);
      if pz :| GetPlacedZone(cat, b, ref) == Some(pz) {
        Resolves(cat, b, ref, pz);
      }
    }
  }

  /** The steps of a crossing: the cell behind the border, the tile there, and the zone that owns the segment. */
  lemma AcrossSteps(cat: Catalog, b: Board, t: PlacedTile, kind: Kind, s: Segment, m: BorderMatch, q: PlacedZone)
    requires BorderNeighbor(s) == Some(m)
    ensures Across(cat, b, t, kind, s) == Some(q) <==>
            && TileAt(b, t.x + m.dx, t.y + m.dy) == Some(q.tile) && q.tile.tile in cat
            && FindZoneBySegment(cat[q.tile.tile].zones, kind, q.tile.rotation, m.segment) == Some(q.def)
  {}

  lemma FoundBySegment(cat: Catalog, q: PlacedZone, kind: Kind, s: Segment)
    requires q.tile.tile in cat && FindZoneBySegment(cat[q.tile.tile].zones, kind, q.tile.rotation, s) == Some(q.def)
    ensures q.def in cat[q.tile.tile].zones && q.def.kind == kind && s in q.Segments()
  {
    FindBySegmentSound(cat[q.tile.tile].zones, kind, q.tile.rotation, s);
  }

  lemma AcrossSound(cat: Catalog, b: Board, t: PlacedTile, kind: Kind, s: Segment)
    requires ValidCatalog(cat) && WellPlaced(cat, b)
    ensures var r := Across(cat, b, t, kind, s);
            r.Some? ==>
              && BorderNeighbor(s).Some?
              && OnBoard(cat, b, r.value) && r.value.def.kind == kind
              && r.value.tile.x == t.x + BorderNeighbor(s).value.dx
              && r.value.tile.y == t.y + BorderNeighbor(s).value.dy
              && BorderNeighbor(s).value.segment in r.value.Segments()
  {
    if q :| Across(cat, b, t, kind, s) == Some(q) {
      var m := BorderNeighbor(s).value;
      AcrossSteps(cat, b, t, kind, s, m, q);
      TileAtNone(b, t.x + m.dx, t.y + m.dy);
      FoundBySegment(cat, q, kind, m.segment);
    }
  }

  /** Crossing back from the zone found across a border finds the zone one started from. */
  lemma AcrossBack(cat: Catalog, b: Board, pz: PlacedZone, s: Segment)
    requires ValidCatalog(cat) && WellPlaced(cat, b) && OnBoard(cat, b, pz) && s in pz.Segments()
    requires Across(cat, b, pz.tile, pz.def.kind, s).Some?
    ensures var q := Across(cat, b, pz.tile, pz.def.kind, s).value;
            && BorderNeighbor(s).Some?
            && Across(cat, b, q.tile, q.def.kind, BorderNeighbor(s).value.segment) == Some(pz)
  {
    AcrossSound(cat, b, pz.tile, pz.def.kind, s);
    CrossingIsInvolution(s);
    var q := Across(cat, b, pz.tile, pz.def.kind, s).value;
    TileAtMeaning(cat, b, pz.tile.x, pz.tile.y, pz.tile);
    FindBySegmentMeaning(cat[pz.tile.tile], pz.def.kind, pz.tile.rotation, s, pz.def);
  }

  /** The zone across a border has the zone one came from among its neighbours. */
  lemma NeighborBack(cat: Catalog, b: Board, pz: PlacedZone, s: Segment)
    requires ValidCatalog(cat) && WellPlaced(cat, b) && OnBoard(cat, b, pz) && s in pz.Segments()
    requires Across(cat, b, pz.tile, pz.def.kind, s).Some?
    ensures var q := Across(cat, b, pz.tile, pz.def.kind, s).value;
            OnBoard(cat, b, q) && pz.Ref() in Neighbors(cat, b, q)
  {
    AcrossSound(cat, b, pz.tile, pz.def.kind, s);
    AcrossBack(cat, b, pz, s);
  }

  lemma NeighborsBack(cat: Catalog, b: Board, u: ZoneRef, v: ZoneRef)
    requires ValidCatalog(cat) && WellPlaced(cat, b) && u in Zones(cat, b) && v in NeighborsOf(cat, b, u)
    ensures v in Zones(cat, b) && u in NeighborsOf(cat, b, v)
  {
    ResolvesIff(cat, b, u);
    var pz := GetPlacedZone(cat, b, u).value;
    var s :| s in pz.Segments() && Across(cat, b, pz.tile, pz.def.kind, s).Some?
          && Across(cat, b, pz.tile, pz.def.kind, s).value.Ref() == v;
    NeighborBack(cat, b, pz, s);
    Resolves(cat, b, v, Across(cat, b, pz.tile, pz.def.kind, s).value);
  }

  lemma NeighborsSymmetric(cat: Catalog, b: Board)
    requires ValidCatalog(cat) && WellPlaced(cat, b)
    ensures Symmetric(ZoneGraph(cat, b))
  {
    var g := ZoneGraph(cat, b);
    forall u, v
      ensures WalksBack(g, u, v)
    {
      if u in g && v in g[u] {
        NeighborsBack(cat, b, u, v);
      }
    }
    SymmetricIf(g);
  }

  /** Neighbours have the kind of the zone they border. */
  lemma NeighborKind(cat: Catalog, b: Board, pz: PlacedZone, v: ZoneRef)
    requires ValidCatalog(cat) && WellPlaced(cat, b) && v in Neighbors(cat, b, pz)
    ensures v in Zones(cat, b)
    ensures GetPlacedZone(cat, b, v).Some? && GetPlacedZone(cat, b, v).value.def.kind == pz.def.kind
  {
    var s :| s in pz.Segments() && Across(cat, b, pz.tile, pz.def.kind, s).Some?
          && Across(cat, b, pz.tile, pz.def.kind, s).value.Ref() == v;
    AcrossSound(cat, b, pz.tile, pz.def.kind, s);
    Resolves(cat, b, v, Across(cat, b, pz.tile, pz.def.kind, s).value);
  }

  ghost function KindOf(cat: Catalog, b: Board, ref: ZoneRef): Option<Kind> {
    match GetPlacedZone(cat, b, ref)
    case None => None
    case Some(pz) => Some(pz.def.kind)
  }

  /** A class never mixes zone types. */
  lemma ClassHasOneKind(cat: Catalog, b: Board, ref: ZoneRef, v: ZoneRef)
    requires ValidCatalog(cat) && WellPlaced(cat, b) && ref in Zones(cat, b) && v in Class(cat, b, ref)
    ensures KindOf(cat, b, v) == KindOf(cat, b, ref)
  {
    var g := ZoneGraph(cat, b);
    var same := set w | w in g && KindOf(cat, b, w) == KindOf(cat, b, ref);
    forall x | x in same && x in g
      ensures g[x] <= same
    {
      forall w | w in g[x]
        ensures w in same
      {
        Resolves(cat, b, x, GetPlacedZone(cat, b, x).value);
        NeighborKind(cat, b, GetPlacedZone(cat, b, x).value, w);
      }
    }
    Least(g, ref, same);
  }

  // ---------------------------------------------------------------- open edges

  /** A border segment of the zone with no zone of the same kind behind it. */
  predicate IsOpen(cat: Catalog, b: Board, pz: PlacedZone, s: Segment) {
    BorderNeighbor(s).Some? && Across(cat, b, pz.tile, pz.def.kind, s).None?
  }

  function OpenAmong(cat: Catalog, b: Board, pz: PlacedZone, segments: seq<Segment>): nat {
    if segments == [] then 0
    else OpenAmong(cat, b, pz, segments[..|segments| - 1])
         + (if IsOpen(cat, b, pz, segments[|segments| - 1]) then 1 else 0)
  }

  function OpenEdges(cat: Catalog, b: Board, ref: ZoneRef): nat {
    match GetPlacedZone(cat, b, ref)
    case None => 0
    case Some(pz) => OpenAmong(cat, b, pz, pz.Segments())
  }

  /** A feature is closed when none of its zones has an open edge. */
  ghost predicate Closed(cat: Catalog, b: Board, ref: ZoneRef) {
    forall v :: v in Class(cat, b, ref) ==> OpenEdges(cat, b, v) == 0
  }

  lemma {:induction false} NoneOpen(cat: Catalog, b: Board, pz: PlacedZone, segments: seq<Segment>)
    ensures OpenAmong(cat, b, pz, segments) == 0 <==> forall s :: s in segments ==> !IsOpen(cat, b, pz, s)
  {
    if segments != [] {
      var init := segments[..|segments| - 1];
      NoneOpen(cat, b, pz, init);
      assert segments == init + [segments[|segments| - 1]];
    }
  }

  /** The border crossing of a segment is the step to the cell beside its side. */
  lemma CrossingMatchesSide(t: PlacedTile, n: PlacedTile, s: Segment)
    requires s != Center
    ensures BorderNeighbor(s).Some? && SideOf(s).Some?
    ensures n.x == t.x + BorderNeighbor(s).value.dx && n.y == t.y + BorderNeighbor(s).value.dy
            <==> Beside(t, n, SideOf(s).value)
  {}

  /** The zone that owns a boundary segment of a placed tile has the type its rotated edge asks for. */
  lemma OwnerOfSegment(cat: Catalog, n: PlacedTile, s: Segment) returns (z: ZoneDef)
    requires ValidCatalog(cat) && n.tile in cat && n.rotation in {0, 90, 180, 270} && s != Center
    ensures z in cat[n.tile].zones && s in RotateSegments(z.segments, n.rotation)
    ensures SideOf(s).Some?
    ensures var edge := SideKind(cat, n, SideOf(s).value);
            if edge == Road then IsCenterOfSide(s) ==> z.kind == Road else z.kind == edge
  {
    var def := cat[n.tile];
    var origin := RotationOnto(s, n.rotation);
    NormalizeIsRemainder(n.rotation);
    RotationsAgree(def.edges, origin, n.rotation);
    assert ValidAt(def, origin);
    var i :| 0 <= i < |def.zones| && origin in def.zones[i].segments &&
             SegmentFits(def.edges, origin, def.zones[i].kind);
    z := def.zones[i];
    var k :| 0 <= k < |z.segments| && z.segments[k] == origin;
    assert RotateSegments(z.segments, n.rotation)[k] == s;
  }

  /** A segment whose type its side dictates: any segment of a city or field side, the middle of a road side. */
  predicate Dictated(edge: Kind, s: Segment) {
    edge == Road ==> IsCenterOfSide(s)
  }

  lemma MatchingSideHasZone(cat: Catalog, b: Board, n: PlacedTile, kind: Kind, s: Segment)
    requires ValidCatalog(cat) && WellPlaced(cat, b) && n in b && s != Center
    requires SideKind(cat, n, SideOf(s).value) == kind && Dictated(kind, s)
    ensures FindZoneBySegment(cat[n.tile].zones, kind, n.rotation, s).Some?
  {
    var z := OwnerOfSegment(cat, n, s);
    FindBySegmentMeaning(cat[n.tile], kind, n.rotation, s, z);
  }

  lemma TouchingSides(cat: Catalog, b: Board, t: PlacedTile, n: PlacedTile, side: Side)
    requires LegalBoard(cat, b) && t in b && n in b && Beside(t, n, side)
    ensures t.tile in cat && n.tile in cat && SideKind(cat, t, side) == SideKind(cat, n, Opposite(side))
  {
    assert EdgesMatch(cat, t, n, side);
  }

  /** Across a touching border lies a segment of the same position on a side of the same type. */
  lemma BehindTheSide(cat: Catalog, b: Board, t: PlacedTile, n: PlacedTile, s: Segment, side: Side, m: BorderMatch)
    requires LegalBoard(cat, b) && t in b && n in b
    requires BorderNeighbor(s) == Some(m) && SideOf(s) == Some(side) && n.x == t.x + m.dx && n.y == t.y + m.dy
    ensures m.segment != Center && SideOf(m.segment) == Some(Opposite(side)) && n.tile in cat && t.tile in cat
    ensures SideKind(cat, n, Opposite(side)) == SideKind(cat, t, side)
    ensures IsCenterOfSide(m.segment) <==> IsCenterOfSide(s)
  {
    CrossingMatchesSide(t, n, s);
    CrossingIsInvolution(s);
    TouchingSides(cat, b, t, n, side);
  }

  lemma OpenAt(cat: Catalog, b: Board, pz: PlacedZone, s: Segment, m: BorderMatch)
    requires BorderNeighbor(s) == Some(m)
    ensures IsOpen(cat, b, pz, s) <==>
            match TileAt(b, pz.tile.x + m.dx, pz.tile.y + m.dy)
            case None => true
            case Some(n) => n.tile !in cat ||
                            FindZoneBySegment(cat[n.tile].zones, pz.def.kind, n.rotation, m.segment).None?
  {}

  /** On a legal board a city segment of a city edge, and the road segment in the middle of a road edge,
      is open exactly when the cell behind it is empty. */
  lemma OpenMeansEmptyCell(cat: Catalog, b: Board, pz: PlacedZone, s: Segment, side: Side, m: BorderMatch)
    requires ValidCatalog(cat) && LegalBoard(cat, b) && OnBoard(cat, b, pz) && s in pz.Segments()
    requires BorderNeighbor(s) == Some(m) && SideOf(s) == Some(side)
    requires pz.def.kind == SideKind(cat, pz.tile, side) && Dictated(pz.def.kind, s)
    ensures IsOpen(cat, b, pz, s) <==> TileAt(b, pz.tile.x + m.dx, pz.tile.y + m.dy).None?
  {
    var found := TileAt(b, pz.tile.x + m.dx, pz.tile.y + m.dy);
    if found.Some? {
      TileAtNone(b, pz.tile.x + m.dx, pz.tile.y + m.dy);
      BehindTheSide(cat, b, pz.tile, found.value, s, side, m);
      MatchingSideHasZone(cat, b, found.value, pz.def.kind, m.segment);
    }
    OpenAt(cat, b, pz, s, m);
  }
}
