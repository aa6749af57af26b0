/** Tile definitions, their geometry under rotation, and what the tile catalog validator guarantees. */
module Tiles {
  type Id = string

  datatype Option<+T> = None | Some(value: T)

  /** Zone types and edge types share their names; the validator converts one into the other. */
  datatype Kind = City | Road | Monastery | Field | Cathedral | OtherKind(name: string)

  datatype Segment =
    | TopLeft | TopCenter | TopRight
    | RightTop | RightCenter | RightBottom
    | BottomRight | BottomCenter | BottomLeft
    | LeftBottom | LeftCenter | LeftTop
    | Center

  datatype Side = Top | Right | Bottom | Left

  datatype Edges = Edges(top: Kind, right: Kind, bottom: Kind, left: Kind) {
    function At(side: Side): Kind {
      match side
      case Top => top
      case Right => right
      case Bottom => bottom
      case Left => left
    }
  }

  datatype ZoneDef = ZoneDef(id: Id, kind: Kind, segments: seq<Segment>, hasPennant: bool, hasInn: bool)

  datatype TileDef = TileDef(id: Id, imageKey: string, count: int, edges: Edges, zones: seq<ZoneDef>)

  type Catalog = map<Id, TileDef>

  // ---------------------------------------------------------------- rotation

  /** Remainder with the sign of the dividend, as the source language's % computes it. */
  function TruncatedMod(a: int, m: int): int
    requires 0 < m
  {
    if 0 <= a then a % m else -((-a) % m)
  }

  function NormalizeRotation(rotation: int): int {
    var r := TruncatedMod(rotation, 360);
    if r < 0 then r + 360 else r
  }

  /** Normalising is the mathematical remainder, for every integer rotation. */
  lemma NormalizeIsRemainder(rotation: int)
    ensures NormalizeRotation(rotation) == rotation % 360
    ensures NormalizeRotation(rotation % 360) == rotation % 360
  {
    if rotation < 0 {
      assert rotation == -((-rotation) / 360) * 360 - (-rotation) % 360;
    }
  }

  predicate IsValidRotation(rotation: int) {
    NormalizeRotation(rotation) in {0, 90, 180, 270}
  }

  function QuarterTurn(s: Segment): Segment {
    match s
    case TopLeft => RightTop
    case TopCenter => RightCenter
    case TopRight => RightBottom
    case RightTop => BottomRight
    case RightCenter => BottomCenter
    case RightBottom => BottomLeft
    case BottomRight => LeftBottom
    case BottomCenter => LeftCenter
    case BottomLeft => LeftTop
    case LeftBottom => TopLeft
    case LeftCenter => TopCenter
    case LeftTop => TopRight
    case Center => Center
  }

  function RotateSegment(s: Segment, rotation: int): Segment {
    var r := NormalizeRotation(rotation);
    if r == 90 then QuarterTurn(s)
    else if r == 180 then QuarterTurn(QuarterTurn(s))
    else if r == 270 then QuarterTurn(QuarterTurn(QuarterTurn(s)))
    else s
  }

  function RotateSegments(segments: seq<Segment>, rotation: int): (r: seq<Segment>)
    ensures |r| == |segments|
  {
    seq(|segments|, i requires 0 <= i < |segments| => RotateSegment(segments[i], rotation))
  }

  function QuarterTurnEdges(e: Edges): Edges {
    Edges(top := e.left, right := e.top, bottom := e.right, left := e.bottom)
  }

  function TurnEdges(e: Edges, quarters: nat): Edges
    decreases quarters
  {
    if quarters == 0 then e else TurnEdges(QuarterTurnEdges(e), quarters - 1)
  }

  function RotateEdges(e: Edges, rotation: int): Edges {
    NormalizeIsRemainder(rotation);
    TurnEdges(e, NormalizeRotation(rotation) / 90)
  }

  function SideOf(s: Segment): Option<Side> {
    match s
    case TopLeft | TopCenter | TopRight => Some(Top)
    case RightTop | RightCenter | RightBottom => Some(Right)
    case BottomRight | BottomCenter | BottomLeft => Some(Bottom)
    case LeftBottom | LeftCenter | LeftTop => Some(Left)
    case Center => None
  }

  predicate IsCenterOfSide(s: Segment) {
    s in {TopCenter, RightCenter, BottomCenter, LeftCenter}
  }

  /** Rotation is one-to-one on segments. */
  lemma RotationInjective(a: Segment, b: Segment, rotation: int)
    requires RotateSegment(a, rotation) == RotateSegment(b, rotation)
    ensures a == b
  {
    var r := NormalizeRotation(rotation);
    QuarterTurnInjective(a, b);
    QuarterTurnInjective(QuarterTurn(a), QuarterTurn(b));
    QuarterTurnInjective(QuarterTurn(QuarterTurn(a)), QuarterTurn(QuarterTurn(b)));
  }

  lemma QuarterTurnInjective(a: Segment, b: Segment)
    ensures QuarterTurn(a) == QuarterTurn(b) ==> a == b
  {}

  /** Every boundary segment of the rotated tile comes from a boundary segment of the definition. */
  lemma RotationOnto(s: Segment, rotation: int) returns (origin: Segment)
    ensures RotateSegment(origin, rotation) == s
    ensures origin == Center <==> s == Center
    ensures IsCenterOfSide(origin) <==> IsCenterOfSide(s)
  {
    var r := NormalizeRotation(rotation);
    var q := QuarterTurn(s);
    origin := if r == 90 then QuarterTurn(QuarterTurn(q))
    else if r == 180 then QuarterTurn(q)
    else if r == 270 then q
    else s;
    FourQuarterTurns(s);
  }

  lemma FourQuarterTurns(s: Segment)
    ensures QuarterTurn(QuarterTurn(QuarterTurn(QuarterTurn(s)))) == s
    ensures QuarterTurn(s) == Center <==> s == Center
    ensures IsCenterOfSide(QuarterTurn(s)) <==> IsCenterOfSide(s)
    ensures IsCenterOfSide(QuarterTurn(QuarterTurn(s))) <==> IsCenterOfSide(s)
    ensures IsCenterOfSide(QuarterTurn(QuarterTurn(QuarterTurn(s)))) <==> IsCenterOfSide(s)
    ensures QuarterTurn(QuarterTurn(s)) == Center <==> s == Center
    ensures QuarterTurn(QuarterTurn(QuarterTurn(s))) == Center <==> s == Center
  {}

  /** Rotating the edges of a tile agrees with rotating its segments. */
  lemma RotationsAgree(e: Edges, s: Segment, rotation: int)
    requires IsValidRotation(rotation) && s != Center
    ensures SideOf(RotateSegment(s, rotation)).Some?
    ensures RotateEdges(e, rotation).At(SideOf(RotateSegment(s, rotation)).value) == e.At(SideOf(s).value)
  {
    var q := QuarterTurnEdges(e);
    assert TurnEdges(e, 1) == q;
    assert TurnEdges(e, 2) == TurnEdges(q, 1) == QuarterTurnEdges(q);
    assert TurnEdges(e, 3) == TurnEdges(q, 2) == TurnEdges(QuarterTurnEdges(q), 1)
           == QuarterTurnEdges(QuarterTurnEdges(q));
    QuarterTurnAgrees(e, s);
    QuarterTurnAgrees(q, QuarterTurn(s));
    QuarterTurnAgrees(QuarterTurnEdges(q), QuarterTurn(QuarterTurn(s)));
  }

  lemma QuarterTurnAgrees(e: Edges, s: Segment)
    requires s != Center
    ensures QuarterTurn(s) != Center
    ensures QuarterTurnEdges(e).At(SideOf(QuarterTurn(s)).value) == e.At(SideOf(s).value)
  {}

  // ---------------------------------------------------------------- border crossing

  datatype BorderMatch = BorderMatch(dx: int, dy: int, segment: Segment)

  function BorderNeighbor(s: Segment): Option<BorderMatch> {
    match s
    case TopLeft => Some(BorderMatch(0, -1, BottomLeft))
    case TopCenter => Some(BorderMatch(0, -1, BottomCenter))
    case TopRight => Some(BorderMatch(0, -1, BottomRight))
    case RightTop => Some(BorderMatch(1, 0, LeftTop))
    case RightCenter => Some(BorderMatch(1, 0, LeftCenter))
    case RightBottom => Some(BorderMatch(1, 0, LeftBottom))
    case BottomRight => Some(BorderMatch(0, 1, TopRight))
    case BottomCenter => Some(BorderMatch(0, 1, TopCenter))
    case BottomLeft => Some(BorderMatch(0, 1, TopLeft))
    case LeftBottom => Some(BorderMatch(-1, 0, RightBottom))
    case LeftCenter => Some(BorderMatch(-1, 0, RightCenter))
    case LeftTop => Some(BorderMatch(-1, 0, RightTop))
    case Center => None
  }

  function Opposite(side: Side): Side {
    match side
    case Top => Bottom
    case Right => Left
    case Bottom => Top
    case Left => Right
  }

  /** Crossing a border twice leads back to the same segment of the same cell. */
  lemma CrossingIsInvolution(s: Segment)
    ensures BorderNeighbor(s).Some? <==> s != Center
    ensures BorderNeighbor(s).Some? ==>
              var m := BorderNeighbor(s).value;
              BorderNeighbor(m.segment) == Some(BorderMatch(-m.dx, -m.dy, s))
    ensures BorderNeighbor(s).Some? ==>
              && SideOf(BorderNeighbor(s).value.segment) == Some(Opposite(SideOf(s).value))
              && (IsCenterOfSide(BorderNeighbor(s).value.segment) <==> IsCenterOfSide(s))
  {}

  // ---------------------------------------------------------------- segment adjacency

  function AdjacentSegments(s: Segment): seq<Segment> {
    match s
    case TopLeft => [TopCenter, LeftTop]
    case TopCenter => [TopLeft, TopRight]
    case TopRight => [TopCenter, RightTop]
    case RightTop => [TopRight, RightCenter]
    case RightCenter => [RightTop, RightBottom]
    case RightBottom => [RightCenter, BottomRight]
    case BottomRight => [RightBottom, BottomCenter]
    case BottomCenter => [BottomRight, BottomLeft]
    case BottomLeft => [BottomCenter, LeftBottom]
    case LeftBottom => [BottomLeft, LeftCenter]
    case LeftCenter => [LeftBottom, LeftTop]
    case LeftTop => [LeftCenter, TopLeft]
    case Center => [TopCenter, RightCenter, BottomCenter, LeftCenter]
  }

  /** One field segment touches a zone made of the given segments. */
  predicate Touches(s: Segment, others: seq<Segment>) {
    exists i :: 0 <= i < |others| && others[i] in AdjacentSegments(s)
  }

  // ---------------------------------------------------------------- the catalog validator

  predicate HasFieldEdge(e: Edges) {
    e.top == Field || e.right == Field || e.bottom == Field || e.left == Field
  }

  ghost predicate ValidZone(z: ZoneDef, e: Edges) {
    && z.id != ""
    && z.segments != []
    && (forall i, j :: 0 <= i < j < |z.segments| ==> z.segments[i] != z.segments[j])
    && (z.hasPennant ==> z.kind == City)
    && (z.hasInn ==> z.kind == Road)
    && (z.kind == Field && HasFieldEdge(e) ==> exists s :: s in z.segments && s != Center)
  }

  /** What a definition must satisfy at one boundary segment. */
  ghost predicate ValidAt(def: TileDef, s: Segment)
    requires s != Center
  {
    exists i :: 0 <= i < |def.zones| && s in def.zones[i].segments && SegmentFits(def.edges, s, def.zones[i].kind)
  }

  predicate SegmentFits(e: Edges, s: Segment, kind: Kind)
    requires s != Center
  {
    var edge := e.At(SideOf(s).value);
    if edge == Road then IsCenterOfSide(s) ==> kind == Road else kind == edge
  }

  ghost predicate ValidDef(def: TileDef) {
    && def.id != "" && def.imageKey != "" && 0 <= def.count
    && def.zones != []
    && (forall i :: 0 <= i < |def.zones| ==> ValidZone(def.zones[i], def.edges))
    && (forall i, j :: 0 <= i < j < |def.zones| ==> def.zones[i].id != def.zones[j].id)
    && (forall i, j, s :: 0 <= i < j < |def.zones| && s in def.zones[i].segments ==> s !in def.zones[j].segments)
    && (forall s :: s != Center ==> ValidAt(def, s))
  }

  const START_TILE_ID: Id := "start_tile"

  ghost predicate ValidCatalog(cat: Catalog) {
    && START_TILE_ID in cat && cat[START_TILE_ID].count == 0
    && forall id :: id in cat ==> cat[id].id == id && ValidDef(cat[id])
  }

  /** Zones of one definition that share an id or a segment are the same zone. */
  lemma ZonesDisjoint(def: TileDef, y: ZoneDef, z: ZoneDef)
    requires ValidDef(def) && y in def.zones && z in def.zones
    requires y.id == z.id || exists s :: s in y.segments && s in z.segments
    ensures y == z
  {
    var i :| 0 <= i < |def.zones| && def.zones[i] == y;
    var j :| 0 <= j < |def.zones| && def.zones[j] == z;
  }
}
