/** The same tables once more as points of the plane: turning a tile, crossing a border and touching are what they are
    on paper. */
module Geometry {
  import opened Tiles
  import opened Topology
  import opened MeeplePlacements

  /** Eight units to a tile; y grows downwards, as on the board. */
  datatype Point = Point(x: int, y: int)

  /** Where a segment lies, seen from the middle of its tile. */
  function PointOf(s: Segment): Point {
    match s
    case TopLeft => Point(-2, -4)
    case TopCenter => Point(0, -4)
    case TopRight => Point(2, -4)
    case RightTop => Point(4, -2)
    case RightCenter => Point(4, 0)
    case RightBottom => Point(4, 2)
    case BottomRight => Point(2, 4)
    case BottomCenter => Point(0, 4)
    case BottomLeft => Point(-2, 4)
    case LeftBottom => Point(-4, 2)
    case LeftCenter => Point(-4, 0)
    case LeftTop => Point(-4, -2)
    case Center => Point(0, 0)
  }

  /** A quarter turn clockwise around the middle, and several of them. */
  function Turned(p: Point, quarters: nat): Point
    decreases quarters
  {
    if quarters == 0 then p else Turned(Point(-p.y, p.x), quarters - 1)
  }

  /** At most two units apart in each direction. */
  predicate Near(p: Point, q: Point) {
    -2 <= p.x - q.x <= 2 && -2 <= p.y - q.y <= 2
  }

  /** A point of a tile as a point of the board. */
  function OnGrid(x: int, y: int, s: Segment): Point {
    Point(8 * x + PointOf(s).x, 8 * y + PointOf(s).y)
  }

  /** Turning a tile by r degrees turns each of its segments clockwise by that angle, for every valid rotation. */
  lemma RotationTurns(s: Segment, rotation: int)
    requires IsValidRotation(rotation)
    ensures PointOf(RotateSegment(s, rotation)) == Turned(PointOf(s), rotation % 360 / 90)
  {
    NormalizeIsRemainder(rotation);
    FourTurns(PointOf(s));
    OneTurn(s);
    OneTurn(QuarterTurn(s));
    OneTurn(QuarterTurn(QuarterTurn(s)));
    var r := rotation % 360;
    assert r == 0 || r == 90 || r == 180 || r == 270;
    assert r / 90 == if r == 0 then 0 else if r == 90 then 1 else if r == 180 then 2 else 3;
  }

  lemma FourTurns(p: Point)
    ensures Turned(p, 0) == p && Turned(p, 1) == Point(-p.y, p.x)
    ensures Turned(p, 2) == Point(-p.x, -p.y) && Turned(p, 3) == Point(p.y, -p.x)
  {
    var q := Point(-p.y, p.x);
    var r := Point(-q.y, q.x);
    assert Turned(q, 1) == Turned(r, 0) && Turned(q, 2) == Turned(r, 1);
  }

  lemma OneTurn(s: Segment)
    ensures PointOf(QuarterTurn(s)) == Point(-PointOf(s).y, PointOf(s).x)
  {}

  lemma PointsDiffer(s: Segment, t: Segment)
    ensures PointOf(s) == PointOf(t) <==> s == t
  {}

  /** The sides of a tile are where its segments lie. */
  lemma SidesLie(s: Segment)
    ensures SideOf(s) == Some(Top) <==> PointOf(s).y == -4
    ensures SideOf(s) == Some(Right) <==> PointOf(s).x == 4
    ensures SideOf(s) == Some(Bottom) <==> PointOf(s).y == 4
    ensures SideOf(s) == Some(Left) <==> PointOf(s).x == -4
    ensures IsCenterOfSide(s) <==> s != Center && (PointOf(s).x == 0 || PointOf(s).y == 0)
  {}

  /** A border is crossed exactly where two segments of different cells are the same point of the board. */
  lemma CrossingIsSamePoint(x: int, y: int, s: Segment, u: int, v: int, t: Segment)
    ensures BorderNeighbor(s) == Some(BorderMatch(u - x, v - y, t)) <==>
            OnGrid(x, y, s) == OnGrid(u, v, t) && (x, y) != (u, v)
  {
    if OnGrid(x, y, s) == OnGrid(u, v, t) && (x, y) != (u, v) {
      assert 8 * (u - x) == PointOf(s).x - PointOf(t).x && 8 * (v - y) == PointOf(s).y - PointOf(t).y;
    }
  }

  lemma BorderIsNear(s: Segment, t: Segment)
    requires s != Center
    ensures |AdjacentSegments(s)| == 2
    ensures t == AdjacentSegments(s)[0] || t == AdjacentSegments(s)[1] <==>
            t != s && t != Center && Near(PointOf(s), PointOf(t))
  {}

  /** Segments of the border touch the next ones along it; the middle touches the middles of all sides, though no
      segment touches the middle. */
  lemma AdjacentIsNear(s: Segment, t: Segment)
    ensures t in AdjacentSegments(s) <==>
            if s == Center then IsCenterOfSide(t) else t != s && t != Center && Near(PointOf(s), PointOf(t))
  {
    var a := AdjacentSegments(s);
    if s == Center {
      assert a[0] in a && a[1] in a && a[2] in a && a[3] in a;
    } else {
      BorderIsNear(s, t);
      assert a[0] in a && a[1] in a && forall u :: u in a ==> u == a[0] || u == a[1];
    }
  }

  /** So touching is mutual except from the middle. */
  lemma TouchingIsMutual(s: Segment, t: Segment)
    requires s != Center
    ensures t in AdjacentSegments(s) ==> s in AdjacentSegments(t)
  {
    AdjacentIsNear(s, t);
    AdjacentIsNear(t, s);
  }

  /** Steps along the border, clockwise from the top left corner. */
  function Clock(s: Segment): nat
    requires s != Center
  {
    match s
    case TopLeft => 0
    case TopCenter => 1
    case TopRight => 2
    case RightTop => 3
    case RightCenter => 4
    case RightBottom => 5
    case BottomRight => 6
    case BottomCenter => 7
    case BottomLeft => 8
    case LeftBottom => 9
    case LeftCenter => 10
    case LeftTop => 11
  }

  lemma ClockTurns(s: Segment)
    requires s != Center
    ensures QuarterTurn(s) != Center && Clock(QuarterTurn(s)) == (Clock(s) + 3) % 12
  {}

  /** A meeple is drawn on the middle if it can be, else on the middle of a side, else elsewhere on the border, and
      among these on the first one. */
  lemma RankIsClockwise(s: Segment, t: Segment)
    ensures PlacementRank(s) < PlacementRank(t) <==>
            s != t && (s == Center ||
                       (t != Center && ((IsCenterOfSide(s) && !IsCenterOfSide(t)) ||
                                        (IsCenterOfSide(s) == IsCenterOfSide(t) && Clock(s) < Clock(t)))))
  {}

  // ---------------------------------------------------------------- zones that meet

  /** Two placed zones share a point of the border between their tiles. */
  ghost predicate Meet(p: PlacedZone, q: PlacedZone, s: Segment, t: Segment) {
    && s in p.Segments() && t in q.Segments() && (p.tile.x, p.tile.y) != (q.tile.x, q.tile.y)
    && OnGrid(p.tile.x, p.tile.y, s) == OnGrid(q.tile.x, q.tile.y, t)
  }

  /** What lies across a border is exactly the zone of the kind that meets it there. */
  lemma AcrossIsMeeting(cat: Catalog, b: Board, p: PlacedZone, q: PlacedZone, s: Segment)
    requires ValidCatalog(cat) && WellPlaced(cat, b) && OnBoard(cat, b, p) && s in p.Segments()
    ensures Across(cat, b, p.tile, p.def.kind, s) == Some(q) <==>
            OnBoard(cat, b, q) && q.def.kind == p.def.kind && exists t :: Meet(p, q, s, t)
  {
    if Across(cat, b, p.tile, p.def.kind, s) == Some(q) {
      AcrossSound(cat, b, p.tile, p.def.kind, s);
      var m := BorderNeighbor(s).value;
      CrossingIsSamePoint(p.tile.x, p.tile.y, s, q.tile.x, q.tile.y, m.segment);
      assert Meet(p, q, s, m.segment);
    }
    if t :| OnBoard(cat, b, q) && q.def.kind == p.def.kind && Meet(p, q, s, t) {
      MeetingIsAcross(cat, b, p, q, s, t);
    }
  }

  lemma MeetingIsAcross(cat: Catalog, b: Board, p: PlacedZone, q: PlacedZone, s: Segment, t: Segment)
    requires ValidCatalog(cat) && WellPlaced(cat, b) && OnBoard(cat, b, p) && OnBoard(cat, b, q)
    requires q.def.kind == p.def.kind && Meet(p, q, s, t)
    ensures Across(cat, b, p.tile, p.def.kind, s) == Some(q)
  {
    var m := BorderMatch(q.tile.x - p.tile.x, q.tile.y - p.tile.y, t);
    CrossingIsSamePoint(p.tile.x, p.tile.y, s, q.tile.x, q.tile.y, t);
    TileAtMeaning(cat, b, q.tile.x, q.tile.y, q.tile);
    FindBySegmentMeaning(cat[q.tile.tile], p.def.kind, q.tile.rotation, t, q.def);
    AcrossSteps(cat, b, p.tile, p.def.kind, s, m, q);
  }

  /** Zones are neighbours in the graph of the board if and only if they have one kind and meet at a border. Roads,
      cities and fields are what such meetings connect. */
  lemma NeighborsMeet(cat: Catalog, b: Board, p: PlacedZone, q: PlacedZone)
    requires ValidCatalog(cat) && WellPlaced(cat, b) && OnBoard(cat, b, p) && OnBoard(cat, b, q)
    ensures p.Ref() in ZoneGraph(cat, b)
    ensures q.Ref() in ZoneGraph(cat, b)[p.Ref()] <==> q.def.kind == p.def.kind && exists s, t :: Meet(p, q, s, t)
  {
    Resolves(cat, b, p.Ref(), p);
    Resolves(cat, b, q.Ref(), q);
    if q.Ref() in Neighbors(cat, b, p) {
      var s :| s in p.Segments() && Across(cat, b, p.tile, p.def.kind, s).Some? &&
               Across(cat, b, p.tile, p.def.kind, s).value.Ref() == q.Ref();
      var r := Across(cat, b, p.tile, p.def.kind, s).value;
      AcrossIsMeeting(cat, b, p, r, s);
      Resolves(cat, b, q.Ref(), r);
    }
    if s, t :| q.def.kind == p.def.kind && Meet(p, q, s, t) {
      MeetingIsAcross(cat, b, p, q, s, t);
    }
  }

  /** A segment of a zone is open if and only if it lies on the border and no zone of its kind meets it there. */
  lemma OpenIsAlone(cat: Catalog, b: Board, p: PlacedZone, s: Segment)
    requires ValidCatalog(cat) && WellPlaced(cat, b) && OnBoard(cat, b, p) && s in p.Segments()
    ensures IsOpen(cat, b, p, s) <==>
            s != Center && forall q, t :: OnBoard(cat, b, q) && q.def.kind == p.def.kind ==> !Meet(p, q, s, t)
  {
    CrossingIsInvolution(s);
    if q :| Across(cat, b, p.tile, p.def.kind, s) == Some(q) {
      AcrossIsMeeting(cat, b, p, q, s);
    } else {
      forall q, t | OnBoard(cat, b, q) && q.def.kind == p.def.kind
        ensures !Meet(p, q, s, t)
      {
        AcrossIsMeeting(cat, b, p, q, s);
      }
    }
  }
}
