/** What surrounds a monastery, the tiles of the block around it, and what lies beside a field, the cities it
    touches. */
module Neighbourhoods {
  import opened Tiles
  import opened Topology
  import opened Pieces
  import opened Geometry
  import opened FieldGraphs
  import opened FieldCities
  import opened GameStates
  import opened FinalScores
  import opened Sorting

  /** The cell lies in the block around (x, y), its middle included. */
  predicate InBlock(u: int, v: int, x: int, y: int) {
    -1 <= u - x <= 1 && -1 <= v - y <= 1
  }

  ghost function Block(b: Board, x: int, y: int): set<PlacedTile> {
    set t | t in b && InBlock(t.x, t.y, x, y)
  }

  ghost function TilesOn(b: Board, cells: seq<(int, int)>): set<PlacedTile> {
    set t | t in b && (t.x, t.y) in cells
  }

  lemma {:induction false} CountsTiles(cat: Catalog, b: Board, cells: seq<(int, int)>)
    requires WellPlaced(cat, b) && NoTwice(cells)
    ensures OccupiedCells(b, cells) == |TilesOn(b, cells)|
  {
    if cells != [] {
      var init, c := cells[..|cells| - 1], cells[|cells| - 1];
      CountsTiles(cat, b, init);
      assert cells == init + [c];
      assert c !in init;
      TileAtNone(b, c.0, c.1);
      if TileAt(b, c.0, c.1).Some? {
        var t := TileAt(b, c.0, c.1).value;
        forall n | n in b && (n.x, n.y) == c
          ensures n == t
        {
          TileAtMeaning(cat, b, c.0, c.1, n);
        }
        assert TilesOn(b, cells) == TilesOn(b, init) + {t};
      } else {
        assert TilesOn(b, cells) == TilesOn(b, init);
      }
    } else {
      assert TilesOn(b, cells) == {};
    }
  }

  lemma AroundIsBlock(x: int, y: int, u: int, v: int)
    ensures (u, v) in Around(x, y) <==> InBlock(u, v, x, y) && (u, v) != (x, y)
    ensures NoTwice(Around(x, y)) && |Around(x, y)| == 8
  {
    var a := Around(x, y);
    assert a[0] in a && a[1] in a && a[2] in a && a[3] in a && a[4] in a && a[5] in a && a[6] in a && a[7] in a;
  }

  /** The count is the number of tiles in the block, without the middle. */
  lemma CountIsBlock(cat: Catalog, b: Board, x: int, y: int)
    requires WellPlaced(cat, b)
    ensures AdjacentTileCount(b, x, y) == |set t | t in Block(b, x, y) && (t.x, t.y) != (x, y)|
  {
    AroundIsBlock(x, y, x, y);
    CountsTiles(cat, b, Around(x, y));
    forall t | t in b
      ensures (t.x, t.y) in Around(x, y) <==> InBlock(t.x, t.y, x, y) && (t.x, t.y) != (x, y)
    {
      AroundIsBlock(x, y, t.x, t.y);
    }
    assert TilesOn(b, Around(x, y)) == set t | t in Block(b, x, y) && (t.x, t.y) != (x, y);
  }

  lemma {:induction false} AllOccupied(b: Board, cells: seq<(int, int)>)
    ensures OccupiedCells(b, cells) <= |cells|
    ensures OccupiedCells(b, cells) == |cells| <==> forall c :: c in cells ==> TileAt(b, c.0, c.1).Some?
  {
    if cells != [] {
      var init, c := cells[..|cells| - 1], cells[|cells| - 1];
      AllOccupied(b, init);
      assert cells == init + [c];
    }
  }

  /** A tile lies on every cell of the block. */
  ghost predicate Full(b: Board, x: int, y: int) {
    forall u, v :: InBlock(u, v, x, y) ==> exists t :: t in b && t.x == u && t.y == v
  }

  lemma FullIffAroundIsTaken(b: Board, x: int, y: int, middle: PlacedTile)
    requires middle in b && middle.x == x && middle.y == y
    ensures Full(b, x, y) <==> forall c :: c in Around(x, y) ==> TileAt(b, c.0, c.1).Some?
  {
    if forall c :: c in Around(x, y) ==> TileAt(b, c.0, c.1).Some? {
      forall u, v | InBlock(u, v, x, y)
        ensures exists t :: t in b && t.x == u && t.y == v
      {
        CellTaken(b, x, y, u, v, middle);
      }
    }
    if Full(b, x, y) {
      forall c | c in Around(x, y)
        ensures TileAt(b, c.0, c.1).Some?
      {
        AroundIsTaken(b, x, y, c);
      }
    }
  }

  /** A monk's monastery is complete if and only if every cell of its block is taken. */
  lemma CompleteIffBlockIsFull(cat: Catalog, b: Board, m: Meeple, pz: PlacedZone)
    requires ValidCatalog(cat) && WellPlaced(cat, b) && OnBoard(cat, b, pz) && m.Ref() == pz.Ref()
    ensures OnCompleteMonastery(cat, b, m) <==> pz.def.kind == Monastery && Full(b, pz.tile.x, pz.tile.y)
  {
    Resolves(cat, b, m.Ref(), pz);
    var x, y := pz.tile.x, pz.tile.y;
    AllOccupied(b, Around(x, y));
    AroundIsBlock(x, y, x, y);
    FullIffAroundIsTaken(b, x, y, pz.tile);
  }

  lemma AroundIsTaken(b: Board, x: int, y: int, c: (int, int))
    requires c in Around(x, y) && Full(b, x, y)
    ensures TileAt(b, c.0, c.1).Some?
  {
    assert c == (c.0, c.1);
    AroundIsBlock(x, y, c.0, c.1);
    assert InBlock(c.0, c.1, x, y);
    TileAtNone(b, c.0, c.1);
  }

  lemma CellTaken(b: Board, x: int, y: int, u: int, v: int, middle: PlacedTile)
    requires InBlock(u, v, x, y) && middle in b && middle.x == x && middle.y == y
    requires forall c :: c in Around(x, y) ==> TileAt(b, c.0, c.1).Some?
    ensures exists t :: t in b && t.x == u && t.y == v
  {
    AroundIsBlock(x, y, u, v);
    TileAtNone(b, u, v);
    if (u, v) != (x, y) {
      assert (u, v) in Around(x, y) && TileAt(b, u, v).Some?;
      var t := TileAt(b, u, v).value;
      assert t in b && t.x == u && t.y == v;
    }
  }

  /** A meeple is a monk if and only if it stands on a monastery of the board, and at the end of the game it is worth
      the tiles of the block, its own included. */
  lemma MonkIsWorthItsBlock(cat: Catalog, b: Board, m: Meeple, pz: PlacedZone)
    requires ValidCatalog(cat) && WellPlaced(cat, b) && OnBoard(cat, b, pz) && m.Ref() == pz.Ref()
    ensures IsMonk(cat, b, m) <==> pz.def.kind == Monastery
    ensures MonkWorth(cat, b, m) == |Block(b, pz.tile.x, pz.tile.y)|
  {
    Resolves(cat, b, m.Ref(), pz);
    var x, y := pz.tile.x, pz.tile.y;
    TileByIdMeaning(cat, b, m.tile, pz.tile);
    CountIsBlock(cat, b, x, y);
    var others := set t | t in Block(b, x, y) && (t.x, t.y) != (x, y);
    forall t | t in Block(b, x, y) && (t.x, t.y) == (x, y)
      ensures t == pz.tile
    {
      TileAtMeaning(cat, b, x, y, t);
      TileAtMeaning(cat, b, x, y, pz.tile);
    }
    assert Block(b, x, y) == others + {pz.tile};
  }

  // ---------------------------------------------------------------- cities beside a field

  /** Segments of one tile that touch: next to each other along the border, or a side reached from the middle. */
  predicate Joined(s: Segment, t: Segment) {
    if s == Center then IsCenterOfSide(t) else t != s && t != Center && Near(PointOf(s), PointOf(t))
  }

  /** A zone of a city and a zone of a field on the same tile touch. */
  ghost predicate Touching(field: PlacedZone, city: PlacedZone) {
    field.tile == city.tile && exists s, t :: s in field.Segments() && t in city.Segments() && Joined(s, t)
  }

  lemma TouchesIsJoined(s: Segment, segments: seq<Segment>)
    ensures Touches(s, segments) <==> exists t :: t in segments && Joined(s, t)
  {
    forall t
      ensures t in AdjacentSegments(s) <==> Joined(s, t)
    {
      AdjacentIsNear(s, t);
    }
    if t :| t in segments && Joined(s, t) {
      var i :| 0 <= i < |segments| && segments[i] == t;
      assert segments[i] in AdjacentSegments(s);
    }
  }

  lemma BesideTouches(cat: Catalog, b: Board, u: FieldSegment, p: PlacedZone, q: PlacedZone)
    requires ValidCatalog(cat) && WellPlaced(cat, b) && OnBoard(cat, b, q) && BesideSegment(cat, b, u, p, q.Ref())
    ensures Touching(p, q)
  {
    var k :| 0 <= k < |cat[p.tile.tile].zones| && IsCityBeside(p.tile, cat[p.tile.tile].zones[k], u.segment) &&
             q.Ref() == ZoneRef(p.tile.instance, cat[p.tile.tile].zones[k].id);
    var c := PlacedZone(p.tile, cat[p.tile.tile].zones[k]);
    Resolves(cat, b, q.Ref(), q);
    Resolves(cat, b, q.Ref(), c);
    TouchesIsJoined(u.segment, c.Segments());
  }

  lemma TouchingIsBeside(cat: Catalog, b: Board, p: PlacedZone, q: PlacedZone)
    requires OnBoard(cat, b, p) && OnBoard(cat, b, q) && p.def.kind == Field && q.def.kind == City && Touching(p, q)
    ensures exists s :: BesideSegment(cat, b, SegmentOf(p, s), p, q.Ref())
  {
    var s, t :| s in p.Segments() && t in q.Segments() && Joined(s, t);
    TouchesIsJoined(s, q.Segments());
    var k :| 0 <= k < |cat[q.tile.tile].zones| && cat[q.tile.tile].zones[k] == q.def;
    assert IsCityBeside(p.tile, cat[p.tile.tile].zones[k], s);
    assert BesideSegment(cat, b, SegmentOf(p, s), p, q.Ref());
  }

  /** A city supplies a field if and only if one of its zones touches a zone of the field on the same tile. */
  lemma BesideIsTouching(cat: Catalog, b: Board, field: set<ZoneRef>, q: PlacedZone)
    requires ValidCatalog(cat) && WellPlaced(cat, b) && OnBoard(cat, b, q) && q.def.kind == City
    ensures q.Ref() in CitiesBeside(cat, b, field) <==>
            exists p :: OnBoard(cat, b, p) && p.def.kind == Field && p.Ref() in field && Touching(p, q)
  {
    Resolves(cat, b, q.Ref(), q);
    if q.Ref() in CitiesBeside(cat, b, field) {
      var u, p :| BesideSegment(cat, b, u, p, q.Ref()) && u.Zone() in field;
      BesideTouches(cat, b, u, p, q);
    }
    if p :| OnBoard(cat, b, p) && p.def.kind == Field && p.Ref() in field && Touching(p, q) {
      TouchingIsBeside(cat, b, p, q);
      var s :| BesideSegment(cat, b, SegmentOf(p, s), p, q.Ref());
      assert SegmentOf(p, s).Zone() in field;
    }
  }

  /** A field is worth three points for each of these cities that is complete, however often they meet. */
  lemma FieldIsWorth(cat: Catalog, b: Board, field: set<ZoneRef>)
    requires ValidCatalog(cat) && WellPlaced(cat, b)
    ensures FieldPoints(cat, b, field) ==
            3 * |set c | c in CitiesBeside(cat, b, field) && Closed(cat, b, c) :: Class(cat, b, c)|
  {
    forall c | c in CitiesBeside(cat, b, field)
      ensures ClosedCity(cat, b, c) <==> Closed(cat, b, c)
    {
      var u, p :| BesideSegment(cat, b, u, p, c) && u.Zone() in field;
      BesideIsCity(cat, b, u, p, c);
    }
    assert FieldCityClasses(cat, b, field) == set c | c in CitiesBeside(cat, b, field) && Closed(cat, b, c) ::
        Class(cat, b, c);
  }
}
