/** What placing one more tile can change: only features that the new tile joins. */
module Growth {
  import opened Tiles
  import opened Graphs
  import opened Topology

  ghost predicate Grows(cat: Catalog, b: Board, t: PlacedTile) {
    ValidCatalog(cat) && WellPlaced(cat, b) && WellPlaced(cat, b + [t])
  }

  lemma NewTileIsApart(cat: Catalog, b: Board, t: PlacedTile)
    requires Grows(cat, b, t)
    ensures forall n :: n in b ==> n.instance != t.instance && (n.x != t.x || n.y != t.y)
  {
    var c := b + [t];
    assert c[|b|] == t;
    forall n | n in b
      ensures n.instance != t.instance && (n.x != t.x || n.y != t.y)
    {
      var i :| 0 <= i < |b| && b[i] == n;
      assert c[i] == n;
    }
  }

  lemma TileAtKept(cat: Catalog, b: Board, t: PlacedTile, x: int, y: int)
    requires Grows(cat, b, t)
    ensures TileAt(b + [t], x, y) == if t.x == x && t.y == y then Some(t) else TileAt(b, x, y)
    ensures t.x == x && t.y == y ==> TileAt(b, x, y).None?
  {
    var c := b + [t];
    assert c[|b|] == t;
    NewTileIsApart(cat, b, t);
    TileAtNone(b, x, y);
    TileAtNone(c, x, y);
    if t.x == x && t.y == y {
      TileAtMeaning(cat, c, x, y, t);
    } else if n :| TileAt(b, x, y) == Some(n) {
      TileAtMeaning(cat, c, x, y, n);
    }
  }

  lemma LookupKept(cat: Catalog, b: Board, t: PlacedTile, ref: ZoneRef)
    requires Grows(cat, b, t) && ref in Zones(cat, b)
    ensures GetPlacedZone(cat, b + [t], ref) == GetPlacedZone(cat, b, ref)
    ensures KindOf(cat, b + [t], ref) == KindOf(cat, b, ref)
  {
    ResolvesIff(cat, b, ref);
    var pz := GetPlacedZone(cat, b, ref).value;
    Resolves(cat, b + [t], ref, pz);
  }

  lemma ZonesGrow(cat: Catalog, b: Board, t: PlacedTile)
    requires Grows(cat, b, t)
    ensures Zones(cat, b + [t]) == Zones(cat, b) + TileZones(cat, t)
    ensures Zones(cat, b) !! TileZones(cat, t)
  {
    var c := b + [t];
    assert c[..|b|] == b && c[|b|] == t;
    NewTileIsApart(cat, b, t);
    forall ref | ref in Zones(cat, b)
      ensures ref !in TileZones(cat, t)
    {
      ResolvesIff(cat, b, ref);
      assert GetPlacedZone(cat, b, ref).value.tile in b;
    }
  }

  /** A border crossing that does not lead onto the new tile leads where it led before. */
  lemma AcrossKept(cat: Catalog, b: Board, t: PlacedTile, from: PlacedTile, kind: Kind, s: Segment)
    requires Grows(cat, b, t)
    ensures var after := Across(cat, b + [t], from, kind, s);
            (after.Some? && after.value.tile == t) || after == Across(cat, b, from, kind, s)
  {
    if m :| BorderNeighbor(s) == Some(m) {
      TileAtKept(cat, b, t, from.x + m.dx, from.y + m.dy);
    }
  }

  lemma TileOfRef(cat: Catalog, b: Board, pz: PlacedZone, t: PlacedTile)
    requires WellPlaced(cat, b) && OnBoard(cat, b, pz) && t in b && pz.tile == t
    ensures pz.Ref() in TileZones(cat, t)
  {}

  /** Away from the new tile, neighbours and open edges are what they were. */
  lemma ZoneKept(cat: Catalog, b: Board, t: PlacedTile, ref: ZoneRef)
    requires Grows(cat, b, t) && ref in Zones(cat, b) && NeighborsOf(cat, b + [t], ref) !! TileZones(cat, t)
    ensures NeighborsOf(cat, b + [t], ref) == NeighborsOf(cat, b, ref)
    ensures OpenEdges(cat, b + [t], ref) == OpenEdges(cat, b, ref)
  {
    var c := b + [t];
    LookupKept(cat, b, t, ref);
    ResolvesIff(cat, b, ref);
    var pz := GetPlacedZone(cat, b, ref).value;
    forall s | s in pz.Segments()
      ensures Across(cat, c, pz.tile, pz.def.kind, s) == Across(cat, b, pz.tile, pz.def.kind, s)
    {
      AcrossKept(cat, b, t, pz.tile, pz.def.kind, s);
      var after := Across(cat, c, pz.tile, pz.def.kind, s);
      if after.Some? && after.value.tile == t {
        AcrossSound(cat, c, pz.tile, pz.def.kind, s);
        TileOfRef(cat, c, after.value, t);
        assert after.value.Ref() in NeighborsOf(cat, c, ref);
      }
    }
    SameOpen(cat, b, c, pz, pz.Segments());
  }

  lemma {:induction false} SameOpen(cat: Catalog, b: Board, c: Board, pz: PlacedZone, segments: seq<Segment>)
    requires forall s :: s in segments ==>
               Across(cat, c, pz.tile, pz.def.kind, s) == Across(cat, b, pz.tile, pz.def.kind, s)
    ensures OpenAmong(cat, c, pz, segments) == OpenAmong(cat, b, pz, segments)
  {
    if segments != [] {
      assert segments[|segments| - 1] in segments;
      SameOpen(cat, b, c, pz, segments[..|segments| - 1]);
    }
  }

  /** A feature of the larger board without a zone of the new tile was there before, with the same open edges. */
  lemma FeatureKept(cat: Catalog, b: Board, t: PlacedTile, ref: ZoneRef)
    requires Grows(cat, b, t) && ref in Zones(cat, b) && Class(cat, b + [t], ref) !! TileZones(cat, t)
    ensures Class(cat, b, ref) == Class(cat, b + [t], ref)
    ensures Closed(cat, b, ref) <==> Closed(cat, b + [t], ref)
  {
    var c := b + [t];
    ZonesGrow(cat, b, t);
    NeighborsSymmetric(cat, b);
    NeighborsSymmetric(cat, c);
    forall x | x in Class(cat, c, ref)
      ensures x in Zones(cat, b) && NeighborsOf(cat, c, x) == NeighborsOf(cat, b, x)
      ensures OpenEdges(cat, c, x) == OpenEdges(cat, b, x)
    {
      ComponentClosed(ZoneGraph(cat, c), ref, x);
      ZoneKept(cat, b, t, x);
    }
    ComponentFrame(ZoneGraph(cat, c), ZoneGraph(cat, b), ref);
  }
}
