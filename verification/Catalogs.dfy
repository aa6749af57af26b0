/** The tile catalog: the validator that every definition must pass, and the deck. */
module Catalogs {
  import opened Tiles
  import opened Sorting

  const BOUNDARY: seq<Segment> :=
    [TopLeft, TopCenter, TopRight, RightTop, RightCenter, RightBottom, BottomRight, BottomCenter, BottomLeft,
     LeftBottom, LeftCenter, LeftTop]

  function SideSegments(side: Side): seq<Segment> {
    match side
    case Top => [TopLeft, TopCenter, TopRight]
    case Right => [RightTop, RightCenter, RightBottom]
    case Bottom => [BottomRight, BottomCenter, BottomLeft]
    case Left => [LeftBottom, LeftCenter, LeftTop]
  }

  lemma BoundaryIsAllButCenter(s: Segment)
    ensures s in BOUNDARY <==> s != Center
  {
    assert BOUNDARY[0] == TopLeft && BOUNDARY[1] == TopCenter && BOUNDARY[2] == TopRight && BOUNDARY[3] == RightTop;
    assert BOUNDARY[4] == RightCenter && BOUNDARY[5] == RightBottom && BOUNDARY[6] == BottomRight &&
           BOUNDARY[7] == BottomCenter;
    assert BOUNDARY[8] == BottomLeft && BOUNDARY[9] == LeftBottom && BOUNDARY[10] == LeftCenter &&
           BOUNDARY[11] == LeftTop;
  }

  lemma SideSegmentsMeaning(side: Side, s: Segment)
    ensures s in SideSegments(side) <==> SideOf(s) == Some(side)
    ensures s == SideSegments(side)[1] <==> SideOf(s) == Some(side) && IsCenterOfSide(s)
  {
    assert SideSegments(side)[0] in SideSegments(side) && SideSegments(side)[1] in SideSegments(side) &&
           SideSegments(side)[2] in SideSegments(side);
  }

  // ---------------------------------------------------------------- zones

  /** The first n zones own exactly the recorded segments, each segment only once, with the recorded type. */
  ghost predicate Records(zones: seq<ZoneDef>, n: nat, types: map<Segment, Kind>)
    requires n <= |zones|
  {
    && (forall i, s :: 0 <= i < n && s in zones[i].segments ==> s in types && types[s] == zones[i].kind)
    && (forall s :: s in types ==> exists i :: 0 <= i < n && s in zones[i].segments)
  }

  ghost predicate Unused(segments: seq<Segment>, types: map<Segment, Kind>) {
    forall s :: s in segments ==> s !in types
  }

  /** r is types with all the segments recorded under one type. */
  ghost predicate Extended(types: map<Segment, Kind>, segments: seq<Segment>, kind: Kind, r: map<Segment, Kind>) {
    && (forall s :: s in r <==> s in types || s in segments)
    && (forall s :: s in r ==> r[s] == if s in segments then kind else types[s])
  }

  lemma ExtendedStep(types: map<Segment, Kind>, segments: seq<Segment>, kind: Kind, r: map<Segment, Kind>, s: Segment)
    requires Extended(types, segments, kind, r)
    ensures Extended(types, segments + [s], kind, r[s := kind])
  {}

  /** Records the segments of one zone, unless one of them repeats or is taken. */
  method UseSegments(z: ZoneDef, types: map<Segment, Kind>) returns (ok: bool, r: map<Segment, Kind>)
    ensures ok <==> NoTwice(z.segments) && Unused(z.segments, types)
    ensures ok ==> Extended(types, z.segments, z.kind, r)
  {
    r := types;
    for i := 0 to |z.segments|
      invariant NoTwice(z.segments[..i]) && Unused(z.segments[..i], types)
      invariant Extended(types, z.segments[..i], z.kind, r)
    {
      var s := z.segments[i];
      assert z.segments[..i + 1] == z.segments[..i] + [s];
      if s in r {
        TakenSegment(z.segments, i, types);
        return false, r;
      }
      ExtendedStep(types, z.segments[..i], z.kind, r, s);
      r := r[s := z.kind];
    }
    assert z.segments[..|z.segments|] == z.segments;
    ok := true;
  }

  lemma TakenSegment(segments: seq<Segment>, i: nat, types: map<Segment, Kind>)
    requires i < |segments| && (segments[i] in types || segments[i] in segments[..i])
    ensures !(NoTwice(segments) && Unused(segments, types))
  {
    assert segments[i] in segments;
    if segments[i] in segments[..i] {
      var k :| 0 <= k < i && segments[k] == segments[i];
    }
  }

  method HasBoundarySegment(z: ZoneDef) returns (r: bool)
    ensures r <==> exists s :: s in z.segments && s != Center
  {
    for i := 0 to |z.segments|
      invariant forall k :: 0 <= k < i ==> z.segments[k] == Center
    {
      if z.segments[i] != Center {
        assert z.segments[i] in z.segments;
        return true;
      }
    }
    return false;
  }

  ghost predicate FirstZonesValid(def: TileDef, n: nat)
    requires n <= |def.zones|
  {
    && (forall i :: 0 <= i < n ==> ValidZone(def.zones[i], def.edges))
    && (forall i, j :: 0 <= i < j < n ==> def.zones[i].id != def.zones[j].id)
    && (forall i, j, s :: 0 <= i < j < n && s in def.zones[i].segments ==> s !in def.zones[j].segments)
  }

  method ValidateZone(def: TileDef, i: nat, ids: set<Id>, types: map<Segment, Kind>)
    returns (ok: bool, types': map<Segment, Kind>)
    requires i < |def.zones| && FirstZonesValid(def, i) && Records(def.zones, i, types)
    requires ids == set k | 0 <= k < i :: def.zones[k].id
    ensures ok <==> FirstZonesValid(def, i + 1)
    ensures ok ==> Records(def.zones, i + 1, types')
  {
    var z := def.zones[i];
    types' := types;
    if z.id == "" || z.id in ids || z.segments == [] {
      return false, types;
    }
    ok, types' := UseSegments(z, types);
    if !ok {
      SegmentsClash(def, i, types);
      return;
    }
    var inside := HasBoundarySegment(z);
    ok := (z.hasPennant ==> z.kind == City) && (z.hasInn ==> z.kind == Road) &&
          (z.kind == Field && !inside ==> !HasFieldEdge(def.edges));
    NextZone(def, i, ids, types, types');
    assert ok <==> ValidZone(z, def.edges);
  }

  /** A zone with fresh segments and a fresh id extends the valid part exactly when it is valid itself. */
  lemma NextZone(def: TileDef, i: nat, ids: set<Id>, types: map<Segment, Kind>, types': map<Segment, Kind>)
    requires i < |def.zones| && FirstZonesValid(def, i) && Records(def.zones, i, types)
    requires ids == (set k | 0 <= k < i :: def.zones[k].id) && def.zones[i].id !in ids
    requires Unused(def.zones[i].segments, types) && Extended(types, def.zones[i].segments, def.zones[i].kind, types')
    ensures FirstZonesValid(def, i + 1) <==> ValidZone(def.zones[i], def.edges)
    ensures Records(def.zones, i + 1, types')
  {}

  lemma SegmentsClash(def: TileDef, i: nat, types: map<Segment, Kind>)
    requires i < |def.zones| && Records(def.zones, i, types)
    requires !(NoTwice(def.zones[i].segments) && Unused(def.zones[i].segments, types))
    ensures !FirstZonesValid(def, i + 1)
  {
    if !Unused(def.zones[i].segments, types) {
      var s :| s in def.zones[i].segments && s in types;
      var k :| 0 <= k < i && s in def.zones[k].segments;
    }
  }

  method ValidateZones(def: TileDef) returns (ok: bool, types: map<Segment, Kind>)
    ensures ok <==> FirstZonesValid(def, |def.zones|)
    ensures ok ==> Records(def.zones, |def.zones|, types)
  {
    types := map[];
    var ids: set<Id> := {};
    for i := 0 to |def.zones|
      invariant FirstZonesValid(def, i) && Records(def.zones, i, types)
      invariant ids == set k | 0 <= k < i :: def.zones[k].id
    {
      ok, types := ValidateZone(def, i, ids, types);
      if !ok {
        return;
      }
      ids := ids + {def.zones[i].id};
    }
    ok := true;
  }

  // ---------------------------------------------------------------- edges

  ghost predicate FitsAt(def: TileDef, types: map<Segment, Kind>, s: Segment)
    requires s != Center
  {
    s in types && SegmentFits(def.edges, s, types[s])
  }

  method AllBoundaryUsed(types: map<Segment, Kind>) returns (r: bool)
    ensures r <==> forall s :: s != Center ==> s in types
  {
    for i := 0 to |BOUNDARY|
      invariant forall k :: 0 <= k < i ==> BOUNDARY[k] in types
    {
      if BOUNDARY[i] !in types {
        BoundaryIsAllButCenter(BOUNDARY[i]);
        return false;
      }
    }
    forall s: Segment | s != Center
      ensures s in types
    {
      BoundaryIsAllButCenter(s);
    }
    return true;
  }

  method ValidateSide(def: TileDef, types: map<Segment, Kind>, side: Side) returns (r: bool)
    requires forall s :: s != Center ==> s in types
    ensures r <==> forall s :: SideOf(s) == Some(side) ==> FitsAt(def, types, s)
  {
    var segments := SideSegments(side);
    forall s: Segment
      ensures s in segments <==> SideOf(s) == Some(side)
      ensures s == segments[1] <==> SideOf(s) == Some(side) && IsCenterOfSide(s)
    {
      SideSegmentsMeaning(side, s);
    }
    assert segments[0] in segments && segments[1] in segments && segments[2] in segments;
    if def.edges.At(side) == Road {
      return types[segments[1]] == Road;
    }
    return types[segments[0]] == def.edges.At(side) && types[segments[1]] == def.edges.At(side) &&
           types[segments[2]] == def.edges.At(side);
  }

  method ValidateEdgeSegments(def: TileDef, types: map<Segment, Kind>) returns (r: bool)
    requires forall s :: s != Center ==> s in types
    ensures r <==> forall s :: s != Center ==> FitsAt(def, types, s)
  {
    var top := ValidateSide(def, types, Top);
    var right := ValidateSide(def, types, Right);
    var bottom := ValidateSide(def, types, Bottom);
    var left := ValidateSide(def, types, Left);
    r := top && right && bottom && left;
    forall s: Segment | s != Center
      ensures SideOf(s) in {Some(Top), Some(Right), Some(Bottom), Some(Left)}
    {}
  }

  lemma FitsIsValidAt(def: TileDef, types: map<Segment, Kind>, s: Segment)
    requires FirstZonesValid(def, |def.zones|) && Records(def.zones, |def.zones|, types) && s != Center
    ensures FitsAt(def, types, s) <==> ValidAt(def, s)
  {}

  // ---------------------------------------------------------------- definitions

  /** What a zone of an acceptable definition looks like: pennants are for cities and inns for roads, and where the tile
      has a field edge every field reaches the border. */
  ghost predicate ProperZone(def: TileDef, z: ZoneDef) {
    && z.id != "" && z.segments != [] && NoTwice(z.segments)
    && (z.hasPennant ==> z.kind == City) && (z.hasInn ==> z.kind == Road)
    && (z.kind == Field && (exists side: Side :: def.edges.At(side) == Field) ==>
          exists s :: s in z.segments && s != Center)
  }

  /** A segment of the border belongs to a zone of the kind of its edge; beside the middle of a road edge anything may
      lie. */
  ghost predicate ProperSegment(def: TileDef, s: Segment, side: Side) {
    exists z :: z in def.zones && s in z.segments &&
                (z.kind == def.edges.At(side) || (def.edges.At(side) == Road && !IsCenterOfSide(s)))
  }

  lemma FieldEdge(e: Edges)
    ensures HasFieldEdge(e) <==> exists side: Side :: e.At(side) == Field
  {
    assert e.At(Top) == e.top && e.At(Right) == e.right && e.At(Bottom) == e.bottom && e.At(Left) == e.left;
  }

  lemma ProperAt(def: TileDef, s: Segment, side: Side)
    requires SideOf(s) == Some(side)
    ensures ValidAt(def, s) <==> ProperSegment(def, s, side)
  {
    if ProperSegment(def, s, side) {
      var z :| z in def.zones && s in z.segments &&
               (z.kind == def.edges.At(side) || (def.edges.At(side) == Road && !IsCenterOfSide(s)));
      var i :| 0 <= i < |def.zones| && def.zones[i] == z;
      assert SegmentFits(def.edges, s, def.zones[i].kind);
    }
  }

  lemma BorderMeans(def: TileDef)
    ensures (forall s :: s != Center ==> ValidAt(def, s)) <==>
            forall s, side :: SideOf(s) == Some(side) ==> ProperSegment(def, s, side)
  {
    forall s, side | SideOf(s) == Some(side)
      ensures s != Center && (ValidAt(def, s) <==> ProperSegment(def, s, side))
    {
      ProperAt(def, s, side);
    }
    if forall s, side :: SideOf(s) == Some(side) ==> ProperSegment(def, s, side) {
      forall s: Segment | s != Center
        ensures ValidAt(def, s)
      {
        assert ProperSegment(def, s, SideOf(s).value);
        ProperAt(def, s, SideOf(s).value);
      }
    }
  }

  lemma ZonesMean(def: TileDef)
    ensures (forall i :: 0 <= i < |def.zones| ==> ValidZone(def.zones[i], def.edges)) <==>
            forall z :: z in def.zones ==> ProperZone(def, z)
  {
    FieldEdge(def.edges);
    forall z | z in def.zones
      ensures ValidZone(z, def.edges) <==> ProperZone(def, z)
    {
      FieldEdge(def.edges);
    }
  }

  /** A definition is acceptable if and only if its zones are proper, no two share a name or a segment, and they cover
      the border as its edges say. */
  lemma ValidMeans(def: TileDef)
    ensures ValidDef(def) <==>
            && def.id != "" && def.imageKey != "" && 0 <= def.count && def.zones != []
            && (forall z :: z in def.zones ==> ProperZone(def, z))
            && (forall i, j :: 0 <= i < j < |def.zones| ==> def.zones[i].id != def.zones[j].id)
            && (forall i, j, s :: 0 <= i < j < |def.zones| && s in def.zones[i].segments ==>
                  s !in def.zones[j].segments)
            && (forall s, side :: SideOf(s) == Some(side) ==> ProperSegment(def, s, side))
  {
    BorderMeans(def);
    ZonesMean(def);
  }

  /** Accepts a definition exactly when it meets every condition the geometry rests on. */
  method ValidateDefinition(def: TileDef) returns (ok: bool)
    ensures ok <==> ValidDef(def)
  {
    if def.id == "" || def.imageKey == "" || def.count < 0 || def.zones == [] {
      return false;
    }
    var types;
    ok, types := ValidateZones(def);
    if !ok {
      return;
    }
    forall s: Segment | s != Center
      ensures FitsAt(def, types, s) <==> ValidAt(def, s)
    {
      FitsIsValidAt(def, types, s);
    }
    var used := AllBoundaryUsed(types);
    if !used {
      var s :| s != Center && s !in types;
      assert !FitsAt(def, types, s);
      return false;
    }
    ok := ValidateEdgeSegments(def, types);
  }

  ghost predicate FirstDefsValid(defs: seq<TileDef>, n: nat)
    requires n <= |defs|
  {
    && (forall i :: 0 <= i < n ==> ValidDef(defs[i]) && (defs[i].id == START_TILE_ID ==> defs[i].count == 0))
    && (forall i, j :: 0 <= i < j < n ==> defs[i].id != defs[j].id)
  }

  method ValidateTileDefinitions(defs: seq<TileDef>) returns (ok: bool)
    ensures ok <==> FirstDefsValid(defs, |defs|) && exists d :: d in defs && d.id == START_TILE_ID
  {
    var seen: set<Id> := {};
    for i := 0 to |defs|
      invariant FirstDefsValid(defs, i) && seen == set k | 0 <= k < i :: defs[k].id
    {
      if defs[i].id in seen {
        return false;
      }
      ok := ValidateDefinition(defs[i]);
      if !ok || (defs[i].id == START_TILE_ID && defs[i].count != 0) {
        return false;
      }
      seen := seen + {defs[i].id};
    }
    ok := START_TILE_ID in seen;
    if ok {
      var k :| 0 <= k < |defs| && defs[k].id == START_TILE_ID;
      assert defs[k] in defs;
    }
  }

  /** Validated definitions make a catalog on which every result about boards and features can rely. */
  method BuildCatalog(defs: seq<TileDef>) returns (cat: Catalog)
    requires FirstDefsValid(defs, |defs|) && exists d :: d in defs && d.id == START_TILE_ID
    ensures ValidCatalog(cat) && forall d :: d in defs ==> d.id in cat && cat[d.id] == d
  {
    cat := map[];
    for i := 0 to |defs|
      invariant forall k :: 0 <= k < i ==> defs[k].id in cat && cat[defs[k].id] == defs[k]
      invariant forall id :: id in cat ==> exists k :: 0 <= k < i && defs[k].id == id && cat[id] == defs[k]
    {
      cat := cat[defs[i].id := defs[i]];
    }
  }

  // ---------------------------------------------------------------- the deck

  function Copies(deck: seq<Id>, id: Id): nat {
    multiset(deck)[id]
  }

  function CopiesIn(defs: seq<TileDef>, id: Id): int {
    if defs == [] then 0
    else CopiesIn(defs[..|defs| - 1], id)
         + (var d := defs[|defs| - 1]; if d.id == id && id != START_TILE_ID then d.count else 0)
  }

  /** The deck holds each definition as often as its count says; the start tile never. */
  method AppendDefinitions(deck: seq<Id>, defs: seq<TileDef>) returns (r: seq<Id>)
    requires forall d :: d in defs ==> 0 <= d.count
    ensures forall id :: Copies(r, id) == Copies(deck, id) + CopiesIn(defs, id)
  {
    r := deck;
    for i := 0 to |defs|
      invariant forall id :: Copies(r, id) == Copies(deck, id) + CopiesIn(defs[..i], id)
    {
      assert defs[..i + 1][..i] == defs[..i];
      assert defs[i] in defs;
      if defs[i].id != START_TILE_ID {
        r := AppendCopies(r, defs[i].id, defs[i].count);
      }
    }
    assert defs[..|defs|] == defs;
  }

  method AppendCopies(deck: seq<Id>, id: Id, count: nat) returns (r: seq<Id>)
    ensures forall x :: Copies(r, x) == Copies(deck, x) + (if x == id then count else 0)
  {
    r := deck;
    for k := 0 to count
      invariant forall x :: Copies(r, x) == Copies(deck, x) + (if x == id then k else 0)
    {
      r := r + [id];
    }
  }
}
