/** Closed cities and the fields that touch them; a city is identified by its least zone reference. */
module FieldCities {
  import opened Tiles
  import opened Graphs
  import opened Topology
  import opened FeatureGraph
  import opened Sorting
  import opened FieldGraphs

  // ---------------------------------------------------------------- order on references

  function StringLess(a: string, b: string): bool {
    b != "" && (a == "" || a[0] < b[0] || (a[0] == b[0] && StringLess(a[1..], b[1..])))
  }

  lemma {:induction false} StringOrder(a: string, b: string)
    ensures StringLess(a, b) ==> !StringLess(b, a) && a != b
    ensures !StringLess(a, b) && !StringLess(b, a) ==> a == b
  {
    if a != "" && b != "" {
      StringOrder(a[1..], b[1..]);
      assert a == [a[0]] + a[1..] && b == [b[0]] + b[1..];
    }
  }

  /** The order of the dictionary: a proper prefix comes first, otherwise the first character that differs decides. */
  lemma {:induction false} DictionaryOrder(a: string, b: string)
    ensures StringLess(a, b) <==> exists i :: 0 <= i <= |a| && i < |b| && a[..i] == b[..i] && (i == |a| || a[i] < b[i])
  {
    if a != "" && b != "" && a[0] == b[0] {
      DictionaryOrder(a[1..], b[1..]);
      if i :| 0 <= i <= |a[1..]| && i < |b[1..]| && a[1..][..i] == b[1..][..i] &&
              (i == |a[1..]| || a[1..][i] < b[1..][i]) {
        assert a[..i + 1] == [a[0]] + a[1..][..i] && b[..i + 1] == [b[0]] + b[1..][..i];
      }
      if j :| 0 <= j <= |a| && j < |b| && a[..j] == b[..j] && (j == |a| || a[j] < b[j]) {
        assert j > 0;
        assert a[1..][..j - 1] == a[..j][1..] && b[1..][..j - 1] == b[..j][1..];
      }
    } else if a != "" && b != "" {
      forall j | 0 < j <= |a| && j < |b|
        ensures a[..j] != b[..j]
      {
        assert a[..j][0] != b[..j][0];
      }
      if a[0] < b[0] { assert a[..0] == b[..0]; }
    } else if b != "" {
      assert a[..0] == b[..0];
    }
  }

  lemma {:induction false} StringTransitive(a: string, b: string, c: string)
    requires StringLess(a, b) && StringLess(b, c)
    ensures StringLess(a, c)
  {
    if a != "" && a[0] == b[0] && b[0] == c[0] {
      StringTransitive(a[1..], b[1..], c[1..]);
    }
  }

  function RefLess(a: ZoneRef, b: ZoneRef): bool {
    if a.tile != b.tile then StringLess(a.tile, b.tile) else StringLess(a.zone, b.zone)
  }

  lemma RefOrder(a: ZoneRef, b: ZoneRef)
    ensures RefLess(a, b) ==> !RefLess(b, a) && a != b
    ensures !RefLess(a, b) && !RefLess(b, a) ==> a == b
  {
    StringOrder(a.tile, b.tile);
    StringOrder(a.zone, b.zone);
  }

  lemma RefTransitive(a: ZoneRef, b: ZoneRef, c: ZoneRef)
    requires RefLess(a, b) && RefLess(b, c)
    ensures RefLess(a, c)
  {
    StringOrder(a.tile, b.tile);
    StringOrder(b.tile, c.tile);
    if a.tile != b.tile && b.tile != c.tile {
      StringTransitive(a.tile, b.tile, c.tile);
      StringOrder(a.tile, c.tile);
    } else if a.tile == b.tile && b.tile == c.tile {
      StringTransitive(a.zone, b.zone, c.zone);
    }
  }

  ghost predicate IsLeast(r: ZoneRef, zones: set<ZoneRef>) {
    r in zones && forall z :: z in zones ==> z == r || RefLess(r, z)
  }

  lemma LeastUnique(r: ZoneRef, s: ZoneRef, zones: set<ZoneRef>)
    requires IsLeast(r, zones) && IsLeast(s, zones)
    ensures r == s
  {
    RefOrder(r, s);
  }

  /** The reference that identifies a feature, whatever order its zones were found in. */
  method CanonicalRef(zones: seq<ZoneRef>, ghost members: set<ZoneRef>) returns (r: ZoneRef)
    requires zones != [] && Lists(zones, members)
    ensures IsLeast(r, members)
  {
    r := zones[0];
    for i := 1 to |zones|
      invariant r in zones
      invariant forall k :: 0 <= k < i ==> zones[k] == r || RefLess(r, zones[k])
    {
      RefOrder(r, zones[i]);
      if RefLess(zones[i], r) {
        forall k | 0 <= k < i
          ensures zones[k] == zones[i] || RefLess(zones[i], zones[k])
        {
          if zones[k] != r { RefTransitive(zones[i], r, zones[k]); }
        }
        r := zones[i];
      }
    }
    forall z | z in members
      ensures z == r || RefLess(r, z)
    {
      assert z in zones;
    }
  }

  /** Two occupied features have the same canonical reference only when they are the same feature. */
  lemma CanonicalIdentifies(cat: Catalog, b: Board, u: ZoneRef, v: ZoneRef, r: ZoneRef, s: ZoneRef)
    requires ValidCatalog(cat) && WellPlaced(cat, b) && u in Zones(cat, b) && v in Zones(cat, b)
    requires IsLeast(r, Class(cat, b, u)) && IsLeast(s, Class(cat, b, v))
    ensures r == s <==> Class(cat, b, u) == Class(cat, b, v)
  {
    NeighborsSymmetric(cat, b);
    if r == s {
      Partition(ZoneGraph(cat, b), u, v);
    } else if Class(cat, b, u) == Class(cat, b, v) {
      LeastUnique(r, s, Class(cat, b, u));
    }
  }

  // ---------------------------------------------------------------- closed cities

  ghost predicate ClosedCity(cat: Catalog, b: Board, z: ZoneRef) {
    z in Zones(cat, b) && KindOf(cat, b, z) == Some(City) && Closed(cat, b, z)
  }

  /** The classes of the closed cities among some zones. */
  ghost function ClosedCityClasses(cat: Catalog, b: Board, zones: set<ZoneRef>): set<set<ZoneRef>> {
    set z | z in zones && ClosedCity(cat, b, z) :: Class(cat, b, z)
  }

  ghost predicate Stands(r: ZoneRef, classes: set<set<ZoneRef>>) {
    exists k :: k in classes && IsLeast(r, k)
  }

  ghost predicate StoodFor(refs: set<ZoneRef>, k: set<ZoneRef>) {
    exists r :: r in refs && IsLeast(r, k)
  }

  /** refs holds the canonical reference of each class, one for one. */
  ghost predicate Represents(refs: set<ZoneRef>, classes: set<set<ZoneRef>>) {
    && |refs| == |classes|
    && (forall r {:trigger Stands(r, classes)} :: r in refs ==> Stands(r, classes))
    && (forall k {:trigger StoodFor(refs, k)} :: k in classes ==> StoodFor(refs, k))
  }

  ghost predicate IsClass(cat: Catalog, b: Board, k: set<ZoneRef>) {
    exists z :: z in Zones(cat, b) && k == Class(cat, b, z)
  }

  ghost predicate AreClasses(cat: Catalog, b: Board, classes: set<set<ZoneRef>>) {
    forall k {:trigger IsClass(cat, b, k)} :: k in classes ==> IsClass(cat, b, k)
  }

  lemma KnownClass(cat: Catalog, b: Board, refs: set<ZoneRef>, classes: set<set<ZoneRef>>, z: ZoneRef, r: ZoneRef)
    requires ValidCatalog(cat) && WellPlaced(cat, b) && z in Zones(cat, b)
    requires Represents(refs, classes) && AreClasses(cat, b, classes) && IsLeast(r, Class(cat, b, z))
    ensures r in refs <==> Class(cat, b, z) in classes
  {
    var k := Class(cat, b, z);
    if r in refs {
      assert Stands(r, classes);
      var j :| j in classes && IsLeast(r, j);
      assert IsClass(cat, b, j);
      var y :| y in Zones(cat, b) && j == Class(cat, b, y);
      CanonicalIdentifies(cat, b, y, z, r, r);
    }
    if k in classes {
      assert StoodFor(refs, k);
      var s :| s in refs && IsLeast(s, k);
      LeastUnique(r, s, k);
    }
  }

  lemma RepresentsStep(cat: Catalog, b: Board, refs: set<ZoneRef>, classes: set<set<ZoneRef>>, z: ZoneRef, r: ZoneRef)
    requires ValidCatalog(cat) && WellPlaced(cat, b) && z in Zones(cat, b)
    requires Represents(refs, classes) && AreClasses(cat, b, classes) && IsLeast(r, Class(cat, b, z))
    ensures Represents(refs + {r}, classes + {Class(cat, b, z)}) && AreClasses(cat, b, classes + {Class(cat, b, z)})
  {
    var k := Class(cat, b, z);
    KnownClass(cat, b, refs, classes, z, r);
    GrowRepresentation(refs, classes, k, r);
    forall j | j in classes + {k}
      ensures IsClass(cat, b, j)
    {
      assert j in classes ==> IsClass(cat, b, j);
    }
  }

  lemma GrowRepresentation(refs: set<ZoneRef>, classes: set<set<ZoneRef>>, k: set<ZoneRef>, r: ZoneRef)
    requires Represents(refs, classes) && IsLeast(r, k) && (r in refs <==> k in classes)
    ensures Represents(refs + {r}, classes + {k})
  {
    if r in refs {
      assert refs + {r} == refs && classes + {k} == classes;
    } else {
      forall s | s in refs + {r}
        ensures Stands(s, classes + {k})
      {
        if s in refs {
          assert Stands(s, classes);
          var j :| j in classes && IsLeast(s, j);
          assert j in classes + {k};
        } else {
          assert k in classes + {k};
        }
      }
      forall j | j in classes + {k}
        ensures StoodFor(refs + {r}, j)
      {
        if j in classes {
          assert StoodFor(refs, j);
        }
      }
    }
  }

  /** The canonical reference of the city is in the set exactly when the city is closed. */
  ghost predicate CityKnown(cat: Catalog, b: Board, completed: set<ZoneRef>, z: ZoneRef) {
    forall r :: IsLeast(r, Class(cat, b, z)) ==> (r in completed <==> Closed(cat, b, z))
  }

  ghost predicate CompletedKnown(cat: Catalog, b: Board, completed: set<ZoneRef>) {
    forall z {:trigger CityKnown(cat, b, completed, z)} :: z in Zones(cat, b) && KindOf(cat, b, z) == Some(City) ==>
        CityKnown(cat, b, completed, z)
  }

  /** Collects the canonical references of all closed cities on the board. */
  method CollectCompletedCities(cat: Catalog, b: Board) returns (completed: set<ZoneRef>)
    requires ValidCatalog(cat) && WellPlaced(cat, b)
    ensures CompletedKnown(cat, b, completed)
  {
    var visited: set<ZoneRef>;
    visited, completed := {}, {};
    for i := 0 to |b|
      invariant CityScan(cat, b, visited, completed)
      invariant forall z :: z in Zones(cat, b[..i]) && KindOf(cat, b, z) == Some(City) ==> z in visited
    {
      ghost var before := visited;
      visited, completed := ScanTile(cat, b, i, visited, completed);
      ScannedTile(cat, b, i, visited);
    }
    assert b[..|b|] == b;
    forall z | z in Zones(cat, b) && KindOf(cat, b, z) == Some(City)
      ensures CityKnown(cat, b, completed, z)
    {
      forall r | IsLeast(r, Class(cat, b, z))
        ensures r in completed <==> Closed(cat, b, z)
      {
        CityScanned(cat, b, visited, completed, z, r);
      }
    }
  }

  /** The class of z is visited, and its canonical reference is recorded if it is closed. */
  ghost predicate Recorded(cat: Catalog, b: Board, visited: set<ZoneRef>, completed: set<ZoneRef>, z: ZoneRef) {
    && Class(cat, b, z) <= visited
    && (Closed(cat, b, z) ==> forall r :: IsLeast(r, Class(cat, b, z)) ==> r in completed)
  }

  ghost predicate Justified(cat: Catalog, b: Board, visited: set<ZoneRef>, r: ZoneRef) {
    exists z :: z in visited && Closed(cat, b, z) && IsLeast(r, Class(cat, b, z))
  }

  /** The visited zones are whole classes, and completed holds the canonical references of the closed ones. */
  ghost predicate CityScan(cat: Catalog, b: Board, visited: set<ZoneRef>, completed: set<ZoneRef>) {
    && visited <= Zones(cat, b)
    && (forall z {:trigger Recorded(cat, b, visited, completed, z)} :: z in visited ==>
        Recorded(cat, b, visited, completed, z))
    && (forall r {:trigger Justified(cat, b, visited, r)} :: r in completed ==> Justified(cat, b, visited, r))
  }

  lemma CityScanned(cat: Catalog, b: Board, visited: set<ZoneRef>, completed: set<ZoneRef>, z: ZoneRef, r: ZoneRef)
    requires ValidCatalog(cat) && WellPlaced(cat, b) && CityScan(cat, b, visited, completed) && z in visited
    requires IsLeast(r, Class(cat, b, z))
    ensures r in completed <==> Closed(cat, b, z)
  {
    assert Recorded(cat, b, visited, completed, z);
    if r in completed {
      assert Justified(cat, b, visited, r);
      var y :| y in visited && Closed(cat, b, y) && IsLeast(r, Class(cat, b, y));
      CanonicalIdentifies(cat, b, y, z, r, r);
    }
  }

  lemma ScannedTile(cat: Catalog, b: Board, i: nat, visited: set<ZoneRef>)
    requires ValidCatalog(cat) && WellPlaced(cat, b) && i < |b|
    requires forall z :: z in Zones(cat, b[..i]) && KindOf(cat, b, z) == Some(City) ==> z in visited
    requires var zones := cat[b[i].tile].zones;
             forall j :: 0 <= j < |zones| && zones[j].kind == City ==> ZoneRef(b[i].instance, zones[j].id) in visited
    ensures forall z :: z in Zones(cat, b[..i + 1]) && KindOf(cat, b, z) == Some(City) ==> z in visited
  {
    assert b[..i + 1][..i] == b[..i];
    forall z | z in TileZones(cat, b[i]) && KindOf(cat, b, z) == Some(City)
      ensures z in visited
    {
      var d :| d in cat[b[i].tile].zones && ZoneRef(b[i].instance, d.id) == z;
      Resolves(cat, b, z, PlacedZone(b[i], d));
    }
  }

  method ScanTile(cat: Catalog, b: Board, i: nat, visited: set<ZoneRef>, completed: set<ZoneRef>)
    returns (visited': set<ZoneRef>, completed': set<ZoneRef>)
    requires ValidCatalog(cat) && WellPlaced(cat, b) && i < |b| && CityScan(cat, b, visited, completed)
    ensures CityScan(cat, b, visited', completed') && visited <= visited'
    ensures var zones := cat[b[i].tile].zones;
            forall j :: 0 <= j < |zones| && zones[j].kind == City ==> ZoneRef(b[i].instance, zones[j].id) in visited'
  {
    var zones := cat[b[i].tile].zones;
    visited', completed' := visited, completed;
    for k := 0 to |zones|
      invariant CityScan(cat, b, visited', completed') && visited <= visited'
      invariant forall j :: 0 <= j < k && zones[j].kind == City ==> ZoneRef(b[i].instance, zones[j].id) in visited'
    {
      if zones[k].kind == City {
        var start := ZoneRef(b[i].instance, zones[k].id);
        if start !in visited' {
          visited', completed' := ScanCity(cat, b, PlacedZone(b[i], zones[k]), visited', completed');
        }
      }
    }
  }

  method ScanCity(cat: Catalog, b: Board, pz: PlacedZone, visited: set<ZoneRef>, completed: set<ZoneRef>)
    returns (visited': set<ZoneRef>, completed': set<ZoneRef>)
    requires ValidCatalog(cat) && WellPlaced(cat, b) && OnBoard(cat, b, pz) && pz.Ref() !in visited
    requires CityScan(cat, b, visited, completed)
    ensures CityScan(cat, b, visited', completed') && visited <= visited' && pz.Ref() in visited'
  {
    var start := pz.Ref();
    Resolves(cat, b, start, pz);
    var found := BuildFeature(cat, b, [], start);
    var f := found.value;
    ghost var members := Class(cat, b, start);
    Reflexive(ZoneGraph(cat, b), start);
    NoOpenEdgesIsClosed(cat, b, [], start, f);
    assert start in f.zones;
    var r := CanonicalRef(f.zones, members);
    visited' := visited + (set z | z in f.zones);
    assert (set z | z in f.zones) == members;
    completed' := if f.openEdges == 0 then completed + {r} else completed;
    CityScanStep(cat, b, visited, completed, start, r);
  }

  lemma CityScanStep(cat: Catalog, b: Board, visited: set<ZoneRef>, completed: set<ZoneRef>, start: ZoneRef, r: ZoneRef)
    requires ValidCatalog(cat) && WellPlaced(cat, b) && CityScan(cat, b, visited, completed)
    requires start in Zones(cat, b) && IsLeast(r, Class(cat, b, start))
    ensures CityScan(cat, b, visited + Class(cat, b, start),
                     if Closed(cat, b, start) then completed + {r} else completed)
  {
    var members := Class(cat, b, start);
    var visited', completed' := visited + members, if Closed(cat, b, start) then completed + {r} else completed;
    NeighborsSymmetric(cat, b);
    Reflexive(ZoneGraph(cat, b), start);
    forall s | s in completed'
      ensures Justified(cat, b, visited', s)
    {
      if s in completed {
        assert Justified(cat, b, visited, s);
        var z :| z in visited && Closed(cat, b, z) && IsLeast(s, Class(cat, b, z));
        assert z in visited';
      } else {
        assert start in visited';
      }
    }
    forall z | z in visited'
      ensures Recorded(cat, b, visited', completed', z)
    {
      if z in members {
        SameComponent(ZoneGraph(cat, b), start, z);
        forall s | IsLeast(s, members)
          ensures s == r
        {
          LeastUnique(r, s, members);
        }
      } else {
        assert Recorded(cat, b, visited, completed, z);
      }
    }
  }

  // ---------------------------------------------------------------- cities beside a field

  predicate IsCityBeside(t: PlacedTile, z: ZoneDef, s: Segment) {
    z.kind == City && Touches(s, RotateSegments(z.segments, t.rotation))
  }

  /** c is a city zone on the same tile as a segment of the field, next to that segment. */
  ghost predicate BesideSegment(cat: Catalog, b: Board, u: FieldSegment, pz: PlacedZone, c: ZoneRef) {
    && IsSegment(cat, b, u, pz)
    && exists k :: 0 <= k < |cat[pz.tile.tile].zones| && IsCityBeside(pz.tile, cat[pz.tile.tile].zones[k], u.segment)
         && c == ZoneRef(pz.tile.instance, cat[pz.tile.tile].zones[k].id)
  }

  ghost predicate BesideField(cat: Catalog, b: Board, field: set<ZoneRef>, c: ZoneRef) {
    exists u, pz :: BesideSegment(cat, b, u, pz, c) && u.Zone() in field
  }

  /** The closed cities a field supplies, as classes. */
  ghost function FieldCityClasses(cat: Catalog, b: Board, field: set<ZoneRef>): set<set<ZoneRef>> {
    ClosedCityClasses(cat, b, CitiesBeside(cat, b, field))
  }

  /** Three points for every closed city beside the field. */
  ghost function FieldPoints(cat: Catalog, b: Board, field: set<ZoneRef>): nat {
    3 * |FieldCityClasses(cat, b, field)|
  }

  /** c is one of the first n city zones of the tile next to the segment. */
  ghost predicate CityAmong(t: PlacedTile, zones: seq<ZoneDef>, n: nat, s: Segment, c: ZoneRef)
    requires n <= |zones|
  {
    exists k :: 0 <= k < n && IsCityBeside(t, zones[k], s) && c == ZoneRef(t.instance, zones[k].id)
  }

  lemma CityAmongStep(t: PlacedTile, zones: seq<ZoneDef>, n: nat, s: Segment)
    requires n < |zones|
    ensures forall c {:trigger CityAmong(t, zones, n + 1, s, c)} :: CityAmong(t, zones, n + 1, s, c) <==>
              CityAmong(t, zones, n, s, c) || (IsCityBeside(t, zones[n], s) && c == ZoneRef(t.instance, zones[n].id))
  {}

  /** The city zones of the tile next to one of its field segments. */
  method AdjacentCities(cat: Catalog, b: Board, u: FieldSegment, pz: PlacedZone) returns (r: seq<ZoneRef>)
    requires ValidCatalog(cat) && WellPlaced(cat, b) && IsSegment(cat, b, u, pz)
    ensures forall c :: c in r <==> BesideSegment(cat, b, u, pz, c)
    ensures forall c :: c in r ==> c in Zones(cat, b) && KindOf(cat, b, c) == Some(City)
  {
    r := NextCities(pz.tile, cat[pz.tile.tile].zones, u.segment);
    forall c
      ensures c in r <==> BesideSegment(cat, b, u, pz, c)
      ensures c in r ==> c in Zones(cat, b) && KindOf(cat, b, c) == Some(City)
    {
      BesideIsCity(cat, b, u, pz, c);
    }
  }

  method NextCities(t: PlacedTile, zones: seq<ZoneDef>, s: Segment) returns (r: seq<ZoneRef>)
    ensures forall c :: c in r <==> CityAmong(t, zones, |zones|, s, c)
  {
    r := [];
    for i := 0 to |zones|
      invariant forall c :: c in r <==> CityAmong(t, zones, i, s, c)
    {
      CityAmongStep(t, zones, i, s);
      if IsCityBeside(t, zones[i], s) {
        r := r + [ZoneRef(t.instance, zones[i].id)];
      }
    }
  }

  lemma BesideIsCity(cat: Catalog, b: Board, u: FieldSegment, pz: PlacedZone, c: ZoneRef)
    requires ValidCatalog(cat) && WellPlaced(cat, b) && IsSegment(cat, b, u, pz)
    ensures BesideSegment(cat, b, u, pz, c) <==>
              CityAmong(pz.tile, cat[pz.tile.tile].zones, |cat[pz.tile.tile].zones|, u.segment, c)
    ensures BesideSegment(cat, b, u, pz, c) ==> c in Zones(cat, b) && KindOf(cat, b, c) == Some(City)
  {
    var zones := cat[pz.tile.tile].zones;
    if BesideSegment(cat, b, u, pz, c) {
      var k :| 0 <= k < |zones| && IsCityBeside(pz.tile, zones[k], u.segment) &&
               c == ZoneRef(pz.tile.instance, zones[k].id);
      Resolves(cat, b, c, PlacedZone(pz.tile, zones[k]));
    }
  }

  /** One city zone beside the field is accounted for. */
  lemma ClassesStep(cat: Catalog, b: Board, zones: set<ZoneRef>, c: ZoneRef)
    ensures ClosedCityClasses(cat, b, zones + {c}) ==
            if ClosedCity(cat, b, c) then ClosedCityClasses(cat, b, zones) + {Class(cat, b, c)}
            else ClosedCityClasses(cat, b, zones)
  {
    var after := ClosedCityClasses(cat, b, zones + {c});
    forall k
      ensures k in after <==> k in ClosedCityClasses(cat, b, zones) || (ClosedCity(cat, b, c) && k == Class(cat, b, c))
    {
      if ClosedCity(cat, b, c) && k == Class(cat, b, c) { assert c in zones + {c}; }
      if z :| z in zones && ClosedCity(cat, b, z) && k == Class(cat, b, z) { assert z in zones + {c}; }
    }
  }

  /** The feature of a city whose canonical reference is r. */
  ghost predicate IsCityAt(cat: Catalog, b: Board, r: ZoneRef, f: Feature) {
    f.kind == City && f.openEdges == 0 && NoTwice(f.zones) && exists z ::
      z in Zones(cat, b) && KindOf(cat, b, z) == Some(City) && Closed(cat, b, z) && Lists(f.zones, Class(cat, b, z)) &&
      IsLeast(r, Class(cat, b, z))
  }

  /** seen stands one for one for the closed city classes among the zones processed so far. */
  ghost predicate Counting(cat: Catalog, b: Board, seen: set<ZoneRef>, processed: set<ZoneRef>) {
    var classes := ClosedCityClasses(cat, b, processed);
    Represents(seen, classes) && AreClasses(cat, b, classes)
  }

  ghost predicate AreCities(cat: Catalog, b: Board, seen: map<ZoneRef, Feature>) {
    forall r {:trigger seen[r]} :: r in seen ==> IsCityAt(cat, b, r, seen[r])
  }

  lemma OneMoreCity(cat: Catalog, b: Board, seen: map<ZoneRef, Feature>, r: ZoneRef, f: Feature)
    requires AreCities(cat, b, seen) && IsCityAt(cat, b, r, f)
    ensures AreCities(cat, b, seen[r := f])
  {}

  lemma CityFound(cat: Catalog, b: Board, c: ZoneRef, f: Feature, r: ZoneRef)
    requires ValidCatalog(cat) && WellPlaced(cat, b) && c in Zones(cat, b) && KindOf(cat, b, c) == Some(City)
    requires IsFeature(cat, b, [], c, f) && IsLeast(r, Class(cat, b, c)) && Closed(cat, b, c)
    ensures IsCityAt(cat, b, r, f)
  {
    NoOpenEdgesIsClosed(cat, b, [], c, f);
  }

  method CountCity(cat: Catalog, b: Board, completed: set<ZoneRef>, seen: map<ZoneRef, Feature>,
                   ghost processed: set<ZoneRef>, c: ZoneRef)
    returns (seen': map<ZoneRef, Feature>)
    requires ValidCatalog(cat) && WellPlaced(cat, b) && c in Zones(cat, b) && KindOf(cat, b, c) == Some(City)
    requires CompletedKnown(cat, b, completed)
    requires Counting(cat, b, seen.Keys, processed) && AreCities(cat, b, seen)
    ensures Counting(cat, b, seen'.Keys, processed + {c}) && AreCities(cat, b, seen')
  {
    var closed, r, f := FindCity(cat, b, completed, c);
    if closed {
      ClosedCityCounted(cat, b, seen, processed, c, r, f);
      OneMoreCity(cat, b, seen, r, f);
      seen' := seen[r := f];
    } else {
      OpenCityCounted(cat, b, seen.Keys, processed, c);
      seen' := seen;
    }
  }

  /** The feature of a city zone, its canonical reference, and whether it is known to be closed. */
  method FindCity(cat: Catalog, b: Board, completed: set<ZoneRef>, c: ZoneRef)
    returns (closed: bool, r: ZoneRef, f: Feature)
    requires ValidCatalog(cat) && WellPlaced(cat, b) && c in Zones(cat, b) && KindOf(cat, b, c) == Some(City)
    requires CompletedKnown(cat, b, completed)
    ensures closed <==> Closed(cat, b, c)
    ensures IsLeast(r, Class(cat, b, c)) && (closed ==> IsCityAt(cat, b, r, f))
  {
    var found := BuildFeature(cat, b, [], c);
    f := found.value;
    Reflexive(ZoneGraph(cat, b), c);
    assert c in f.zones;
    r := CanonicalRef(f.zones, Class(cat, b, c));
    assert CityKnown(cat, b, completed, c);
    closed := r in completed;
    if closed { CityFound(cat, b, c, f, r); }
  }

  lemma ClosedCityCounted(cat: Catalog, b: Board, seen: map<ZoneRef, Feature>, processed: set<ZoneRef>, c: ZoneRef,
                          r: ZoneRef, f: Feature)
    requires ValidCatalog(cat) && WellPlaced(cat, b) && c in Zones(cat, b) && KindOf(cat, b, c) == Some(City)
    requires Counting(cat, b, seen.Keys, processed) && Closed(cat, b, c) && IsLeast(r, Class(cat, b, c))
    ensures Counting(cat, b, seen[r := f].Keys, processed + {c})
  {
    ClosedCounted(cat, b, seen.Keys, processed, c, r);
    assert seen[r := f].Keys == seen.Keys + {r};
  }

  lemma OpenCityCounted(cat: Catalog, b: Board, seen: set<ZoneRef>, processed: set<ZoneRef>, c: ZoneRef)
    requires Counting(cat, b, seen, processed) && !Closed(cat, b, c)
    ensures Counting(cat, b, seen, processed + {c})
  {
    ClassesStep(cat, b, processed, c);
  }

  lemma ClosedCounted(cat: Catalog, b: Board, seen: set<ZoneRef>, processed: set<ZoneRef>, c: ZoneRef, r: ZoneRef)
    requires ValidCatalog(cat) && WellPlaced(cat, b) && c in Zones(cat, b) && KindOf(cat, b, c) == Some(City)
    requires Counting(cat, b, seen, processed) && Closed(cat, b, c) && IsLeast(r, Class(cat, b, c))
    ensures Counting(cat, b, seen + {r}, processed + {c})
  {
    ClassesStep(cat, b, processed, c);
    RepresentsStep(cat, b, seen, ClosedCityClasses(cat, b, processed), c, r);
  }

  /** The closed cities beside a field, found from the segments recorded under its root. */
  method CitiesOfField(cat: Catalog, b: Board, completed: set<ZoneRef>, ghost field: set<ZoneRef>,
                       segments: seq<FieldSegment>, refs: map<FieldSegment, PlacedZone>)
    returns (seen: map<ZoneRef, Feature>)
    requires ValidCatalog(cat) && WellPlaced(cat, b)
    requires forall u :: u in segments ==> u in refs && IsSegment(cat, b, u, refs[u])
    requires forall u :: u in segments <==> IsFieldSegment(cat, b, u) && u.Zone() in field
    requires CompletedKnown(cat, b, completed)
    ensures Represents(seen.Keys, ClosedCityClasses(cat, b, CitiesBeside(cat, b, field)))
    ensures AreCities(cat, b, seen)
    ensures 3 * |seen.Keys| == FieldPoints(cat, b, field)
  {
    seen := map[];
    ghost var processed: set<ZoneRef> := {};
    for i := 0 to |segments|
      invariant Counting(cat, b, seen.Keys, processed) && AreCities(cat, b, seen)
      invariant processed <= CitiesBeside(cat, b, field)
      invariant AllCovered(cat, b, segments, i, refs, processed)
    {
      var u := segments[i];
      assert u in segments;
      var cities := AdjacentCities(cat, b, u, refs[u]);
      ghost var more := set c | c in cities;
      NearbyCities(cat, b, field, u, refs, cities);
      seen := CountCities(cat, b, completed, seen, processed, cities);
      CoveredStep(cat, b, segments, i, refs, processed, more);
      processed := processed + more;
    }
    AllCitiesProcessed(cat, b, field, segments, refs, processed);
  }

  ghost function CitiesBeside(cat: Catalog, b: Board, field: set<ZoneRef>): set<ZoneRef> {
    set c | c in Zones(cat, b) && BesideField(cat, b, field, c)
  }

  ghost predicate Covered(cat: Catalog, b: Board, u: FieldSegment, refs: map<FieldSegment, PlacedZone>,
                          processed: set<ZoneRef>)
  {
    u in refs && forall c {:trigger BesideSegment(cat, b, u, refs[u], c)} :: BesideSegment(cat, b, u, refs[u], c) ==>
        c in processed
  }

  ghost predicate AllCovered(cat: Catalog, b: Board, segments: seq<FieldSegment>, n: nat,
                             refs: map<FieldSegment, PlacedZone>, processed: set<ZoneRef>)
    requires n <= |segments|
  {
    forall k {:trigger segments[k]} :: 0 <= k < n ==> Covered(cat, b, segments[k], refs, processed)
  }

  lemma CoveredStep(cat: Catalog, b: Board, segments: seq<FieldSegment>, n: nat, refs: map<FieldSegment, PlacedZone>,
                    processed: set<ZoneRef>, more: set<ZoneRef>)
    requires n < |segments| && AllCovered(cat, b, segments, n, refs, processed)
    requires Covered(cat, b, segments[n], refs, more)
    ensures AllCovered(cat, b, segments, n + 1, refs, processed + more)
  {
    forall k | 0 <= k < n + 1
      ensures Covered(cat, b, segments[k], refs, processed + more)
    {}
  }

  lemma NearbyCities(cat: Catalog, b: Board, field: set<ZoneRef>, u: FieldSegment, refs: map<FieldSegment, PlacedZone>,
                     cities: seq<ZoneRef>)
    requires u in refs && u.Zone() in field
    requires forall c :: c in cities <==> BesideSegment(cat, b, u, refs[u], c)
    requires forall c :: c in cities ==> c in Zones(cat, b)
    ensures (set c | c in cities) <= CitiesBeside(cat, b, field)
    ensures Covered(cat, b, u, refs, set c | c in cities)
  {
    forall c | c in cities
      ensures c in CitiesBeside(cat, b, field)
    {
      assert BesideSegment(cat, b, u, refs[u], c);
    }
  }

  method CountCities(cat: Catalog, b: Board, completed: set<ZoneRef>, seen: map<ZoneRef, Feature>,
                     ghost processed: set<ZoneRef>, cities: seq<ZoneRef>)
    returns (seen': map<ZoneRef, Feature>)
    requires ValidCatalog(cat) && WellPlaced(cat, b) && CompletedKnown(cat, b, completed)
    requires Counting(cat, b, seen.Keys, processed) && AreCities(cat, b, seen)
    requires forall c :: c in cities ==> c in Zones(cat, b) && KindOf(cat, b, c) == Some(City)
    ensures Counting(cat, b, seen'.Keys, processed + (set c | c in cities)) && AreCities(cat, b, seen')
  {
    seen' := seen;
    FirstsEnds(processed, cities);
    for k := 0 to |cities|
      invariant Counting(cat, b, seen'.Keys, processed + Firsts(cities, k)) && AreCities(cat, b, seen')
    {
      assert cities[k] in cities;
      seen' := CountCity(cat, b, completed, seen', processed + Firsts(cities, k), cities[k]);
      FirstsStep(processed, cities, k);
    }
  }

  lemma FirstsEnds(processed: set<ZoneRef>, cities: seq<ZoneRef>)
    ensures processed + Firsts(cities, 0) == processed && Firsts(cities, |cities|) == set c | c in cities
  {
    assert cities[..|cities|] == cities;
  }

  ghost function Firsts(cities: seq<ZoneRef>, k: nat): set<ZoneRef>
    requires k <= |cities|
  {
    set c | c in cities[..k]
  }

  lemma FirstsStep(processed: set<ZoneRef>, cities: seq<ZoneRef>, k: nat)
    requires k < |cities|
    ensures processed + Firsts(cities, k) + {cities[k]} == processed + Firsts(cities, k + 1)
  {
    assert cities[..k + 1] == cities[..k] + [cities[k]];
  }

  lemma AllCitiesProcessed(cat: Catalog, b: Board, field: set<ZoneRef>, segments: seq<FieldSegment>,
                           refs: map<FieldSegment, PlacedZone>, processed: set<ZoneRef>)
    requires ValidCatalog(cat) && WellPlaced(cat, b)
    requires forall u :: u in segments ==> u in refs && IsSegment(cat, b, u, refs[u])
    requires forall u :: u in segments <==> IsFieldSegment(cat, b, u) && u.Zone() in field
    requires processed <= CitiesBeside(cat, b, field)
    requires AllCovered(cat, b, segments, |segments|, refs, processed)
    ensures processed == CitiesBeside(cat, b, field)
  {
    forall c | BesideField(cat, b, field, c)
      ensures c in processed
    {
      var u, pz :| BesideSegment(cat, b, u, pz, c) && u.Zone() in field;
      assert IsFieldSegment(cat, b, u);
      var k :| 0 <= k < |segments| && segments[k] == u;
      SameSegment(cat, b, u, pz, refs[u]);
      assert Covered(cat, b, segments[k], refs, processed);
    }
  }
}
