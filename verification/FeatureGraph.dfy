/** Roads and cities: the breadth-first search over the zone graph. */
module FeatureGraph {
  import opened Tiles
  import opened Graphs
  import opened Topology
  import opened Pieces
  import opened Sorting

  datatype Feature = Feature(kind: Kind, zones: seq<ZoneRef>, openEdges: nat, meeplesByActor: map<Id, nat>)

  /** zones lists the members of a set. */
  ghost predicate Lists(zones: seq<ZoneRef>, members: set<ZoneRef>) {
    forall z :: z in zones <==> z in members
  }

  ghost function OpenSum(cat: Catalog, b: Board, zones: seq<ZoneRef>): nat {
    if zones == [] then 0 else OpenSum(cat, b, zones[..|zones| - 1]) + OpenEdges(cat, b, zones[|zones| - 1])
  }

  /** f describes the class of start: its zones once each, its open edges and the meeple weights on it. */
  ghost predicate IsFeature(cat: Catalog, b: Board, ms: seq<Meeple>, start: ZoneRef, f: Feature) {
    && KindOf(cat, b, start) == Some(f.kind)
    && NoTwice(f.zones)
    && Lists(f.zones, Class(cat, b, start))
    && f.openEdges == OpenSum(cat, b, f.zones)
    && Weighs(ms, Class(cat, b, start), f.meeplesByActor)
  }

  predicate LeadsTo(cat: Catalog, b: Board, pz: PlacedZone, s: Segment, v: ZoneRef) {
    var found := Across(cat, b, pz.tile, pz.def.kind, s);
    found.Some? && found.value.Ref() == v
  }

  /** v lies across one of the first n segments. */
  ghost predicate AcrossFirst(cat: Catalog, b: Board, pz: PlacedZone, segments: seq<Segment>, n: nat, v: ZoneRef)
    requires n <= |segments|
  {
    exists k :: 0 <= k < n && LeadsTo(cat, b, pz, segments[k], v)
  }

  /** The neighbours across the first n segments, each once, and the open edges among them. */
  ghost predicate Crossed(cat: Catalog, b: Board, pz: PlacedZone, segments: seq<Segment>, n: nat,
                          neighbors: seq<ZoneRef>, openEdges: nat)
    requires n <= |segments|
  {
    && NoTwice(neighbors) && openEdges == OpenAmong(cat, b, pz, segments[..n])
    && forall v {:trigger AcrossFirst(cat, b, pz, segments, n, v)} {:trigger v in neighbors} :: v in neighbors <==>
        AcrossFirst(cat, b, pz, segments, n, v)
  }

  lemma CrossedStep(cat: Catalog, b: Board, pz: PlacedZone, segments: seq<Segment>, n: nat, neighbors: seq<ZoneRef>,
                    openEdges: nat)
    requires n < |segments| && Crossed(cat, b, pz, segments, n, neighbors, openEdges)
    ensures var found := Across(cat, b, pz.tile, pz.def.kind, segments[n]);
            && (found.None? ==>
                Crossed(cat, b, pz, segments, n + 1, neighbors,
                        openEdges + if BorderNeighbor(segments[n]).Some? then 1 else 0))
            && (found.Some? && found.value.Ref() in neighbors ==>
                Crossed(cat, b, pz, segments, n + 1, neighbors, openEdges))
            && (found.Some? && found.value.Ref() !in neighbors ==>
                Crossed(cat, b, pz, segments, n + 1, neighbors + [found.value.Ref()], openEdges))
    ensures BorderNeighbor(segments[n]).None? ==> Across(cat, b, pz.tile, pz.def.kind, segments[n]).None?
  {
    assert segments[..n + 1][..n] == segments[..n];
    forall v
      ensures AcrossFirst(cat, b, pz, segments, n + 1, v) <==>
                AcrossFirst(cat, b, pz, segments, n, v) || LeadsTo(cat, b, pz, segments[n], v)
    {}
  }

  lemma AllCrossed(cat: Catalog, b: Board, pz: PlacedZone, neighbors: seq<ZoneRef>, openEdges: nat)
    requires Crossed(cat, b, pz, pz.Segments(), |pz.Segments()|, neighbors, openEdges)
    ensures (set v | v in neighbors) == Neighbors(cat, b, pz) && openEdges == OpenAmong(cat, b, pz, pz.Segments())
  {
    var segments := pz.Segments();
    assert segments[..|segments|] == segments;
    forall v
      ensures v in neighbors <==> v in Neighbors(cat, b, pz)
    {
      assert v in neighbors <==> AcrossFirst(cat, b, pz, segments, |segments|, v);
    }
  }

  method ConnectedNeighborZones(cat: Catalog, b: Board, pz: PlacedZone)
    returns (neighbors: seq<ZoneRef>, openEdges: nat)
    ensures (set v | v in neighbors) == Neighbors(cat, b, pz) && NoTwice(neighbors)
    ensures openEdges == OpenAmong(cat, b, pz, pz.Segments())
  {
    neighbors, openEdges := [], 0;
    var segments := pz.Segments();
    for i := 0 to |segments|
      invariant Crossed(cat, b, pz, segments, i, neighbors, openEdges)
    {
      CrossedStep(cat, b, pz, segments, i, neighbors, openEdges);
      if BorderNeighbor(segments[i]).Some? {
        var found := Across(cat, b, pz.tile, pz.def.kind, segments[i]);
        if found.None? {
          openEdges := openEdges + 1;
        } else if found.value.Ref() !in neighbors {
          neighbors := neighbors + [found.value.Ref()];
        }
      }
    }
    AllCrossed(cat, b, pz, neighbors, openEdges);
  }

  function Tally(w: map<Id, nat>, actor: Id): nat {
    if actor in w then w[actor] else 0
  }

  /** w holds the weight of every actor with a meeple on the zones, and nobody else. */
  ghost predicate Weighs(ms: seq<Meeple>, zones: set<ZoneRef>, w: map<Id, nat>) {
    && (forall a :: Tally(w, a) == WeightOn(ms, zones, a))
    && (forall a :: a in w ==> 0 < w[a])
  }

  lemma WeighsActors(ms: seq<Meeple>, zones: set<ZoneRef>, w: map<Id, nat>)
    requires Weighs(ms, zones, w)
    ensures w.Keys == ActorsOn(ms, zones)
  {
    forall a
      ensures a in w <==> a in ActorsOn(ms, zones)
    {
      WeightPositive(ms, zones, a);
      assert Tally(w, a) == WeightOn(ms, zones, a);
    }
  }

  method AddWeights(ms: seq<Meeple>, ref: ZoneRef, ghost before: set<ZoneRef>, weights: map<Id, nat>)
    returns (r: map<Id, nat>)
    requires ref !in before && Weighs(ms, before, weights)
    ensures Weighs(ms, before + {ref}, r)
  {
    r := weights;
    for i := 0 to |ms|
      invariant forall a :: a in r ==> 0 < r[a]
      invariant forall a :: Tally(r, a) == WeightOn(ms, before, a) + WeightOn(ms[..i], {ref}, a)
    {
      var m := ms[i];
      assert ms[..i + 1][..i] == ms[..i];
      if m.Ref() == ref {
        r := r[m.actor := Tally(r, m.actor) + m.Weight()];
      }
    }
    assert ms[..|ms|] == ms;
    forall a
      ensures Tally(r, a) == WeightOn(ms, before + {ref}, a)
    {
      WeightSplits(ms, before, {ref}, a);
    }
  }

  method EnqueueNew(queue: seq<ZoneRef>, visited: set<ZoneRef>, neighbors: seq<ZoneRef>) returns (r: seq<ZoneRef>)
    ensures queue <= r
    ensures forall v :: v in r ==> v in queue || v in neighbors
    ensures forall v :: v in neighbors ==> v in visited || v in r
  {
    r := queue;
    for i := 0 to |neighbors|
      invariant queue <= r
      invariant forall v :: v in r ==> v in queue || v in neighbors
      invariant forall k :: 0 <= k < i ==> neighbors[k] in visited || neighbors[k] in r
    {
      if neighbors[i] !in visited {
        r := r + [neighbors[i]];
      }
    }
  }

  /** Everything seen so far is reachable, and every edge leaving a visited zone leads to a visited or queued one. */
  ghost predicate Frontier(g: Graph<ZoneRef>, start: ZoneRef, visited: set<ZoneRef>, queue: seq<ZoneRef>) {
    && visited <= Component(g, start) && (forall v :: v in queue ==> v in Component(g, start))
    && (start in visited || start in queue)
    && (forall u, v :: u in visited && u in g && v in g[u] ==> v in visited || v in queue)
  }

  lemma FrontierStep(g: Graph<ZoneRef>, start: ZoneRef, visited: set<ZoneRef>, queue: seq<ZoneRef>, next: seq<ZoneRef>)
    requires Symmetric(g) && queue != [] && Frontier(g, start, visited, queue) && queue[1..] <= next
    requires queue[0] in g && forall v :: v in next ==> v in queue[1..] || v in g[queue[0]]
    requires forall v :: v in g[queue[0]] ==> v in visited + {queue[0]} || v in next
    ensures Frontier(g, start, visited + {queue[0]}, next)
  {
    ComponentClosed(g, start, queue[0]);
    assert forall v :: v in queue ==> v == queue[0] || v in queue[1..];
    assert forall v :: v in queue[1..] ==> v in next;
  }

  /** The zones visited so far, listed once each, with their open edges and meeple weights. */
  ghost predicate Collected(cat: Catalog, b: Board, ms: seq<Meeple>, visited: set<ZoneRef>, f: Feature) {
    NoTwice(f.zones) && Lists(f.zones, visited) && f.openEdges == OpenSum(cat, b, f.zones) &&
    Weighs(ms, visited, f.meeplesByActor)
  }

  lemma CollectedNone(cat: Catalog, b: Board, ms: seq<Meeple>, kind: Kind)
    ensures Collected(cat, b, ms, {}, Feature(kind, [], 0, map[]))
  {
    forall a
      ensures WeightOn(ms, {}, a) == 0
    {
      WeightPositive(ms, {}, a);
    }
  }

  lemma CollectedStep(cat: Catalog, b: Board, ms: seq<Meeple>, visited: set<ZoneRef>, f: Feature, ref: ZoneRef,
                      w: map<Id, nat>)
    requires Collected(cat, b, ms, visited, f) && ref !in visited && Weighs(ms, visited + {ref}, w)
    ensures Collected(cat, b, ms, visited + {ref},
              Feature(f.kind, f.zones + [ref], f.openEdges + OpenEdges(cat, b, ref), w))
  {
    assert (f.zones + [ref])[..|f.zones|] == f.zones;
  }

  method BuildFeature(cat: Catalog, b: Board, ms: seq<Meeple>, start: ZoneRef) returns (r: Option<Feature>)
    requires ValidCatalog(cat) && WellPlaced(cat, b)
    ensures r.None? <==> start !in Zones(cat, b)
    ensures r.Some? ==> IsFeature(cat, b, ms, start, r.value)
  {
    var first := GetPlacedZone(cat, b, start);
    ResolvesIff(cat, b, start);
    if first.None? {
      return None;
    }
    ghost var g := ZoneGraph(cat, b);
    NeighborsSymmetric(cat, b);
    FrontierInit(g, start);
    var f := Feature(first.value.def.kind, [], 0, map[]);
    CollectedNone(cat, b, ms, f.kind);
    var queue, visited: set<ZoneRef> := [start], {};
    while queue != []
      invariant Frontier(g, start, visited, queue)
      invariant f.kind == first.value.def.kind && Collected(cat, b, ms, visited, f)
      invariant visited <= Component(g, start)
      decreases Component(g, start) - visited, |queue|
    {
      var ref := queue[0];
      if ref in visited {
        SkipVisited(g, start, visited, queue);
        queue := queue[1..];
      } else {
        f, queue := Visit(cat, b, ms, start, ref, visited, f, queue);
        visited := visited + {ref};
      }
    }
    Exhausted(g, start, visited);
    r := Some(f);
  }

  lemma FrontierInit(g: Graph<ZoneRef>, start: ZoneRef)
    requires start in g
    ensures Frontier(g, start, {}, [start])
  {
    Reflexive(g, start);
  }

  lemma Exhausted(g: Graph<ZoneRef>, start: ZoneRef, visited: set<ZoneRef>)
    requires Frontier(g, start, visited, [])
    ensures visited == Component(g, start)
  {
    Least(g, start, visited);
  }

  lemma SkipVisited(g: Graph<ZoneRef>, start: ZoneRef, visited: set<ZoneRef>, queue: seq<ZoneRef>)
    requires Frontier(g, start, visited, queue) && queue != [] && queue[0] in visited
    ensures Frontier(g, start, visited, queue[1..])
  {
    assert forall v :: v in queue ==> v == queue[0] || v in queue[1..];
  }

  /** One round of the search: records the zone and queues its unvisited neighbours. */
  method Visit(cat: Catalog, b: Board, ms: seq<Meeple>, ghost start: ZoneRef, ref: ZoneRef, visited: set<ZoneRef>,
               f: Feature, queue: seq<ZoneRef>)
    returns (f': Feature, next: seq<ZoneRef>)
    requires ValidCatalog(cat) && WellPlaced(cat, b)
    requires Frontier(ZoneGraph(cat, b), start, visited, queue) && queue != [] && queue[0] == ref && ref !in visited
    requires Collected(cat, b, ms, visited, f)
    ensures f'.kind == f.kind && Collected(cat, b, ms, visited + {ref}, f')
    ensures Frontier(ZoneGraph(cat, b), start, visited + {ref}, next)
  {
    ResolvesIff(cat, b, ref);
    var pz := GetPlacedZone(cat, b, ref).value;
    var weights := AddWeights(ms, ref, visited, f.meeplesByActor);
    var neighbors, open := ConnectedNeighborZones(cat, b, pz);
    assert (set v | v in neighbors) == ZoneGraph(cat, b)[ref];
    assert forall v :: v in neighbors <==> v in ZoneGraph(cat, b)[ref];
    next := EnqueueNew(queue[1..], visited + {ref}, neighbors);
    NeighborsSymmetric(cat, b);
    FrontierStep(ZoneGraph(cat, b), start, visited, queue, next);
    CollectedStep(cat, b, ms, visited, f, ref, weights);
    f' := Feature(f.kind, f.zones + [ref], f.openEdges + open, weights);
  }

  // ---------------------------------------------------------------- independence of the start

  lemma {:induction false} OpenSumRemove(cat: Catalog, b: Board, zones: seq<ZoneRef>, i: nat)
    requires i < |zones|
    ensures OpenSum(cat, b, zones) == OpenSum(cat, b, zones[..i] + zones[i + 1..]) + OpenEdges(cat, b, zones[i])
    decreases |zones|
  {
    var n := |zones| - 1;
    if i == n {
      assert zones[..i] + zones[i + 1..] == zones[..n];
    } else {
      OpenSumRemove(cat, b, zones[..n], i);
      assert (zones[..i] + zones[i + 1..])[..n - 1] == zones[..n][..i] + zones[..n][i + 1..];
    }
  }

  lemma RestMembers(y: seq<ZoneRef>, z: seq<ZoneRef>, n: nat, i: nat)
    requires NoTwice(y) && NoTwice(z) && (forall v :: v in y <==> v in z)
    requires n + 1 == |y| && i < |z| && z[i] == y[n]
    ensures NoTwice(y[..n]) && NoTwice(z[..i] + z[i + 1..])
    ensures forall v :: v in y[..n] <==> v in z[..i] + z[i + 1..]
  {
    var rest := z[..i] + z[i + 1..];
    forall v
      ensures v in y[..n] <==> v in rest
    {
      if v in y[..n] {
        assert v in y;
        var k :| 0 <= k < |z| && z[k] == v;
        assert rest[if k < i then k else k - 1] == v;
      }
      if v in rest { assert v in z; }
    }
  }

  lemma {:induction false} OpenSumOrderless(cat: Catalog, b: Board, y: seq<ZoneRef>, z: seq<ZoneRef>)
    requires NoTwice(y) && NoTwice(z) && forall v :: v in y <==> v in z
    ensures OpenSum(cat, b, y) == OpenSum(cat, b, z)
    decreases |y|
  {
    if y == [] {
      assert forall k :: 0 <= k < |z| ==> z[k] in z;
    } else {
      var n := |y| - 1;
      assert y[n] in z;
      var i :| 0 <= i < |z| && z[i] == y[n];
      var rest := z[..i] + z[i + 1..];
      OpenSumRemove(cat, b, z, i);
      RestMembers(y, z, n, i);
      OpenSumOrderless(cat, b, y[..n], rest);
    }
  }

  /** Searching from any zone of a feature finds the same zones, open edges and meeple weights. */
  lemma StartDoesNotMatter(cat: Catalog, b: Board, ms: seq<Meeple>, u: ZoneRef, v: ZoneRef, f: Feature, h: Feature)
    requires ValidCatalog(cat) && WellPlaced(cat, b) && u in Zones(cat, b) && v in Class(cat, b, u)
    requires IsFeature(cat, b, ms, u, f) && IsFeature(cat, b, ms, v, h)
    ensures f.kind == h.kind && (forall z :: z in f.zones <==> z in h.zones)
    ensures f.openEdges == h.openEdges && f.meeplesByActor == h.meeplesByActor
  {
    NeighborsSymmetric(cat, b);
    SameComponent(ZoneGraph(cat, b), u, v);
    ClassHasOneKind(cat, b, u, v);
    OpenSumOrderless(cat, b, f.zones, h.zones);
    WeighsActors(ms, Class(cat, b, u), f.meeplesByActor);
    WeighsActors(ms, Class(cat, b, v), h.meeplesByActor);
    forall a | a in f.meeplesByActor
      ensures f.meeplesByActor[a] == h.meeplesByActor[a]
    {
      assert Tally(f.meeplesByActor, a) == Tally(h.meeplesByActor, a);
    }
  }

  lemma {:induction false} OpenSumZero(cat: Catalog, b: Board, zones: seq<ZoneRef>)
    ensures OpenSum(cat, b, zones) == 0 <==> forall z :: z in zones ==> OpenEdges(cat, b, z) == 0
  {
    if zones != [] {
      var n := |zones| - 1;
      OpenSumZero(cat, b, zones[..n]);
      assert zones == zones[..n] + [zones[n]];
    }
  }

  /** No open edges counted means closed: no segment of any zone of the feature lies at an open border. */
  lemma NoOpenEdgesIsClosed(cat: Catalog, b: Board, ms: seq<Meeple>, start: ZoneRef, f: Feature)
    requires ValidCatalog(cat) && WellPlaced(cat, b) && IsFeature(cat, b, ms, start, f)
    ensures f.openEdges == 0 <==> Closed(cat, b, start)
    ensures f.openEdges == 0 <==>
            forall pz, s :: OnBoard(cat, b, pz) && pz.Ref() in Class(cat, b, start) && s in pz.Segments() ==>
                !IsOpen(cat, b, pz, s)
  {
    OpenSumZero(cat, b, f.zones);
    forall pz | OnBoard(cat, b, pz) && pz.Ref() in Class(cat, b, start)
      ensures OpenEdges(cat, b, pz.Ref()) == 0 <==> forall s :: s in pz.Segments() ==> !IsOpen(cat, b, pz, s)
    {
      Resolves(cat, b, pz.Ref(), pz);
      NoneOpen(cat, b, pz, pz.Segments());
    }
    forall v | v in Class(cat, b, start) && GetPlacedZone(cat, b, v).Some?
      ensures OnBoard(cat, b, GetPlacedZone(cat, b, v).value) && GetPlacedZone(cat, b, v).value.Ref() == v
    {
      Resolves(cat, b, v, GetPlacedZone(cat, b, v).value);
    }
  }
}
