/** Fields: the union-find over field segments computes the classes of the zone graph. */
module FieldGraphs {
  import opened Tiles
  import opened Graphs
  import opened Topology
  import opened Pieces
  import opened DisjointSets
  import opened FeatureGraph

  datatype FieldSegment = FieldSegment(tile: Id, zone: Id, segment: Segment) {
    function Zone(): ZoneRef { ZoneRef(tile, zone) }
  }

  function SegmentOf(pz: PlacedZone, s: Segment): FieldSegment {
    FieldSegment(pz.tile.instance, pz.def.id, s)
  }

  function SegmentList(pz: PlacedZone): seq<FieldSegment> {
    var segments := pz.Segments();
    seq(|segments|, i requires 0 <= i < |segments| => SegmentOf(pz, segments[i]))
  }

  /** u is a segment of the field zone pz on the board. */
  ghost predicate IsSegment(cat: Catalog, b: Board, u: FieldSegment, pz: PlacedZone) {
    OnBoard(cat, b, pz) && pz.def.kind == Field && pz.Ref() == u.Zone() && u.segment in pz.Segments()
  }

  ghost predicate IsFieldSegment(cat: Catalog, b: Board, u: FieldSegment) {
    exists pz :: IsSegment(cat, b, u, pz)
  }

  // ---------------------------------------------------------------- what the unions must achieve

  ghost predicate Extends(g: Graph<FieldSegment>, h: Graph<FieldSegment>) {
    forall u :: u in g ==> u in h && g[u] <= h[u]
  }

  /** Every union joins segments of one field. */
  ghost predicate SoundAt(cat: Catalog, b: Board, g: Graph<FieldSegment>, u: FieldSegment) {
    IsFieldSegment(cat, b, u) && u in g && forall v :: v in g[u] ==> v.Zone() in Class(cat, b, u.Zone())
  }

  ghost predicate Sound(cat: Catalog, b: Board, g: Graph<FieldSegment>) {
    forall u {:trigger SoundAt(cat, b, g, u)} :: u in g ==> SoundAt(cat, b, g, u)
  }

  /** All segments of the zone hang together. */
  ghost predicate Bundled(g: Graph<FieldSegment>, pz: PlacedZone) {
    var list := SegmentList(pz);
    && (forall i :: 0 <= i < |list| ==> list[i] in g)
    && (forall i :: 0 < i < |list| ==> list[i] in g[list[0]])
  }

  /** The segment is joined to the field segment across the border, if there is one. */
  ghost predicate Crossed(cat: Catalog, b: Board, g: Graph<FieldSegment>, pz: PlacedZone, s: Segment) {
    var found := Across(cat, b, pz.tile, Field, s);
    found.Some? ==> BorderNeighbor(s).Some? && SegmentOf(pz, s) in g
                    && SegmentOf(found.value, BorderNeighbor(s).value.segment) in g[SegmentOf(pz, s)]
  }

  ghost predicate Complete(cat: Catalog, b: Board, g: Graph<FieldSegment>) {
    && (forall pz {:trigger Bundled(g, pz)} :: OnBoard(cat, b, pz) && pz.def.kind == Field ==> Bundled(g, pz))
    && (forall u, pz {:trigger IsSegment(cat, b, u, pz)} :: IsSegment(cat, b, u, pz) ==>
        Crossed(cat, b, g, pz, u.segment))
  }

  lemma SoundComponent(cat: Catalog, b: Board, g: Graph<FieldSegment>, u: FieldSegment, v: FieldSegment)
    requires ValidCatalog(cat) && WellPlaced(cat, b) && Sound(cat, b, g) && u in g && v in Component(g, u)
    ensures v.Zone() in Class(cat, b, u.Zone())
  {
    var within := set w | w in g && w.Zone() in Class(cat, b, u.Zone());
    NeighborsSymmetric(cat, b);
    assert SoundAt(cat, b, g, u);
    var pz :| IsSegment(cat, b, u, pz);
    Resolves(cat, b, u.Zone(), pz);
    Reflexive(ZoneGraph(cat, b), u.Zone());
    forall x | x in within && x in g
      ensures g[x] * g.Keys <= within
    {
      assert SoundAt(cat, b, g, x);
      SameComponent(ZoneGraph(cat, b), u.Zone(), x.Zone());
    }
    var p :| Joins(g, p, u, v);
    StaysWithin(g, p, within);
  }

  lemma {:induction false} StaysWithin(g: Graph<FieldSegment>, p: seq<FieldSegment>, s: set<FieldSegment>)
    requires IsPath(g, p) && p[0] in s
    requires forall x :: x in s && x in g ==> g[x] * g.Keys <= s
    ensures p[|p| - 1] in s
    decreases |p|
  {
    if |p| > 1 {
      StaysWithin(g, p[..|p| - 1], s);
      assert p[|p| - 1] in g[p[|p| - 2]] * g.Keys;
    }
  }

  lemma BundledComponent(g: Graph<FieldSegment>, pz: PlacedZone, s: Segment, t: Segment)
    requires Symmetric(g) && Bundled(g, pz) && s in pz.Segments() && t in pz.Segments()
    ensures Connected(g, SegmentOf(pz, s), SegmentOf(pz, t))
  {
    var segments, list := pz.Segments(), SegmentList(pz);
    var i :| 0 <= i < |segments| && segments[i] == s;
    var j :| 0 <= j < |segments| && segments[j] == t;
    assert list[i] == SegmentOf(pz, s) && list[j] == SegmentOf(pz, t);
    var hub := list[0];
    Reflexive(g, hub);
    if i > 0 { Edge(g, hub, SegmentOf(pz, s)); }
    if j > 0 { Edge(g, hub, SegmentOf(pz, t)); }
    Back(g, hub, SegmentOf(pz, s));
    Transitive(g, SegmentOf(pz, s), hub, SegmentOf(pz, t));
  }

  /** Some segment, and hence every segment, of the zone is joined to u. */
  ghost predicate Reached(cat: Catalog, b: Board, g: Graph<FieldSegment>, u: FieldSegment, z: ZoneRef) {
    exists pz, s :: OnBoard(cat, b, pz) && pz.Ref() == z && pz.def.kind == Field && s in pz.Segments() &&
                    Connected(g, u, SegmentOf(pz, s))
  }

  lemma ReachedNeighbor(cat: Catalog, b: Board, g: Graph<FieldSegment>, u: FieldSegment, x: ZoneRef, y: ZoneRef)
    requires ValidCatalog(cat) && WellPlaced(cat, b) && Symmetric(g) && Complete(cat, b, g)
    requires x in Zones(cat, b) && Reached(cat, b, g, u, x) && y in ZoneGraph(cat, b)[x]
    ensures Reached(cat, b, g, u, y)
  {
    var pz, s :| OnBoard(cat, b, pz) && pz.Ref() == x && pz.def.kind == Field && s in pz.Segments() &&
                 Connected(g, u, SegmentOf(pz, s));
    Resolves(cat, b, x, pz);
    var t :| t in pz.Segments() && Across(cat, b, pz.tile, Field, t).Some? &&
             Across(cat, b, pz.tile, Field, t).value.Ref() == y;
    var q := Across(cat, b, pz.tile, Field, t).value;
    AcrossSound(cat, b, pz.tile, Field, t);
    var back := BorderNeighbor(t).value.segment;
    assert Bundled(g, pz);
    BundledComponent(g, pz, s, t);
    assert IsSegment(cat, b, SegmentOf(pz, t), pz);
    assert Crossed(cat, b, g, pz, t);
    assert SegmentOf(q, back) in g[SegmentOf(pz, t)];
    Edge(g, SegmentOf(pz, t), SegmentOf(q, back));
    Transitive(g, u, SegmentOf(pz, s), SegmentOf(pz, t));
    Transitive(g, u, SegmentOf(pz, t), SegmentOf(q, back));
  }

  lemma CompleteComponent(cat: Catalog, b: Board, g: Graph<FieldSegment>, u: FieldSegment, v: FieldSegment)
    requires ValidCatalog(cat) && WellPlaced(cat, b) && Symmetric(g) && Complete(cat, b, g)
    requires IsFieldSegment(cat, b, u) && IsFieldSegment(cat, b, v) && v.Zone() in Class(cat, b, u.Zone())
    ensures v in Component(g, u)
  {
    var zg := ZoneGraph(cat, b);
    var pu :| IsSegment(cat, b, u, pu);
    assert Bundled(g, pu);
    assert u == SegmentOf(pu, u.segment);
    BundledComponent(g, pu, u.segment, u.segment);
    assert Reached(cat, b, g, u, u.Zone());
    var reached := set z | z in zg && Reached(cat, b, g, u, z);
    NeighborsSymmetric(cat, b);
    Resolves(cat, b, u.Zone(), pu);
    forall x | x in reached && x in zg
      ensures zg[x] <= reached
    {
      forall y | y in zg[x]
        ensures y in reached
      {
        ReachedNeighbor(cat, b, g, u, x, y);
      }
    }
    Least(zg, u.Zone(), reached);
    var pv :| IsSegment(cat, b, v, pv);
    var pz, s :| OnBoard(cat, b, pz) && pz.Ref() == v.Zone() && pz.def.kind == Field && s in pz.Segments() &&
                 Connected(g, u, SegmentOf(pz, s));
    Resolves(cat, b, v.Zone(), pv);
    Resolves(cat, b, v.Zone(), pz);
    assert Bundled(g, pv);
    BundledComponent(g, pv, s, v.segment);
    Transitive(g, u, SegmentOf(pv, s), v);
  }

  /** The field segments of the board, and for any two of them: one root iff one class of the zone graph. */
  ghost predicate FieldPartition(cat: Catalog, b: Board, root: map<FieldSegment, FieldSegment>) {
    && (forall u {:trigger IsFieldSegment(cat, b, u)} :: u in root <==> IsFieldSegment(cat, b, u))
    && (forall u, v {:trigger SameField(cat, b, root, u, v)} :: u in root && v in root ==>
        SameField(cat, b, root, u, v))
  }

  ghost predicate SameField(cat: Catalog, b: Board, root: map<FieldSegment, FieldSegment>, u: FieldSegment,
                            v: FieldSegment)
    requires u in root && v in root
  {
    root[u] == root[v] <==> v.Zone() in Class(cat, b, u.Zone())
  }

  /** What the partition says about one segment. */
  lemma FieldZone(cat: Catalog, b: Board, root: map<FieldSegment, FieldSegment>, u: FieldSegment)
    requires ValidCatalog(cat) && WellPlaced(cat, b) && FieldPartition(cat, b, root) && u in root
    ensures u.Zone() in Zones(cat, b) && KindOf(cat, b, u.Zone()) == Some(Field)
    ensures u.Zone() in Class(cat, b, u.Zone())
  {
    assert IsFieldSegment(cat, b, u);
    var pz :| IsSegment(cat, b, u, pz);
    Resolves(cat, b, u.Zone(), pz);
    Reflexive(ZoneGraph(cat, b), u.Zone());
  }

  lemma PartitionCorrect(cat: Catalog, b: Board, root: map<FieldSegment, FieldSegment>, g: Graph<FieldSegment>)
    requires ValidCatalog(cat) && WellPlaced(cat, b) && Agrees(root, g)
    requires Sound(cat, b, g) && Complete(cat, b, g)
    ensures FieldPartition(cat, b, root)
  {
    forall u
      ensures u in root <==> IsFieldSegment(cat, b, u)
    {
      if u in g { assert SoundAt(cat, b, g, u); }
      if pz :| IsSegment(cat, b, u, pz) {
        assert Bundled(g, pz);
        BundledComponent(g, pz, u.segment, u.segment);
        assert u == SegmentOf(pz, u.segment);
      }
    }
    forall u, v | u in root && v in root
      ensures SameField(cat, b, root, u, v)
    {
      assert IsFieldSegment(cat, b, u) && IsFieldSegment(cat, b, v) by {
        assert SoundAt(cat, b, g, u) && SoundAt(cat, b, g, v);
      }
      SameTree(root, g, u, v);
      if Connected(g, u, v) {
        SoundComponent(cat, b, g, u, v);
      } else if v.Zone() in Class(cat, b, u.Zone()) {
        CompleteComponent(cat, b, g, u, v);
      }
    }
  }

  // ---------------------------------------------------------------- scanning the tiles

  /** The segments recorded under a zone reference are those of the field zone it names. */
  ghost predicate ListedAt(cat: Catalog, b: Board, byZone: map<ZoneRef, seq<FieldSegment>>, z: ZoneRef) {
    z in byZone && exists pz ::
        OnBoard(cat, b, pz) && pz.Ref() == z && pz.def.kind == Field && byZone[z] == SegmentList(pz)
  }

  /** The segments of the field zones in done are recorded and bundled. */
  ghost predicate Scanned(cat: Catalog, b: Board, g: Graph<FieldSegment>, refs: map<FieldSegment, PlacedZone>,
                          byZone: map<ZoneRef, seq<FieldSegment>>, done: set<PlacedZone>)
  {
    && Sound(cat, b, g) && refs.Keys == g.Keys
    && (forall u :: u in refs ==> IsSegment(cat, b, u, refs[u]))
    && (forall z {:trigger ListedAt(cat, b, byZone, z)} :: z in byZone ==> ListedAt(cat, b, byZone, z))
    && (forall pz {:trigger Bundled(g, pz)} :: pz in done ==> Bundled(g, pz) && pz.Ref() in byZone)
  }

  lemma BundledGrows(g: Graph<FieldSegment>, h: Graph<FieldSegment>, pz: PlacedZone)
    requires Bundled(g, pz) && Extends(g, h)
    ensures Bundled(h, pz)
  {}

  lemma SegmentSound(cat: Catalog, b: Board, pz: PlacedZone, i: nat)
    requires ValidCatalog(cat) && WellPlaced(cat, b) && OnBoard(cat, b, pz) && pz.def.kind == Field
    requires i < |SegmentList(pz)|
    ensures IsSegment(cat, b, SegmentList(pz)[i], pz) && IsFieldSegment(cat, b, SegmentList(pz)[i])
    ensures pz.Ref() in Zones(cat, b) && pz.Ref() in Class(cat, b, pz.Ref())
  {
    Resolves(cat, b, pz.Ref(), pz);
    Reflexive(ZoneGraph(cat, b), pz.Ref());
    assert IsSegment(cat, b, SegmentList(pz)[i], pz);
  }

  lemma AddKeepsSound(cat: Catalog, b: Board, g: Graph<FieldSegment>, u: FieldSegment)
    requires Sound(cat, b, g) && IsFieldSegment(cat, b, u)
    ensures Sound(cat, b, WithNode(g, u)) && Extends(g, WithNode(g, u))
  {
    var h := WithNode(g, u);
    forall v | v in h
      ensures SoundAt(cat, b, h, v)
    {
      assert v in g ==> SoundAt(cat, b, g, v);
    }
  }

  lemma LinkKeepsSound(cat: Catalog, b: Board, g: Graph<FieldSegment>, u: FieldSegment, v: FieldSegment)
    requires Sound(cat, b, g) && u in g && v in g
    requires v.Zone() in Class(cat, b, u.Zone()) && u.Zone() in Class(cat, b, v.Zone())
    ensures Sound(cat, b, Linked(g, u, v)) && Extends(g, Linked(g, u, v))
  {
    var h := Linked(g, u, v);
    forall w | w in h
      ensures SoundAt(cat, b, h, w)
    {
      assert SoundAt(cat, b, g, w);
    }
  }

  lemma ExtendsTransitive(f: Graph<FieldSegment>, g: Graph<FieldSegment>, h: Graph<FieldSegment>)
    requires Extends(f, g) && Extends(g, h)
    ensures Extends(f, h)
  {}

  /** The graph after the first n segments of a zone were added. */
  ghost predicate Adding(cat: Catalog, b: Board, g: Graph<FieldSegment>, h: Graph<FieldSegment>,
                         list: seq<FieldSegment>, n: nat)
    requires n <= |list|
  {
    Sound(cat, b, h) && Extends(g, h) && forall u :: u in h <==> u in g || u in list[..n]
  }

  lemma AddingStep(cat: Catalog, b: Board, g: Graph<FieldSegment>, h: Graph<FieldSegment>, pz: PlacedZone, n: nat)
    requires ValidCatalog(cat) && WellPlaced(cat, b) && OnBoard(cat, b, pz) && pz.def.kind == Field
    requires n < |SegmentList(pz)| && Adding(cat, b, g, h, SegmentList(pz), n)
    ensures Adding(cat, b, g, WithNode(h, SegmentList(pz)[n]), SegmentList(pz), n + 1)
  {
    SegmentSound(cat, b, pz, n);
    AddingOne(cat, b, g, h, SegmentList(pz), n);
  }

  lemma AddingOne(cat: Catalog, b: Board, g: Graph<FieldSegment>, h: Graph<FieldSegment>, list: seq<FieldSegment>,
                  n: nat)
    requires n < |list| && Adding(cat, b, g, h, list, n) && IsFieldSegment(cat, b, list[n])
    ensures Adding(cat, b, g, WithNode(h, list[n]), list, n + 1)
  {
    AddKeepsSound(cat, b, h, list[n]);
    ExtendsTransitive(g, h, WithNode(h, list[n]));
    assert list[..n + 1] == list[..n] + [list[n]];
  }

  method AddSegments(cat: Catalog, b: Board, pz: PlacedZone, d: DisjointSet<FieldSegment>)
    requires ValidCatalog(cat) && WellPlaced(cat, b) && OnBoard(cat, b, pz) && pz.def.kind == Field
    requires d.Valid() && Sound(cat, b, d.links)
    modifies d
    ensures d.Valid() && Adding(cat, b, old(d.links), d.links, SegmentList(pz), |SegmentList(pz)|)
  {
    var list := SegmentList(pz);
    for i := 0 to |list|
      invariant d.Valid() && Adding(cat, b, old(d.links), d.links, list, i)
    {
      AddingStep(cat, b, old(d.links), d.links, pz, i);
      d.Add(list[i]);
    }
  }

  /** The graph after the segments before the n-th were joined to the first. */
  ghost predicate Bundling(cat: Catalog, b: Board, g: Graph<FieldSegment>, h: Graph<FieldSegment>,
                           list: seq<FieldSegment>, n: nat)
    requires n <= |list|
  {
    && Sound(cat, b, h) && Extends(g, h) && h.Keys == g.Keys
    && (forall k :: 0 <= k < |list| ==> list[k] in h)
    && (forall k :: 0 < k < n ==> list[k] in h[list[0]])
  }

  lemma BundlingStep(cat: Catalog, b: Board, g: Graph<FieldSegment>, h: Graph<FieldSegment>, pz: PlacedZone, n: nat)
    requires ValidCatalog(cat) && WellPlaced(cat, b) && OnBoard(cat, b, pz) && pz.def.kind == Field
    requires n < |SegmentList(pz)| && Bundling(cat, b, g, h, SegmentList(pz), n)
    ensures Bundling(cat, b, g, Linked(h, SegmentList(pz)[0], SegmentList(pz)[n]), SegmentList(pz), n + 1)
  {
    SegmentSound(cat, b, pz, 0);
    SegmentSound(cat, b, pz, n);
    BundlingOne(cat, b, g, h, SegmentList(pz), n);
  }

  lemma BundlingOne(cat: Catalog, b: Board, g: Graph<FieldSegment>, h: Graph<FieldSegment>, list: seq<FieldSegment>,
                    n: nat)
    requires n < |list| && Bundling(cat, b, g, h, list, n)
    requires list[0].Zone() == list[n].Zone() && list[0].Zone() in Class(cat, b, list[0].Zone())
    ensures Bundling(cat, b, g, Linked(h, list[0], list[n]), list, n + 1)
  {
    LinkKeepsSound(cat, b, h, list[0], list[n]);
    ExtendsTransitive(g, h, Linked(h, list[0], list[n]));
  }

  method UnionSegments(cat: Catalog, b: Board, pz: PlacedZone, d: DisjointSet<FieldSegment>)
    requires ValidCatalog(cat) && WellPlaced(cat, b) && OnBoard(cat, b, pz) && pz.def.kind == Field
    requires d.Valid() && SegmentList(pz) != [] && Bundling(cat, b, d.links, d.links, SegmentList(pz), 1)
    modifies d
    ensures d.Valid() && Bundling(cat, b, old(d.links), d.links, SegmentList(pz), |SegmentList(pz)|)
  {
    var list := SegmentList(pz);
    for i := 1 to |list|
      invariant d.Valid() && Bundling(cat, b, old(d.links), d.links, list, i)
    {
      BundlingStep(cat, b, old(d.links), d.links, pz, i);
      d.Union(list[0], list[i]);
    }
  }

  function RecordSegments(refs: map<FieldSegment, PlacedZone>, pz: PlacedZone): map<FieldSegment, PlacedZone> {
    refs + map u | u in SegmentList(pz) :: pz
  }

  lemma ListedStep(cat: Catalog, b: Board, byZone: map<ZoneRef, seq<FieldSegment>>, pz: PlacedZone, z: ZoneRef)
    requires OnBoard(cat, b, pz) && pz.def.kind == Field && (z != pz.Ref() ==> ListedAt(cat, b, byZone, z))
    ensures ListedAt(cat, b, byZone[pz.Ref() := SegmentList(pz)], z)
  {
    if z != pz.Ref() {
      var q :| OnBoard(cat, b, q) && q.Ref() == z && q.def.kind == Field && byZone[z] == SegmentList(q);
      assert byZone[pz.Ref() := SegmentList(pz)][z] == SegmentList(q);
    }
  }

  lemma RecordedStep(cat: Catalog, b: Board, refs: map<FieldSegment, PlacedZone>, pz: PlacedZone)
    requires ValidCatalog(cat) && WellPlaced(cat, b) && OnBoard(cat, b, pz) && pz.def.kind == Field
    requires forall u :: u in refs ==> IsSegment(cat, b, u, refs[u])
    ensures forall u :: u in RecordSegments(refs, pz) ==> IsSegment(cat, b, u, RecordSegments(refs, pz)[u])
  {
    var list := SegmentList(pz);
    forall u | u in list
      ensures IsSegment(cat, b, u, pz)
    {
      var i :| 0 <= i < |list| && list[i] == u;
      SegmentSound(cat, b, pz, i);
    }
  }

  lemma ScannedStep(cat: Catalog, b: Board, f: Graph<FieldSegment>, g: Graph<FieldSegment>, h: Graph<FieldSegment>,
                    refs: map<FieldSegment, PlacedZone>, byZone: map<ZoneRef, seq<FieldSegment>>, done: set<PlacedZone>,
                    pz: PlacedZone)
    requires ValidCatalog(cat) && WellPlaced(cat, b) && OnBoard(cat, b, pz) && pz.def.kind == Field
    requires Scanned(cat, b, f, refs, byZone, done)
    requires Adding(cat, b, f, g, SegmentList(pz), |SegmentList(pz)|) && SegmentList(pz) != []
    requires Bundling(cat, b, g, h, SegmentList(pz), |SegmentList(pz)|)
    ensures Scanned(cat, b, h, RecordSegments(refs, pz), byZone[pz.Ref() := SegmentList(pz)], done + {pz})
  {
    RecordedStep(cat, b, refs, pz);
    AllListed(cat, b, byZone, pz);
    ExtendsTransitive(f, g, h);
    BundledNow(cat, b, g, h, pz);
    DoneStep(f, h, byZone, done, pz);
    KeysStep(cat, b, f, g, h, refs, pz);
  }

  lemma BundledNow(cat: Catalog, b: Board, g: Graph<FieldSegment>, h: Graph<FieldSegment>, pz: PlacedZone)
    requires SegmentList(pz) != [] && Bundling(cat, b, g, h, SegmentList(pz), |SegmentList(pz)|)
    ensures Bundled(h, pz)
  {}

  lemma AllListed(cat: Catalog, b: Board, byZone: map<ZoneRef, seq<FieldSegment>>, pz: PlacedZone)
    requires OnBoard(cat, b, pz) && pz.def.kind == Field
    requires forall z {:trigger ListedAt(cat, b, byZone, z)} :: z in byZone ==> ListedAt(cat, b, byZone, z)
    ensures forall z {:trigger ListedAt(cat, b, byZone[pz.Ref() := SegmentList(pz)], z)} ::
              z in byZone[pz.Ref() := SegmentList(pz)] ==> ListedAt(cat, b, byZone[pz.Ref() := SegmentList(pz)], z)
  {
    var next := byZone[pz.Ref() := SegmentList(pz)];
    forall z | z in next
      ensures ListedAt(cat, b, next, z)
    {
      assert z != pz.Ref() ==> ListedAt(cat, b, byZone, z);
      ListedStep(cat, b, byZone, pz, z);
    }
  }

  lemma KeysStep(cat: Catalog, b: Board, f: Graph<FieldSegment>, g: Graph<FieldSegment>, h: Graph<FieldSegment>,
                 refs: map<FieldSegment, PlacedZone>, pz: PlacedZone)
    requires refs.Keys == f.Keys && Adding(cat, b, f, g, SegmentList(pz), |SegmentList(pz)|) && h.Keys == g.Keys
    ensures RecordSegments(refs, pz).Keys == h.Keys
  {
    assert SegmentList(pz)[..|SegmentList(pz)|] == SegmentList(pz);
  }

  lemma DoneStep(f: Graph<FieldSegment>, h: Graph<FieldSegment>, byZone: map<ZoneRef, seq<FieldSegment>>,
                 done: set<PlacedZone>, pz: PlacedZone)
    requires Extends(f, h) && Bundled(h, pz)
    requires forall q {:trigger Bundled(f, q)} :: q in done ==> Bundled(f, q) && q.Ref() in byZone
    ensures forall q {:trigger Bundled(h, q)} :: q in done + {pz} ==>
              Bundled(h, q) && q.Ref() in byZone[pz.Ref() := SegmentList(pz)]
  {
    forall q | q in done + {pz}
      ensures Bundled(h, q) && q.Ref() in byZone[pz.Ref() := SegmentList(pz)]
    {
      if q in done {
        assert Bundled(f, q);
        BundledGrows(f, h, q);
      }
    }
  }

  lemma BundlingStart(cat: Catalog, b: Board, f: Graph<FieldSegment>, g: Graph<FieldSegment>, list: seq<FieldSegment>)
    requires Adding(cat, b, f, g, list, |list|) && list != []
    ensures Bundling(cat, b, g, g, list, 1)
  {
    assert list[..|list|] == list;
  }

  method ScanZone(cat: Catalog, b: Board, pz: PlacedZone, d: DisjointSet<FieldSegment>,
                  refs: map<FieldSegment, PlacedZone>, byZone: map<ZoneRef, seq<FieldSegment>>,
                  ghost done: set<PlacedZone>)
    returns (refs': map<FieldSegment, PlacedZone>, byZone': map<ZoneRef, seq<FieldSegment>>)
    requires ValidCatalog(cat) && WellPlaced(cat, b) && OnBoard(cat, b, pz) && pz.def.kind == Field
    requires d.Valid() && Scanned(cat, b, d.links, refs, byZone, done)
    modifies d
    ensures d.Valid() && Scanned(cat, b, d.links, refs', byZone', done + {pz})
  {
    assert ValidZone(pz.def, cat[pz.tile.tile].edges);
    ghost var f := d.links;
    AddSegments(cat, b, pz, d);
    ghost var g := d.links;
    BundlingStart(cat, b, f, g, SegmentList(pz));
    UnionSegments(cat, b, pz, d);
    ScannedStep(cat, b, f, g, d.links, refs, byZone, done, pz);
    refs', byZone' := RecordSegments(refs, pz), byZone[pz.Ref() := SegmentList(pz)];
  }

  /** Scans the field zones of every tile. */
  method ScanBoard(cat: Catalog, b: Board, d: DisjointSet<FieldSegment>)
    returns (refs: map<FieldSegment, PlacedZone>, byZone: map<ZoneRef, seq<FieldSegment>>, ghost done: set<PlacedZone>)
    requires ValidCatalog(cat) && WellPlaced(cat, b) && d.Valid() && d.links == map[]
    modifies d
    ensures d.Valid() && Scanned(cat, b, d.links, refs, byZone, done)
    ensures forall pz: PlacedZone :: OnBoard(cat, b, pz) && pz.def.kind == Field ==> pz in done
  {
    refs, byZone, done := map[], map[], {};
    for i := 0 to |b|
      invariant d.Valid() && Scanned(cat, b, d.links, refs, byZone, done)
      invariant forall pz: PlacedZone :: pz.tile in b[..i] && OnBoard(cat, b, pz) && pz.def.kind == Field ==> pz in done
    {
      var zones := cat[b[i].tile].zones;
      ghost var before := done;
      for k := 0 to |zones|
        invariant d.Valid() && Scanned(cat, b, d.links, refs, byZone, done) && before <= done
        invariant forall j :: 0 <= j < k && zones[j].kind == Field ==> PlacedZone(b[i], zones[j]) in done
      {
        if zones[k].kind == Field {
          var pz := PlacedZone(b[i], zones[k]);
          refs, byZone := ScanZone(cat, b, pz, d, refs, byZone, done);
          done := done + {pz};
        }
      }
      assert b[..i + 1] == b[..i] + [b[i]];
    }
    assert b[..|b|] == b;
  }

  // ---------------------------------------------------------------- crossing the borders

  /** The graph once the segments in crossed are joined across their borders. */
  ghost predicate Crossing(cat: Catalog, b: Board, g: Graph<FieldSegment>, h: Graph<FieldSegment>,
                           refs: map<FieldSegment, PlacedZone>, todo: set<FieldSegment>)
  {
    && Sound(cat, b, h) && Extends(g, h) && h.Keys == g.Keys
    && forall u {:trigger Crossed(cat, b, h, refs[u], u.segment)} :: u in refs && u !in todo ==>
        Crossed(cat, b, h, refs[u], u.segment)
  }

  /** Border segments of fields meet field segments of the board. */
  lemma BorderSegment(cat: Catalog, b: Board, u: FieldSegment, pz: PlacedZone)
    requires ValidCatalog(cat) && WellPlaced(cat, b) && IsSegment(cat, b, u, pz)
    requires Across(cat, b, pz.tile, Field, u.segment).Some?
    ensures BorderNeighbor(u.segment).Some?
    ensures var q := Across(cat, b, pz.tile, Field, u.segment).value;
            var v := SegmentOf(q, BorderNeighbor(u.segment).value.segment);
            && IsFieldSegment(cat, b, v)
            && v.Zone() in Class(cat, b, u.Zone()) && u.Zone() in Class(cat, b, v.Zone())
  {
    AcrossSound(cat, b, pz.tile, Field, u.segment);
    var q := Across(cat, b, pz.tile, Field, u.segment).value;
    NeighborsSymmetric(cat, b);
    Resolves(cat, b, u.Zone(), pz);
    Resolves(cat, b, q.Ref(), q);
    assert q.Ref() in Neighbors(cat, b, pz);
    assert IsSegment(cat, b, SegmentOf(q, BorderNeighbor(u.segment).value.segment), q);
    Edge(ZoneGraph(cat, b), u.Zone(), q.Ref());
    Edge(ZoneGraph(cat, b), q.Ref(), u.Zone());
  }

  lemma CrossingStep(cat: Catalog, b: Board, g: Graph<FieldSegment>, h: Graph<FieldSegment>,
                     refs: map<FieldSegment, PlacedZone>, todo: set<FieldSegment>, u: FieldSegment)
    requires ValidCatalog(cat) && WellPlaced(cat, b) && Crossing(cat, b, g, h, refs, todo) && u in h && u in refs
    requires IsSegment(cat, b, u, refs[u]) && forall v :: IsFieldSegment(cat, b, v) ==> v in h
    ensures var found := Across(cat, b, refs[u].tile, Field, u.segment);
            match found
            case None => Crossing(cat, b, g, h, refs, todo - {u})
            case Some(q) =>
              && BorderNeighbor(u.segment).Some?
              && var v := SegmentOf(q, BorderNeighbor(u.segment).value.segment);
              && v in h && Crossing(cat, b, g, Linked(h, u, v), refs, todo - {u})
  {
    var found := Across(cat, b, refs[u].tile, Field, u.segment);
    if found.Some? {
      BorderSegment(cat, b, u, refs[u]);
      var v := SegmentOf(found.value, BorderNeighbor(u.segment).value.segment);
      LinkKeepsSound(cat, b, h, u, v);
      ExtendsTransitive(g, h, Linked(h, u, v));
      assert SegmentOf(refs[u], u.segment) == u;
      forall w | w in refs && w !in todo - {u}
        ensures Crossed(cat, b, Linked(h, u, v), refs[w], w.segment)
      {
        if w != u {
          assert Crossed(cat, b, h, refs[w], w.segment);
          CrossedGrows(cat, b, h, Linked(h, u, v), refs[w], w.segment);
        }
      }
    }
  }

  lemma CrossedGrows(cat: Catalog, b: Board, g: Graph<FieldSegment>, h: Graph<FieldSegment>, pz: PlacedZone, s: Segment)
    requires Crossed(cat, b, g, pz, s) && Extends(g, h)
    ensures Crossed(cat, b, h, pz, s)
  {}

  method CrossBorders(cat: Catalog, b: Board, d: DisjointSet<FieldSegment>, refs: map<FieldSegment, PlacedZone>)
    requires ValidCatalog(cat) && WellPlaced(cat, b) && d.Valid() && d.links.Keys == refs.Keys && Sound(cat, b, d.links)
    requires forall u :: IsFieldSegment(cat, b, u) ==> u in refs
    requires forall u :: u in refs ==> IsSegment(cat, b, u, refs[u])
    modifies d
    ensures d.Valid() && Crossing(cat, b, old(d.links), d.links, refs, {})
  {
    var todo := refs.Keys;
    while todo != {}
      invariant todo <= refs.Keys && d.Valid() && Crossing(cat, b, old(d.links), d.links, refs, todo)
      decreases todo
    {
      var u :| u in todo;
      CrossingStep(cat, b, old(d.links), d.links, refs, todo, u);
      var found := Across(cat, b, refs[u].tile, Field, u.segment);
      if found.Some? {
        d.Union(u, SegmentOf(found.value, BorderNeighbor(u.segment).value.segment));
      }
      todo := todo - {u};
    }
  }

  // ---------------------------------------------------------------- the finished graph

  datatype FieldGraph = FieldGraph(
    dsu: DisjointSet<FieldSegment>,
    segmentByRef: map<FieldSegment, PlacedZone>,
    segmentsByZone: map<ZoneRef, seq<FieldSegment>>,
    segmentsByRoot: map<FieldSegment, seq<FieldSegment>>,
    meeplesByRoot: map<FieldSegment, map<Id, nat>>)
  {
    ghost predicate Valid(cat: Catalog, b: Board, ms: seq<Meeple>)
      reads dsu
    {
      && dsu.Valid() && Indexed(cat, b, dsu.root, segmentByRef, segmentsByZone)
      && GroupedByRoot(dsu.root, segmentsByRoot, {})
      && MeeplesWeighed(cat, b, dsu.root, ms, meeplesByRoot)
    }
  }

  /** Every field zone is listed with its segments, and the roots cut the segments into fields. */
  ghost predicate Indexed(cat: Catalog, b: Board, root: map<FieldSegment, FieldSegment>,
                          refs: map<FieldSegment, PlacedZone>, byZone: map<ZoneRef, seq<FieldSegment>>)
  {
    && FieldPartition(cat, b, root) && refs.Keys == root.Keys
    && (forall u :: u in refs ==> IsSegment(cat, b, u, refs[u]))
    && (forall z {:trigger ListedAt(cat, b, byZone, z)} :: z in byZone ==> ListedAt(cat, b, byZone, z))
    && (forall pz: PlacedZone :: OnBoard(cat, b, pz) && pz.def.kind == Field ==> pz.Ref() in byZone)
  }

  /** Segments outside todo are listed under their root, and nothing else is listed. */
  ghost predicate GroupedByRoot(root: map<FieldSegment, FieldSegment>, byRoot: map<FieldSegment, seq<FieldSegment>>,
                                todo: set<FieldSegment>)
  {
    && (forall u {:trigger root[u]} :: u in root && u !in todo ==> root[u] in byRoot && u in byRoot[root[u]])
    && (forall r, u :: r in byRoot && u in byRoot[r] ==> u in root && root[u] == r)
  }

  /** The weights recorded for a field are those of the meeples anywhere on it. */
  ghost predicate WeighedAt(cat: Catalog, b: Board, root: map<FieldSegment, FieldSegment>, ms: seq<Meeple>,
                            weights: map<FieldSegment, map<Id, nat>>, r: FieldSegment)
  {
    r in weights && r in root && root[r] == r && weights[r] != map[] && Weighs(ms, Class(cat, b, r.Zone()), weights[r])
  }

  /** Exactly the occupied fields have recorded weights, each farmer counted once per field. */
  ghost predicate MeeplesWeighed(cat: Catalog, b: Board, root: map<FieldSegment, FieldSegment>, ms: seq<Meeple>,
                                 weights: map<FieldSegment, map<Id, nat>>)
  {
    && (forall r {:trigger WeighedAt(cat, b, root, ms, weights, r)} :: r in weights ==>
        WeighedAt(cat, b, root, ms, weights, r))
    && (forall m {:trigger FarmerSeen(root, weights, m)} :: m in ms ==> FarmerSeen(root, weights, m))
  }

  ghost predicate FarmerSeen(root: map<FieldSegment, FieldSegment>, weights: map<FieldSegment, map<Id, nat>>,
                             m: Meeple) {
    forall u :: u in root && u.Zone() == m.Ref() ==> root[u] in weights
  }

  lemma ScanAndCrossComplete(cat: Catalog, b: Board, g: Graph<FieldSegment>, h: Graph<FieldSegment>,
                             refs: map<FieldSegment, PlacedZone>, byZone: map<ZoneRef, seq<FieldSegment>>,
                             done: set<PlacedZone>)
    requires ValidCatalog(cat) && WellPlaced(cat, b) && Scanned(cat, b, g, refs, byZone, done)
    requires forall pz: PlacedZone :: OnBoard(cat, b, pz) && pz.def.kind == Field ==> pz in done
    requires Crossing(cat, b, g, h, refs, {})
    ensures Complete(cat, b, h)
    ensures forall pz: PlacedZone :: OnBoard(cat, b, pz) && pz.def.kind == Field ==> pz.Ref() in byZone
  {
    ExtendBundles(cat, b, g, h, refs, byZone, done);
    forall u, pz | IsSegment(cat, b, u, pz)
      ensures Crossed(cat, b, h, pz, u.segment)
    {
      ScannedHasSegment(cat, b, g, refs, byZone, done, u, pz);
      CrossedAll(cat, b, g, h, refs, u, pz);
    }
  }

  lemma CrossedAll(cat: Catalog, b: Board, g: Graph<FieldSegment>, h: Graph<FieldSegment>,
                   refs: map<FieldSegment, PlacedZone>, u: FieldSegment, pz: PlacedZone)
    requires ValidCatalog(cat) && WellPlaced(cat, b) && Crossing(cat, b, g, h, refs, {}) && IsSegment(cat, b, u, pz)
    requires u in refs && IsSegment(cat, b, u, refs[u])
    ensures Crossed(cat, b, h, pz, u.segment)
  {
    SameSegment(cat, b, u, pz, refs[u]);
    assert Crossed(cat, b, h, refs[u], u.segment);
  }

  lemma SameSegment(cat: Catalog, b: Board, u: FieldSegment, pz: PlacedZone, q: PlacedZone)
    requires ValidCatalog(cat) && WellPlaced(cat, b) && IsSegment(cat, b, u, pz) && IsSegment(cat, b, u, q)
    ensures pz == q
  {
    Resolves(cat, b, u.Zone(), pz);
    Resolves(cat, b, u.Zone(), q);
  }

  lemma ExtendBundles(cat: Catalog, b: Board, g: Graph<FieldSegment>, h: Graph<FieldSegment>,
                      refs: map<FieldSegment, PlacedZone>, byZone: map<ZoneRef, seq<FieldSegment>>,
                      done: set<PlacedZone>)
    requires Scanned(cat, b, g, refs, byZone, done) && Extends(g, h)
    requires forall pz: PlacedZone :: OnBoard(cat, b, pz) && pz.def.kind == Field ==> pz in done
    ensures forall pz {:trigger Bundled(h, pz)} :: OnBoard(cat, b, pz) && pz.def.kind == Field ==> Bundled(h, pz)
    ensures forall pz: PlacedZone :: OnBoard(cat, b, pz) && pz.def.kind == Field ==> pz.Ref() in byZone
  {
    forall pz | OnBoard(cat, b, pz) && pz.def.kind == Field
      ensures Bundled(h, pz) && pz.Ref() in byZone
    {
      assert Bundled(g, pz);
      BundledGrows(g, h, pz);
    }
  }

  lemma ScannedHasSegment(cat: Catalog, b: Board, g: Graph<FieldSegment>, refs: map<FieldSegment, PlacedZone>,
                          byZone: map<ZoneRef, seq<FieldSegment>>, done: set<PlacedZone>, u: FieldSegment,
                          pz: PlacedZone)
    requires Scanned(cat, b, g, refs, byZone, done) && IsSegment(cat, b, u, pz) && pz in done
    ensures u in refs
  {
    assert Bundled(g, pz);
    var segments := pz.Segments();
    var i :| 0 <= i < |segments| && segments[i] == u.segment;
    assert SegmentList(pz)[i] == u;
  }

  method GroupSegments(d: DisjointSet<FieldSegment>, refs: map<FieldSegment, PlacedZone>)
    returns (byRoot: map<FieldSegment, seq<FieldSegment>>)
    requires d.Valid() && refs.Keys == d.root.Keys
    modifies d`parent
    ensures d.Valid() && GroupedByRoot(d.root, byRoot, {})
  {
    byRoot := map[];
    var todo := refs.Keys;
    while todo != {}
      invariant todo <= refs.Keys && d.Valid() && GroupedByRoot(d.root, byRoot, todo)
      decreases todo
    {
      var u :| u in todo;
      var found := d.Find(u);
      var r := found.value;
      GroupStep(d.root, byRoot, todo, u);
      byRoot := byRoot[r := (if r in byRoot then byRoot[r] else []) + [u]];
      todo := todo - {u};
    }
  }

  lemma GroupStep(root: map<FieldSegment, FieldSegment>, byRoot: map<FieldSegment, seq<FieldSegment>>,
                  todo: set<FieldSegment>, u: FieldSegment)
    requires GroupedByRoot(root, byRoot, todo) && u in root
    ensures GroupedByRoot(root, byRoot[root[u] := (if root[u] in byRoot then byRoot[root[u]] else []) + [u]],
              todo - {u})
  {}

  // ---------------------------------------------------------------- weighing the farmers

  /** The distinct roots of the segments of one zone. */
  method RootsOf(d: DisjointSet<FieldSegment>, segments: seq<FieldSegment>, ghost r: FieldSegment)
    returns (roots: seq<FieldSegment>)
    requires d.Valid() && forall u :: u in segments ==> u in d.root && d.root[u] == r
    modifies d`parent
    ensures d.Valid() && roots == if segments == [] then [] else [r]
  {
    roots := [];
    for i := 0 to |segments|
      invariant d.Valid() && roots == if i == 0 then [] else [r]
    {
      var found := d.Find(segments[i]);
      assert segments[i] in segments;
      if found.value !in roots {
        roots := roots + [found.value];
      }
    }
  }

  lemma ListedZone(cat: Catalog, b: Board, byZone: map<ZoneRef, seq<FieldSegment>>, z: ZoneRef) returns (pz: PlacedZone)
    requires ValidCatalog(cat) && WellPlaced(cat, b) && ListedAt(cat, b, byZone, z)
    ensures OnBoard(cat, b, pz) && pz.Ref() == z && pz.def.kind == Field && byZone[z] == SegmentList(pz)
    ensures byZone[z] != []
    ensures z in Zones(cat, b) && z in Class(cat, b, z) && KindOf(cat, b, z) == Some(Field)
  {
    pz :| OnBoard(cat, b, pz) && pz.Ref() == z && pz.def.kind == Field && byZone[z] == SegmentList(pz);
    assert ValidZone(pz.def, cat[pz.tile.tile].edges);
    Resolves(cat, b, z, pz);
    SegmentSound(cat, b, pz, 0);
  }

  /** r is the root of the field the zone belongs to. */
  ghost predicate RootOfZone(cat: Catalog, b: Board, root: map<FieldSegment, FieldSegment>, z: ZoneRef,
                             r: FieldSegment) {
    r in root && root[r] == r && z in Class(cat, b, r.Zone())
  }

  lemma ListedSegment(cat: Catalog, b: Board, root: map<FieldSegment, FieldSegment>,
                      refs: map<FieldSegment, PlacedZone>, byZone: map<ZoneRef, seq<FieldSegment>>, z: ZoneRef,
                      u: FieldSegment)
    requires ValidCatalog(cat) && WellPlaced(cat, b) && Indexed(cat, b, root, refs, byZone) && z in byZone
    requires u in byZone[z]
    ensures u in root && u.Zone() == z
  {
    assert ListedAt(cat, b, byZone, z);
    var pz := ListedZone(cat, b, byZone, z);
    var i :| 0 <= i < |SegmentList(pz)| && SegmentList(pz)[i] == u;
    SegmentSound(cat, b, pz, i);
  }

  lemma RootFound(cat: Catalog, b: Board, root: map<FieldSegment, FieldSegment>, u: FieldSegment)
    requires ValidCatalog(cat) && WellPlaced(cat, b) && FieldPartition(cat, b, root) && u in root
    requires root[u] in root && root[root[u]] == root[u]
    ensures RootOfZone(cat, b, root, u.Zone(), root[u])
  {
    assert SameField(cat, b, root, root[u], u);
  }

  /** The roots of a zone: the one root of its field for a field zone, none for any other zone. */
  method RootsForZone(cat: Catalog, b: Board, d: DisjointSet<FieldSegment>, refs: map<FieldSegment, PlacedZone>,
                      byZone: map<ZoneRef, seq<FieldSegment>>, ref: ZoneRef)
    returns (roots: seq<FieldSegment>)
    requires ValidCatalog(cat) && WellPlaced(cat, b) && d.Valid() && Indexed(cat, b, d.root, refs, byZone)
    modifies d`parent
    ensures d.Valid()
    ensures if ref in byZone then |roots| == 1 && RootOfZone(cat, b, d.root, ref, roots[0]) else roots == []
  {
    roots := [];
    if ref in byZone {
      ghost var r := ListedRoot(cat, b, d, refs, byZone, ref);
      roots := RootsOf(d, byZone[ref], r);
    }
  }

  lemma ListedRoot(cat: Catalog, b: Board, d: DisjointSet<FieldSegment>, refs: map<FieldSegment, PlacedZone>,
                   byZone: map<ZoneRef, seq<FieldSegment>>, z: ZoneRef)
    returns (r: FieldSegment)
    requires ValidCatalog(cat) && WellPlaced(cat, b) && d.Valid() && Indexed(cat, b, d.root, refs, byZone)
    requires z in byZone
    ensures RootOfZone(cat, b, d.root, z, r) && byZone[z] != []
    ensures forall u :: u in byZone[z] ==> u in d.root && d.root[u] == r
  {
    assert ListedAt(cat, b, byZone, z);
    var pz := ListedZone(cat, b, byZone, z);
    var first := byZone[z][0];
    ListedSegment(cat, b, d.root, refs, byZone, z, first);
    RootIsRoot(d, first);
    r := d.root[first];
    RootFound(cat, b, d.root, first);
    forall u | u in byZone[z]
      ensures u in d.root && d.root[u] == r
    {
      ListedSegment(cat, b, d.root, refs, byZone, z, u);
      assert SameField(cat, b, d.root, first, u);
    }
  }

  function AddedWeight(weights: map<FieldSegment, map<Id, nat>>, r: FieldSegment,
                       m: Meeple): map<FieldSegment, map<Id, nat>>
  {
    var w := if r in weights then weights[r] else map[];
    weights[r := w[m.actor := Tally(w, m.actor) + m.Weight()]]
  }

  lemma TallyStep(ms: seq<Meeple>, m: Meeple, zones: set<ZoneRef>, w: map<Id, nat>)
    requires Weighs(ms, zones, w) && m.Ref() in zones
    ensures Weighs(ms + [m], zones, w[m.actor := Tally(w, m.actor) + m.Weight()])
  {
    OnSnoc(ms, m, zones);
    var w' := w[m.actor := Tally(w, m.actor) + m.Weight()];
    forall a
      ensures Tally(w', a) == WeightOn(ms + [m], zones, a)
    {
      assert Tally(w, a) == WeightOn(ms, zones, a);
    }
  }

  lemma TallyElsewhere(ms: seq<Meeple>, m: Meeple, zones: set<ZoneRef>, w: map<Id, nat>)
    requires Weighs(ms, zones, w) && m.Ref() !in zones
    ensures Weighs(ms + [m], zones, w)
  {
    OnSnoc(ms, m, zones);
    forall a
      ensures Tally(w, a) == WeightOn(ms + [m], zones, a)
    {
      assert Tally(w, a) == WeightOn(ms, zones, a);
    }
  }

  lemma FarmerAtRoot(cat: Catalog, b: Board, root: map<FieldSegment, FieldSegment>, ms: seq<Meeple>, m: Meeple,
                     weights: map<FieldSegment, map<Id, nat>>, r: FieldSegment)
    requires ValidCatalog(cat) && WellPlaced(cat, b) && FieldPartition(cat, b, root)
    requires RootOfZone(cat, b, root, m.Ref(), r)
    requires MeeplesWeighed(cat, b, root, ms, weights)
    ensures WeighedAt(cat, b, root, ms + [m], AddedWeight(weights, r, m), r)
  {
    if r in weights {
      assert WeighedAt(cat, b, root, ms, weights, r);
    } else {
      UnweighedField(cat, b, root, ms, weights, r);
    }
    AddedAtRoot(ms, m, Class(cat, b, r.Zone()), weights, r);
  }

  lemma AddedAtRoot(ms: seq<Meeple>, m: Meeple, field: set<ZoneRef>, weights: map<FieldSegment, map<Id, nat>>,
                    r: FieldSegment)
    requires Weighs(ms, field, if r in weights then weights[r] else map[]) && m.Ref() in field
    ensures Weighs(ms + [m], field, AddedWeight(weights, r, m)[r]) && AddedWeight(weights, r, m)[r] != map[]
  {
    TallyStep(ms, m, field, if r in weights then weights[r] else map[]);
    assert m.actor in AddedWeight(weights, r, m)[r];
  }

  lemma FarmerElsewhere(cat: Catalog, b: Board, root: map<FieldSegment, FieldSegment>, ms: seq<Meeple>, m: Meeple,
                        weights: map<FieldSegment, map<Id, nat>>, r: FieldSegment, t: FieldSegment)
    requires ValidCatalog(cat) && WellPlaced(cat, b) && FieldPartition(cat, b, root)
    requires RootOfZone(cat, b, root, m.Ref(), r)
    requires WeighedAt(cat, b, root, ms, weights, t) && t != r
    ensures WeighedAt(cat, b, root, ms + [m], AddedWeight(weights, r, m), t)
  {
    NeighborsSymmetric(cat, b);
    FieldZone(cat, b, root, r);
    FieldZone(cat, b, root, t);
    Partition(ZoneGraph(cat, b), t.Zone(), r.Zone());
    assert SameField(cat, b, root, t, r);
    TallyElsewhere(ms, m, Class(cat, b, t.Zone()), weights[t]);
  }

  lemma FarmerStep(cat: Catalog, b: Board, root: map<FieldSegment, FieldSegment>, ms: seq<Meeple>, m: Meeple,
                   weights: map<FieldSegment, map<Id, nat>>, r: FieldSegment)
    requires ValidCatalog(cat) && WellPlaced(cat, b) && FieldPartition(cat, b, root)
    requires RootOfZone(cat, b, root, m.Ref(), r)
    requires MeeplesWeighed(cat, b, root, ms, weights)
    ensures MeeplesWeighed(cat, b, root, ms + [m], AddedWeight(weights, r, m))
  {
    var weights' := AddedWeight(weights, r, m);
    forall t | t in weights'
      ensures WeighedAt(cat, b, root, ms + [m], weights', t)
    {
      if t == r {
        FarmerAtRoot(cat, b, root, ms, m, weights, r);
      } else {
        assert WeighedAt(cat, b, root, ms, weights, t);
        FarmerElsewhere(cat, b, root, ms, m, weights, r, t);
      }
    }
    forall k | k in ms + [m]
      ensures FarmerSeen(root, weights', k)
    {
      if k in ms {
        assert FarmerSeen(root, weights, k);
      } else {
        assert forall u :: u in root && u.Zone() == m.Ref() ==> SameField(cat, b, root, r, u);
      }
    }
  }

  lemma SegmentInClass(cat: Catalog, b: Board, field: ZoneRef, z: ZoneRef) returns (u: FieldSegment)
    requires ValidCatalog(cat) && WellPlaced(cat, b) && KindOf(cat, b, field) == Some(Field) && field in Zones(cat, b)
    requires z in Class(cat, b, field)
    ensures IsFieldSegment(cat, b, u) && u.Zone() == z
  {
    ClassHasOneKind(cat, b, field, z);
    ResolvesIff(cat, b, z);
    var pz := GetPlacedZone(cat, b, z).value;
    assert ValidZone(pz.def, cat[pz.tile.tile].edges);
    SegmentSound(cat, b, pz, 0);
    u := SegmentList(pz)[0];
  }

  lemma FarmerWeighed(cat: Catalog, b: Board, root: map<FieldSegment, FieldSegment>, ms: seq<Meeple>,
                      weights: map<FieldSegment, map<Id, nat>>, r: FieldSegment, m: Meeple)
    requires ValidCatalog(cat) && WellPlaced(cat, b) && FieldPartition(cat, b, root)
    requires MeeplesWeighed(cat, b, root, ms, weights)
    requires r in root && root[r] == r && m in ms && m.Ref() in Class(cat, b, r.Zone())
    ensures r in weights
  {
    FieldZone(cat, b, root, r);
    var u := SegmentInClass(cat, b, r.Zone(), m.Ref());
    assert SameField(cat, b, root, r, u);
    assert FarmerSeen(root, weights, m);
  }

  lemma UnweighedField(cat: Catalog, b: Board, root: map<FieldSegment, FieldSegment>, ms: seq<Meeple>,
                       weights: map<FieldSegment, map<Id, nat>>, r: FieldSegment)
    requires ValidCatalog(cat) && WellPlaced(cat, b) && FieldPartition(cat, b, root)
    requires MeeplesWeighed(cat, b, root, ms, weights)
    requires r in root && root[r] == r && r !in weights
    ensures !Occupied(ms, Class(cat, b, r.Zone())) && Weighs(ms, Class(cat, b, r.Zone()), map[])
  {
    forall m | m in ms
      ensures m.Ref() !in Class(cat, b, r.Zone())
    {
      if m.Ref() in Class(cat, b, r.Zone()) {
        FarmerWeighed(cat, b, root, ms, weights, r, m);
      }
    }
    forall a
      ensures WeightOn(ms, Class(cat, b, r.Zone()), a) == 0
    {
      WeightPositive(ms, Class(cat, b, r.Zone()), a);
    }
  }

  lemma OtherMeepleStep(cat: Catalog, b: Board, root: map<FieldSegment, FieldSegment>,
                        refs: map<FieldSegment, PlacedZone>, byZone: map<ZoneRef, seq<FieldSegment>>, ms: seq<Meeple>,
                        m: Meeple, weights: map<FieldSegment, map<Id, nat>>)
    requires ValidCatalog(cat) && WellPlaced(cat, b) && Indexed(cat, b, root, refs, byZone) && m.Ref() !in byZone
    requires MeeplesWeighed(cat, b, root, ms, weights)
    ensures MeeplesWeighed(cat, b, root, ms + [m], weights)
  {
    forall t | t in weights
      ensures WeighedAt(cat, b, root, ms + [m], weights, t)
    {
      assert WeighedAt(cat, b, root, ms, weights, t);
      OffTheFields(cat, b, root, refs, byZone, m, t);
      OnSnoc(ms, m, Class(cat, b, t.Zone()));
    }
    forall k | k in ms + [m]
      ensures FarmerSeen(root, weights, k)
    {
      if k in ms {
        assert FarmerSeen(root, weights, k);
      } else {
        forall u | u in root
          ensures u.Zone() != m.Ref()
        {
          OffTheFields(cat, b, root, refs, byZone, m, u);
          FieldZone(cat, b, root, u);
        }
      }
    }
  }

  lemma OffTheFields(cat: Catalog, b: Board, root: map<FieldSegment, FieldSegment>, refs: map<FieldSegment, PlacedZone>,
                     byZone: map<ZoneRef, seq<FieldSegment>>, m: Meeple, t: FieldSegment)
    requires ValidCatalog(cat) && WellPlaced(cat, b) && Indexed(cat, b, root, refs, byZone) && t in root
    ensures m.Ref() in Class(cat, b, t.Zone()) ==> m.Ref() in byZone
  {
    if m.Ref() in Class(cat, b, t.Zone()) {
      FieldZone(cat, b, root, t);
      ClassHasOneKind(cat, b, t.Zone(), m.Ref());
      ResolvesIff(cat, b, m.Ref());
    }
  }

  method WeighFarmers(cat: Catalog, b: Board, ms: seq<Meeple>, d: DisjointSet<FieldSegment>,
                      refs: map<FieldSegment, PlacedZone>, byZone: map<ZoneRef, seq<FieldSegment>>)
    returns (weights: map<FieldSegment, map<Id, nat>>)
    requires ValidCatalog(cat) && WellPlaced(cat, b) && d.Valid() && Indexed(cat, b, d.root, refs, byZone)
    modifies d`parent
    ensures d.Valid() && MeeplesWeighed(cat, b, d.root, ms, weights)
  {
    weights := map[];
    for i := 0 to |ms|
      invariant d.Valid() && MeeplesWeighed(cat, b, d.root, ms[..i], weights)
    {
      var m := ms[i];
      assert ms[..i + 1] == ms[..i] + [m];
      if m.Ref() in byZone {
        var roots := RootsForZone(cat, b, d, refs, byZone, m.Ref());
        FarmerStep(cat, b, d.root, ms[..i], m, weights, roots[0]);
        weights := AddedWeight(weights, roots[0], m);
      } else {
        OtherMeepleStep(cat, b, d.root, refs, byZone, ms[..i], m, weights);
      }
    }
    assert ms[..|ms|] == ms;
  }

  lemma RootIsRoot(d: DisjointSet<FieldSegment>, u: FieldSegment)
    requires d.Valid() && u in d.root
    ensures d.root[u] in d.root && d.root[d.root[u]] == d.root[u]
  {
    assert Hangs(d.parent, d.root, d.rank, u);
    assert Hangs(d.parent, d.root, d.rank, d.root[u]);
  }

  method BuildFieldGraph(cat: Catalog, b: Board, ms: seq<Meeple>) returns (g: FieldGraph)
    requires ValidCatalog(cat) && WellPlaced(cat, b)
    ensures fresh(g.dsu) && g.Valid(cat, b, ms)
  {
    var d := new DisjointSet<FieldSegment>();
    var refs, byZone, done := ScanBoard(cat, b, d);
    ghost var scanned := d.links;
    forall u | IsFieldSegment(cat, b, u)
      ensures u in refs
    {
      var pz :| IsSegment(cat, b, u, pz);
      ScannedHasSegment(cat, b, d.links, refs, byZone, done, u, pz);
    }
    CrossBorders(cat, b, d, refs);
    ScanAndCrossComplete(cat, b, scanned, d.links, refs, byZone, done);
    PartitionCorrect(cat, b, d.root, d.links);
    assert Indexed(cat, b, d.root, refs, byZone);
    var byRoot := GroupSegments(d, refs);
    var weights := WeighFarmers(cat, b, ms, d, refs, byZone);
    g := FieldGraph(d, refs, byZone, byRoot, weights);
  }
}
