/** Finding the roads, cities and fields that are paid at the end of the game, each exactly once. */
module FinalFeatures {
  import opened Tiles
  import opened Graphs
  import opened Topology
  import opened Pieces
  import opened FeatureGraph
  import opened DisjointSets
  import opened FieldGraphs
  import opened FieldCities
  import opened GameStates
  import opened FinalScores
  import opened BoardOrders
  import opened Sorting

  // ---------------------------------------------------------------- roads and cities

  /** The feature was found from a zone that carries a meeple. */
  ghost predicate Found(cat: Catalog, b: Board, ms: seq<Meeple>, f: Feature, start: ZoneRef) {
    f.kind in {Road, City} && start in Zones(cat, b) && IsFeature(cat, b, ms, start, f) && exists m ::
        m in ms && m.Ref() == start
  }

  ghost predicate AllFound(cat: Catalog, b: Board, ms: seq<Meeple>, fs: seq<Feature>, starts: seq<ZoneRef>) {
    |fs| == |starts| && forall i {:trigger fs[i]} :: 0 <= i < |fs| ==> Found(cat, b, ms, fs[i], starts[i])
  }

  ghost predicate SameClass(cat: Catalog, b: Board, u: ZoneRef, v: ZoneRef) {
    Class(cat, b, u) == Class(cat, b, v)
  }

  ghost predicate AllDifferent(cat: Catalog, b: Board, starts: seq<ZoneRef>) {
    forall i, j {:trigger SameClass(cat, b, starts[i], starts[j])} :: 0 <= i < j < |starts| ==>
        !SameClass(cat, b, starts[i], starts[j])
  }

  /** The class of the zone is among those started from. */
  ghost predicate Has(cat: Catalog, b: Board, starts: seq<ZoneRef>, ref: ZoneRef) {
    exists i :: 0 <= i < |starts| && SameClass(cat, b, starts[i], ref)
  }

  /** seen holds exactly the canonical references of the classes started from. */
  ghost predicate Seen(cat: Catalog, b: Board, starts: seq<ZoneRef>, seen: set<ZoneRef>) {
    forall u, r {:trigger IsLeast(r, Class(cat, b, u))} :: u in Zones(cat, b) && IsLeast(r, Class(cat, b, u)) ==>
        (r in seen <==> Has(cat, b, starts, u))
  }

  predicate IsRoadOrCity(cat: Catalog, b: Board, m: Meeple) {
    match GetPlacedZone(cat, b, m.Ref())
    case None => false
    case Some(pz) => pz.def.kind == Road || pz.def.kind == City
  }

  /** The occupied roads and cities, each listed once, however many meeples stand on it. */
  ghost predicate FinalList(cat: Catalog, b: Board, ms: seq<Meeple>, n: nat, fs: seq<Feature>, starts: seq<ZoneRef>)
    requires n <= |ms|
  {
    && AllFound(cat, b, ms, fs, starts) && AllDifferent(cat, b, starts)
    && forall k {:trigger ms[k]} :: 0 <= k < n && IsRoadOrCity(cat, b, ms[k]) ==> Has(cat, b, starts, ms[k].Ref())
  }

  /** What the loop over the first n meeples has established. */
  ghost predicate Listing(cat: Catalog, b: Board, ms: seq<Meeple>, n: nat, fs: seq<Feature>, starts: seq<ZoneRef>,
                          seen: set<ZoneRef>)
    requires n <= |ms|
  {
    FinalList(cat, b, ms, n, fs, starts) && Seen(cat, b, starts, seen)
  }

  /** Lists the occupied roads and cities, each once, in board order: roads first, then by the first zone of each. */
  method FinalOccupiedRoadsAndCities(cat: Catalog, b: Board, ms: seq<Meeple>)
    returns (fs: seq<Feature>, ghost starts: seq<ZoneRef>)
    requires ValidCatalog(cat) && WellPlaced(cat, b)
    ensures FinalList(cat, b, ms, |ms|, fs, starts)
    ensures NoneShared(fs)
    ensures forall m :: m in ms && IsRoadOrCity(cat, b, m) ==> exists f :: f in fs && m.Ref() in f.zones
    ensures InPlace(b, fs)
  {
    var found, from := ListOccupied(cat, b, ms);
    var entries := EntriesOf(b, found, from);
    EntriesListed(cat, b, ms, found, from);
    var sorted := Arranged((e, f) => EntryBefore(b, e, f), entries);
    EntriesArranged(cat, b, ms, entries);
    fs, starts := FeaturesOf(sorted), StartsOf(sorted);
    SortedIsList(cat, b, ms, sorted);
    EachMeepleOnce(cat, b, ms, fs, starts);
  }

  method ListOccupied(cat: Catalog, b: Board, ms: seq<Meeple>) returns (fs: seq<Feature>, starts: seq<ZoneRef>)
    requires ValidCatalog(cat) && WellPlaced(cat, b)
    ensures FinalList(cat, b, ms, |ms|, fs, starts)
  {
    fs, starts := [], [];
    var seen: set<ZoneRef> := {};
    for i := 0 to |ms|
      invariant Listing(cat, b, ms, i, fs, starts, seen)
    {
      if IsRoadOrCity(cat, b, ms[i]) {
        var f, identity := OccupiedFeature(cat, b, ms, i);
        ListingStep(cat, b, ms, i, fs, starts, seen, f, identity);
        if identity !in seen {
          fs, starts, seen := fs + [f], starts + [ms[i].Ref()], seen + {identity};
        }
      } else {
        SkipMeeple(cat, b, ms, i, fs, starts);
      }
    }
  }

  // ---------------------------------------------------------------- the order of roads and cities

  function PlaceOf(b: Board, f: Feature): Place {
    Place(f.kind, FirstRef(b, f.zones))
  }

  /** Roads before cities, and each kind in the order of the first zones. */
  ghost predicate InPlace(b: Board, fs: seq<Feature>) {
    forall i, j :: 0 <= i < j < |fs| ==> PlaceBefore(b, PlaceOf(b, fs[i]), PlaceOf(b, fs[j]))
  }

  datatype Entry = Entry(place: Place, feature: Feature, start: ZoneRef)

  predicate EntryBefore(b: Board, e: Entry, f: Entry) {
    PlaceBefore(b, e.place, f.place)
  }

  function EntriesOf(b: Board, fs: seq<Feature>, starts: seq<ZoneRef>): (es: seq<Entry>)
    requires |fs| == |starts|
    ensures |es| == |fs| && forall i :: 0 <= i < |fs| ==> es[i] == Entry(PlaceOf(b, fs[i]), fs[i], starts[i])
  {
    seq(|fs|, i requires 0 <= i < |fs| => Entry(PlaceOf(b, fs[i]), fs[i], starts[i]))
  }

  function FeaturesOf(es: seq<Entry>): (fs: seq<Feature>)
    ensures |fs| == |es| && forall i :: 0 <= i < |es| ==> fs[i] == es[i].feature
  {
    seq(|es|, i requires 0 <= i < |es| => es[i].feature)
  }

  function StartsOf(es: seq<Entry>): (starts: seq<ZoneRef>)
    ensures |starts| == |es| && forall i :: 0 <= i < |es| ==> starts[i] == es[i].start
  {
    seq(|es|, i requires 0 <= i < |es| => es[i].start)
  }

  /** The entries stand for the occupied roads and cities, each once, in any order. */
  ghost predicate Entries(cat: Catalog, b: Board, ms: seq<Meeple>, es: seq<Entry>) {
    && (forall e :: e in es ==> Found(cat, b, ms, e.feature, e.start) && e.place == PlaceOf(b, e.feature))
    && (forall e, f :: e in es && f in es && SameClass(cat, b, e.start, f.start) ==> e == f)
    && NoTwice(es)
    && (forall m :: m in ms && IsRoadOrCity(cat, b, m) ==> exists e :: e in es && SameClass(cat, b, e.start, m.Ref()))
  }

  lemma EntriesListed(cat: Catalog, b: Board, ms: seq<Meeple>, fs: seq<Feature>, starts: seq<ZoneRef>)
    requires FinalList(cat, b, ms, |ms|, fs, starts)
    ensures Entries(cat, b, ms, EntriesOf(b, fs, starts))
  {
    var es := EntriesOf(b, fs, starts);
    forall e | e in es
      ensures Found(cat, b, ms, e.feature, e.start) && e.place == PlaceOf(b, e.feature)
    {
      var i :| 0 <= i < |es| && es[i] == e;
      assert Found(cat, b, ms, fs[i], starts[i]);
    }
    forall i, j | 0 <= i < |es| && 0 <= j < |es| && i != j
      ensures !SameClass(cat, b, es[i].start, es[j].start)
    {
      if i < j {
        assert !SameClass(cat, b, starts[i], starts[j]);
      } else {
        assert !SameClass(cat, b, starts[j], starts[i]);
      }
    }
    forall m | m in ms && IsRoadOrCity(cat, b, m)
      ensures exists e :: e in es && SameClass(cat, b, e.start, m.Ref())
    {
      var k :| 0 <= k < |ms| && ms[k] == m;
      assert IsRoadOrCity(cat, b, ms[k]);
      var i :| 0 <= i < |starts| && SameClass(cat, b, starts[i], m.Ref());
      assert es[i] in es;
    }
  }

  /** Different entries have different places. */
  lemma PlacesDiffer(cat: Catalog, b: Board, ms: seq<Meeple>, es: seq<Entry>, e: Entry, f: Entry)
    requires ValidCatalog(cat) && WellPlaced(cat, b) && Entries(cat, b, ms, es) && e in es && f in es
    requires e.place == f.place
    ensures e == f
  {
    NeighborsSymmetric(cat, b);
    Reflexive(ZoneGraph(cat, b), e.start);
    Reflexive(ZoneGraph(cat, b), f.start);
    assert e.start in e.feature.zones && f.start in f.feature.zones;
    FirstRefIsFirst(b, e.feature.zones);
    FirstRefIsFirst(b, f.feature.zones);
    SameComponent(ZoneGraph(cat, b), e.start, e.place.first);
    SameComponent(ZoneGraph(cat, b), f.start, e.place.first);
    assert SameClass(cat, b, e.start, f.start);
  }

  lemma EntriesArranged(cat: Catalog, b: Board, ms: seq<Meeple>, es: seq<Entry>)
    requires ValidCatalog(cat) && WellPlaced(cat, b) && Entries(cat, b, ms, es)
    ensures var less := (e, f) => EntryBefore(b, e, f);
            Entries(cat, b, ms, Arranged(less, es)) && Strictly(less, Arranged(less, es))
  {
    var less := (e, f) => EntryBefore(b, e, f);
    ArrangedSame(less, es);
    forall e, f, g | e in es && f in es && g in es
      ensures less(e, f) ==> !less(f, e)
      ensures !less(f, e) && !less(g, f) ==> !less(g, e)
    {
      PlaceOrder(b, e.place, f.place, g.place);
    }
    forall e, f | e in es && f in es && e != f
      ensures less(e, f) || less(f, e)
    {
      if e.place == f.place { PlacesDiffer(cat, b, ms, es, e, f); }
      PlaceOrder(b, e.place, f.place, e.place);
    }
    ArrangedStrictly(less, es);
    EntriesStay(cat, b, ms, es, Arranged(less, es));
  }

  lemma EntriesStay(cat: Catalog, b: Board, ms: seq<Meeple>, es: seq<Entry>, fs: seq<Entry>)
    requires Entries(cat, b, ms, es) && multiset(fs) == multiset(es)
    ensures Entries(cat, b, ms, fs)
  {
    StillOnce(es, fs);
    forall e
      ensures e in fs <==> e in es
    {
      SameMember(es, fs, e);
    }
    forall m | m in ms && IsRoadOrCity(cat, b, m)
      ensures exists e :: e in fs && SameClass(cat, b, e.start, m.Ref())
    {
      var e :| e in es && SameClass(cat, b, e.start, m.Ref());
    }
  }

  lemma SortedIsList(cat: Catalog, b: Board, ms: seq<Meeple>, es: seq<Entry>)
    requires Entries(cat, b, ms, es) && Strictly((e, f) => EntryBefore(b, e, f), es)
    ensures FinalList(cat, b, ms, |ms|, FeaturesOf(es), StartsOf(es)) && InPlace(b, FeaturesOf(es))
  {
    var fs, starts := FeaturesOf(es), StartsOf(es);
    forall i | 0 <= i < |fs|
      ensures Found(cat, b, ms, fs[i], starts[i]) && PlaceOf(b, fs[i]) == es[i].place
    {
      assert es[i] in es;
    }
    forall i, j | 0 <= i < j < |fs|
      ensures PlaceBefore(b, PlaceOf(b, fs[i]), PlaceOf(b, fs[j])) && !SameClass(cat, b, starts[i], starts[j])
    {
      assert EntryBefore(b, es[i], es[j]) && es[i] in es && es[j] in es;
    }
    forall k | 0 <= k < |ms| && IsRoadOrCity(cat, b, ms[k])
      ensures Has(cat, b, starts, ms[k].Ref())
    {
      var e :| e in es && SameClass(cat, b, e.start, ms[k].Ref());
      var i :| 0 <= i < |es| && es[i] == e;
      assert SameClass(cat, b, starts[i], ms[k].Ref());
    }
  }

  /** There is only one such list of places: it depends on the board and the meeples alone. */
  lemma FeatureOrderIsFixed(cat: Catalog, b: Board, ms: seq<Meeple>, fs: seq<Feature>, starts: seq<ZoneRef>,
                            gs: seq<Feature>, begins: seq<ZoneRef>)
    requires ValidCatalog(cat) && WellPlaced(cat, b) && InPlace(b, fs) && InPlace(b, gs)
    requires FinalList(cat, b, ms, |ms|, fs, starts) && FinalList(cat, b, ms, |ms|, gs, begins)
    ensures |fs| == |gs|
    ensures forall i :: 0 <= i < |fs| ==> fs[i].kind == gs[i].kind && SameClass(cat, b, starts[i], begins[i])
  {
    PlacesAgree(cat, b, ms, fs, starts, gs, begins);
    forall i | 0 <= i < |fs|
      ensures fs[i].kind == gs[i].kind && SameClass(cat, b, starts[i], begins[i])
    {
      assert PlacesOf(b, fs)[i] == PlacesOf(b, gs)[i];
      assert Found(cat, b, ms, fs[i], starts[i]) && Found(cat, b, ms, gs[i], begins[i]);
      SharedPlace(cat, b, ms, fs[i], starts[i], gs[i], begins[i]);
    }
  }

  lemma PlacesAgree(cat: Catalog, b: Board, ms: seq<Meeple>, fs: seq<Feature>, starts: seq<ZoneRef>,
                    gs: seq<Feature>, begins: seq<ZoneRef>)
    requires ValidCatalog(cat) && WellPlaced(cat, b) && InPlace(b, fs) && InPlace(b, gs)
    requires FinalList(cat, b, ms, |ms|, fs, starts) && FinalList(cat, b, ms, |ms|, gs, begins)
    ensures PlacesOf(b, fs) == PlacesOf(b, gs)
  {
    var less := (p, q) => PlaceBefore(b, p, q);
    var ps, qs := PlacesOf(b, fs), PlacesOf(b, gs);
    forall p
      ensures p in ps <==> p in qs
    {
      if p in ps { var i, j := SamePlace(cat, b, ms, fs, starts, gs, begins, p); }
      if p in qs { var i, j := SamePlace(cat, b, ms, gs, begins, fs, starts, p); }
    }
    forall p, q | p in ps && q in ps && less(p, q)
      ensures !less(q, p)
    {
      PlaceOneWay(cat, b, ms, fs, starts, p, q);
    }
    SortedOnce(less, ps, qs);
  }

  lemma PlaceOneWay(cat: Catalog, b: Board, ms: seq<Meeple>, fs: seq<Feature>, starts: seq<ZoneRef>, p: Place, q: Place)
    requires FinalList(cat, b, ms, |ms|, fs, starts) && p in PlacesOf(b, fs) && q in PlacesOf(b, fs)
    ensures PlaceBefore(b, p, q) ==> !PlaceBefore(b, q, p)
  {
    var i :| 0 <= i < |fs| && PlacesOf(b, fs)[i] == p;
    var j :| 0 <= j < |fs| && PlacesOf(b, fs)[j] == q;
    assert Found(cat, b, ms, fs[i], starts[i]) && Found(cat, b, ms, fs[j], starts[j]);
    PlaceOrder(b, p, q, p);
  }

  function PlacesOf(b: Board, fs: seq<Feature>): (ps: seq<Place>)
    ensures |ps| == |fs| && forall i :: 0 <= i < |fs| ==> ps[i] == PlaceOf(b, fs[i])
  {
    seq(|fs|, i requires 0 <= i < |fs| => PlaceOf(b, fs[i]))
  }

  lemma SharedPlace(cat: Catalog, b: Board, ms: seq<Meeple>, f: Feature, start: ZoneRef, g: Feature, begin: ZoneRef)
    requires ValidCatalog(cat) && WellPlaced(cat, b) && Found(cat, b, ms, f, start) && Found(cat, b, ms, g, begin)
    requires PlaceOf(b, f) == PlaceOf(b, g)
    ensures SameClass(cat, b, start, begin)
  {
    NeighborsSymmetric(cat, b);
    Reflexive(ZoneGraph(cat, b), start);
    Reflexive(ZoneGraph(cat, b), begin);
    assert start in f.zones && begin in g.zones;
    FirstRefIsFirst(b, f.zones);
    FirstRefIsFirst(b, g.zones);
    SameComponent(ZoneGraph(cat, b), start, FirstRef(b, f.zones));
    SameComponent(ZoneGraph(cat, b), begin, FirstRef(b, f.zones));
  }

  lemma SamePlace(cat: Catalog, b: Board, ms: seq<Meeple>, fs: seq<Feature>, starts: seq<ZoneRef>, gs: seq<Feature>,
                  begins: seq<ZoneRef>, p: Place)
    returns (i: nat, j: nat)
    requires ValidCatalog(cat) && WellPlaced(cat, b) && p in PlacesOf(b, fs)
    requires FinalList(cat, b, ms, |ms|, fs, starts) && FinalList(cat, b, ms, |ms|, gs, begins)
    ensures i < |fs| && j < |gs| && PlaceOf(b, fs[i]) == p && PlaceOf(b, gs[j]) == p && p in PlacesOf(b, gs)
  {
    i :| 0 <= i < |fs| && PlacesOf(b, fs)[i] == p;
    assert Found(cat, b, ms, fs[i], starts[i]);
    var m :| m in ms && m.Ref() == starts[i];
    var k :| 0 <= k < |ms| && ms[k] == m;
    assert IsRoadOrCity(cat, b, ms[k]);
    j :| 0 <= j < |begins| && SameClass(cat, b, begins[j], m.Ref());
    assert Found(cat, b, ms, gs[j], begins[j]);
    Reflexive(ZoneGraph(cat, b), starts[i]);
    assert starts[i] in fs[i].zones && starts[i] in gs[j].zones;
    ClassHasOneKind(cat, b, begins[j], starts[i]);
    FirstRefOnce(b, fs[i].zones, gs[j].zones);
    assert PlacesOf(b, gs)[j] == p;
  }

  /** No zone belongs to two of the features. */
  ghost predicate NoneShared(fs: seq<Feature>) {
    forall i, j, z :: 0 <= i < j < |fs| && z in fs[i].zones ==> z !in fs[j].zones
  }

  lemma EachMeepleOnce(cat: Catalog, b: Board, ms: seq<Meeple>, fs: seq<Feature>, starts: seq<ZoneRef>)
    requires ValidCatalog(cat) && WellPlaced(cat, b) && FinalList(cat, b, ms, |ms|, fs, starts)
    ensures NoneShared(fs)
    ensures forall m :: m in ms && IsRoadOrCity(cat, b, m) ==> exists f :: f in fs && m.Ref() in f.zones
  {
    NeighborsSymmetric(cat, b);
    forall i, j, z | 0 <= i < j < |fs| && z in fs[i].zones
      ensures z !in fs[j].zones
    {
      assert Found(cat, b, ms, fs[i], starts[i]) && Found(cat, b, ms, fs[j], starts[j]);
      assert !SameClass(cat, b, starts[i], starts[j]);
      SameComponent(ZoneGraph(cat, b), starts[i], z);
      if z in fs[j].zones { SameComponent(ZoneGraph(cat, b), starts[j], z); }
    }
    forall m | m in ms && IsRoadOrCity(cat, b, m)
      ensures exists f :: f in fs && m.Ref() in f.zones
    {
      MeepleListed(cat, b, ms, fs, starts, m);
    }
  }

  lemma MeepleListed(cat: Catalog, b: Board, ms: seq<Meeple>, fs: seq<Feature>, starts: seq<ZoneRef>, m: Meeple)
    requires ValidCatalog(cat) && WellPlaced(cat, b) && FinalList(cat, b, ms, |ms|, fs, starts) && m in ms
    requires IsRoadOrCity(cat, b, m)
    ensures exists f :: f in fs && m.Ref() in f.zones
  {
    var k :| 0 <= k < |ms| && ms[k] == m;
    assert IsRoadOrCity(cat, b, ms[k]);
    var i :| 0 <= i < |starts| && SameClass(cat, b, starts[i], m.Ref());
    assert Found(cat, b, ms, fs[i], starts[i]);
    ResolvesIff(cat, b, m.Ref());
    Reflexive(ZoneGraph(cat, b), m.Ref());
    assert fs[i] in fs;
  }

  lemma SkipMeeple(cat: Catalog, b: Board, ms: seq<Meeple>, i: nat, fs: seq<Feature>, starts: seq<ZoneRef>)
    requires i < |ms| && FinalList(cat, b, ms, i, fs, starts)
    requires IsRoadOrCity(cat, b, ms[i]) ==> Has(cat, b, starts, ms[i].Ref())
    ensures FinalList(cat, b, ms, i + 1, fs, starts)
  {}

  lemma ListingStep(cat: Catalog, b: Board, ms: seq<Meeple>, i: nat, fs: seq<Feature>, starts: seq<ZoneRef>,
                    seen: set<ZoneRef>, f: Feature, identity: ZoneRef)
    requires ValidCatalog(cat) && WellPlaced(cat, b) && i < |ms| && Listing(cat, b, ms, i, fs, starts, seen)
    requires Found(cat, b, ms, f, ms[i].Ref()) && IsLeast(identity, Class(cat, b, ms[i].Ref()))
    ensures if identity in seen then Listing(cat, b, ms, i + 1, fs, starts, seen)
            else Listing(cat, b, ms, i + 1, fs + [f], starts + [ms[i].Ref()], seen + {identity})
  {
    SeenStep(cat, b, starts, seen, ms[i].Ref(), identity);
    if identity in seen {
      SkipMeeple(cat, b, ms, i, fs, starts);
    } else {
      ListStep(cat, b, ms, i, fs, starts, f);
    }
  }

  method OccupiedFeature(cat: Catalog, b: Board, ms: seq<Meeple>, i: nat) returns (f: Feature, identity: ZoneRef)
    requires ValidCatalog(cat) && WellPlaced(cat, b) && i < |ms| && IsRoadOrCity(cat, b, ms[i])
    ensures Found(cat, b, ms, f, ms[i].Ref()) && IsLeast(identity, Class(cat, b, ms[i].Ref()))
  {
    ResolvesIff(cat, b, ms[i].Ref());
    var found := BuildFeature(cat, b, ms, ms[i].Ref());
    f := found.value;
    Reflexive(ZoneGraph(cat, b), ms[i].Ref());
    assert ms[i].Ref() in f.zones;
    identity := CanonicalRef(f.zones, Class(cat, b, ms[i].Ref()));
  }

  lemma SeenStep(cat: Catalog, b: Board, starts: seq<ZoneRef>, seen: set<ZoneRef>, start: ZoneRef, identity: ZoneRef)
    requires ValidCatalog(cat) && WellPlaced(cat, b) && start in Zones(cat, b)
    requires IsLeast(identity, Class(cat, b, start))
    requires Seen(cat, b, starts, seen)
    ensures Seen(cat, b, starts + [start], seen + {identity})
    ensures identity in seen <==> Has(cat, b, starts, start)
  {
    forall u, r | u in Zones(cat, b) && IsLeast(r, Class(cat, b, u))
      ensures r in seen + {identity} <==> Has(cat, b, starts + [start], u)
    {
      CanonicalIdentifies(cat, b, start, u, identity, r);
      HasStep(cat, b, starts, start, u);
    }
  }

  lemma HasStep(cat: Catalog, b: Board, starts: seq<ZoneRef>, start: ZoneRef, u: ZoneRef)
    ensures Has(cat, b, starts + [start], u) <==> Has(cat, b, starts, u) || SameClass(cat, b, start, u)
  {
    var next := starts + [start];
    if Has(cat, b, starts, u) {
      var i :| 0 <= i < |starts| && SameClass(cat, b, starts[i], u);
      assert SameClass(cat, b, next[i], u);
    }
    if SameClass(cat, b, start, u) {
      assert SameClass(cat, b, next[|starts|], u);
    }
  }

  lemma ListStep(cat: Catalog, b: Board, ms: seq<Meeple>, i: nat, fs: seq<Feature>, starts: seq<ZoneRef>, f: Feature)
    requires i < |ms| && FinalList(cat, b, ms, i, fs, starts)
    requires Found(cat, b, ms, f, ms[i].Ref()) && !Has(cat, b, starts, ms[i].Ref())
    ensures FinalList(cat, b, ms, i + 1, fs + [f], starts + [ms[i].Ref()])
  {
    var next := starts + [ms[i].Ref()];
    forall j, k | 0 <= j < k < |next|
      ensures !SameClass(cat, b, next[j], next[k])
    {
      if k < |starts| { assert !SameClass(cat, b, starts[j], starts[k]); }
    }
    forall k | 0 <= k < i + 1 && IsRoadOrCity(cat, b, ms[k])
      ensures Has(cat, b, next, ms[k].Ref())
    {
      HasStep(cat, b, starts, ms[i].Ref(), ms[k].Ref());
    }
  }

  /** The classes of the first n features of one kind. */
  ghost function ClassesOf(cat: Catalog, b: Board, fs: seq<Feature>, starts: seq<ZoneRef>, kind: Kind,
                           n: nat): set<set<ZoneRef>>
    requires n <= |fs| == |starts|
  {
    if n == 0 then {}
    else ClassesOf(cat, b, fs, starts, kind, n - 1)
         + (if fs[n - 1].kind == kind then {Class(cat, b, starts[n - 1])} else {})
  }

  lemma {:induction false} ClassesOfMember(cat: Catalog, b: Board, fs: seq<Feature>, starts: seq<ZoneRef>, kind: Kind,
                                           n: nat, k: set<ZoneRef>)
    requires n <= |fs| == |starts|
    ensures k in ClassesOf(cat, b, fs, starts, kind, n) <==>
              exists i :: 0 <= i < n && fs[i].kind == kind && k == Class(cat, b, starts[i])
  {
    if n > 0 { ClassesOfMember(cat, b, fs, starts, kind, n - 1, k); }
  }

  lemma NextClassIsNew(cat: Catalog, b: Board, ms: seq<Meeple>, fs: seq<Feature>, starts: seq<ZoneRef>, kind: Kind,
                       n: nat)
    requires FinalList(cat, b, ms, |ms|, fs, starts) && n < |fs|
    ensures Class(cat, b, starts[n]) !in ClassesOf(cat, b, fs, starts, kind, n)
  {
    ClassesOfMember(cat, b, fs, starts, kind, n, Class(cat, b, starts[n]));
    forall i | 0 <= i < n
      ensures Class(cat, b, starts[i]) != Class(cat, b, starts[n])
    {
      assert !SameClass(cat, b, starts[i], starts[n]);
    }
  }

  /** The list holds exactly the occupied features of either kind. */
  lemma ListIsOccupied(cat: Catalog, b: Board, ms: seq<Meeple>, fs: seq<Feature>, starts: seq<ZoneRef>, kind: Kind)
    requires ValidCatalog(cat) && WellPlaced(cat, b) && FinalList(cat, b, ms, |ms|, fs, starts) && kind in {Road, City}
    ensures ClassesOf(cat, b, fs, starts, kind, |fs|) == OccupiedClasses(cat, b, ms, kind)
  {
    forall k
      ensures k in ClassesOf(cat, b, fs, starts, kind, |fs|) <==> k in OccupiedClasses(cat, b, ms, kind)
    {
      ClassesOfMember(cat, b, fs, starts, kind, |fs|, k);
      if k in ClassesOf(cat, b, fs, starts, kind, |fs|) {
        var i :| 0 <= i < |fs| && fs[i].kind == kind && k == Class(cat, b, starts[i]);
        assert Found(cat, b, ms, fs[i], starts[i]);
      }
      if m :| m in ms && KindOf(cat, b, m.Ref()) == Some(kind) && k == Class(cat, b, m.Ref()) {
        ListedKind(cat, b, ms, fs, starts, m, kind);
      }
    }
  }

  lemma ListedKind(cat: Catalog, b: Board, ms: seq<Meeple>, fs: seq<Feature>, starts: seq<ZoneRef>, m: Meeple,
                   kind: Kind)
    requires ValidCatalog(cat) && WellPlaced(cat, b) && FinalList(cat, b, ms, |ms|, fs, starts) && kind in {Road, City}
    requires m in ms && KindOf(cat, b, m.Ref()) == Some(kind)
    ensures exists i :: 0 <= i < |fs| && fs[i].kind == kind && Class(cat, b, m.Ref()) == Class(cat, b, starts[i])
  {
    var k :| 0 <= k < |ms| && ms[k] == m;
    assert IsRoadOrCity(cat, b, ms[k]);
    var i :| 0 <= i < |starts| && SameClass(cat, b, starts[i], m.Ref());
    assert Found(cat, b, ms, fs[i], starts[i]);
    ResolvesIff(cat, b, m.Ref());
    Reflexive(ZoneGraph(cat, b), m.Ref());
    ClassHasOneKind(cat, b, starts[i], m.Ref());
  }

  // ---------------------------------------------------------------- fields

  /** The classes of a set of roots. */
  ghost function FieldClasses(cat: Catalog, b: Board, roots: set<FieldSegment>): set<set<ZoneRef>> {
    set r | r in roots :: Class(cat, b, r.Zone())
  }

  lemma RootsAreRoots(d: DisjointSet<FieldSegment>)
    requires d.Valid()
    ensures forall u :: u in d.root ==> d.root[u] in d.root && d.root[d.root[u]] == d.root[u]
  {
    forall u | u in d.root
      ensures d.root[u] in d.root && d.root[d.root[u]] == d.root[u]
    {
      RootIsRoot(d, u);
    }
  }

  /** The recorded roots are exactly the occupied fields. */
  lemma RecordedIsOccupied(cat: Catalog, b: Board, ms: seq<Meeple>, root: map<FieldSegment, FieldSegment>,
                           weights: map<FieldSegment, map<Id, nat>>)
    requires ValidCatalog(cat) && WellPlaced(cat, b) && FieldPartition(cat, b, root)
    requires MeeplesWeighed(cat, b, root, ms, weights)
    requires forall u :: u in root ==> root[u] in root && root[root[u]] == root[u]
    ensures FieldClasses(cat, b, weights.Keys) == OccupiedClasses(cat, b, ms, Field)
  {
    forall k
      ensures k in FieldClasses(cat, b, weights.Keys) <==> k in OccupiedClasses(cat, b, ms, Field)
    {
      if r :| r in weights && k == Class(cat, b, r.Zone()) {
        RecordedFarmer(cat, b, ms, root, weights, r);
      }
      if m :| m in ms && KindOf(cat, b, m.Ref()) == Some(Field) && k == Class(cat, b, m.Ref()) {
        FarmerRecorded(cat, b, ms, root, weights, m);
      }
    }
  }

  lemma RecordedFarmer(cat: Catalog, b: Board, ms: seq<Meeple>, root: map<FieldSegment, FieldSegment>,
                       weights: map<FieldSegment, map<Id, nat>>, r: FieldSegment)
    requires ValidCatalog(cat) && WellPlaced(cat, b) && FieldPartition(cat, b, root)
    requires MeeplesWeighed(cat, b, root, ms, weights) && r in weights
    ensures Class(cat, b, r.Zone()) in OccupiedClasses(cat, b, ms, Field)
  {
    assert WeighedAt(cat, b, root, ms, weights, r);
    FieldZone(cat, b, root, r);
    WeighsActors(ms, Class(cat, b, r.Zone()), weights[r]);
    var a :| a in weights[r];
    assert a in ActorsOn(ms, Class(cat, b, r.Zone()));
    var m :| m in ms && m.Ref() in Class(cat, b, r.Zone()) && m.actor == a;
    NeighborsSymmetric(cat, b);
    SameComponent(ZoneGraph(cat, b), r.Zone(), m.Ref());
    ClassHasOneKind(cat, b, r.Zone(), m.Ref());
  }

  lemma FarmerRecorded(cat: Catalog, b: Board, ms: seq<Meeple>, root: map<FieldSegment, FieldSegment>,
                       weights: map<FieldSegment, map<Id, nat>>, m: Meeple)
    requires ValidCatalog(cat) && WellPlaced(cat, b) && FieldPartition(cat, b, root)
    requires MeeplesWeighed(cat, b, root, ms, weights)
    requires forall u :: u in root ==> root[u] in root && root[root[u]] == root[u]
    requires m in ms && KindOf(cat, b, m.Ref()) == Some(Field)
    ensures Class(cat, b, m.Ref()) in FieldClasses(cat, b, weights.Keys)
  {
    ResolvesIff(cat, b, m.Ref());
    Reflexive(ZoneGraph(cat, b), m.Ref());
    var u := SegmentInClass(cat, b, m.Ref(), m.Ref());
    assert u in root;
    assert FarmerSeen(root, weights, m);
    var r := root[u];
    RootFound(cat, b, root, u);
    FieldZone(cat, b, root, r);
    NeighborsSymmetric(cat, b);
    SameComponent(ZoneGraph(cat, b), r.Zone(), m.Ref());
  }

  /** Different roots stand for different fields. */
  lemma RootsDiffer(cat: Catalog, b: Board, root: map<FieldSegment, FieldSegment>,
                    weights: map<FieldSegment, map<Id, nat>>, ms: seq<Meeple>, done: set<FieldSegment>, r: FieldSegment)
    requires ValidCatalog(cat) && WellPlaced(cat, b) && FieldPartition(cat, b, root)
    requires MeeplesWeighed(cat, b, root, ms, weights)
    requires done <= weights.Keys && r in weights && r !in done
    ensures r in root && root[r] == r && Class(cat, b, r.Zone()) !in FieldClasses(cat, b, done)
  {
    assert WeighedAt(cat, b, root, ms, weights, r);
    FieldZone(cat, b, root, r);
    forall t | t in done
      ensures Class(cat, b, t.Zone()) != Class(cat, b, r.Zone())
    {
      assert WeighedAt(cat, b, root, ms, weights, t);
      assert SameField(cat, b, root, t, r);
    }
  }

  /** A meeple stands in the field exactly when its zone has the root r. */
  ghost predicate RootTest(cat: Catalog, b: Board, root: map<FieldSegment, FieldSegment>,
                           byZone: map<ZoneRef, seq<FieldSegment>>, m: Meeple, r: FieldSegment, field: set<ZoneRef>)
  {
    if m.Ref() in byZone then forall q :: RootOfZone(cat, b, root, m.Ref(), q) ==> (q == r <==> m.Ref() in field)
    else m.Ref() !in field
  }

  lemma RootsTest(cat: Catalog, b: Board, root: map<FieldSegment, FieldSegment>, refs: map<FieldSegment, PlacedZone>,
                  byZone: map<ZoneRef, seq<FieldSegment>>, m: Meeple, r: FieldSegment)
    requires ValidCatalog(cat) && WellPlaced(cat, b) && Indexed(cat, b, root, refs, byZone) && r in root && root[r] == r
    ensures RootTest(cat, b, root, byZone, m, r, Class(cat, b, r.Zone()))
  {
    OffTheFields(cat, b, root, refs, byZone, m, r);
    if m.Ref() in byZone {
      forall q | RootOfZone(cat, b, root, m.Ref(), q)
        ensures q == r <==> m.Ref() in Class(cat, b, r.Zone())
      {
        OnlyRoot(cat, b, root, m.Ref(), q, r);
      }
    }
  }

  /** The meeples whose field has the given root, in board order. */
  method MeeplesForField(cat: Catalog, b: Board, ms: seq<Meeple>, d: DisjointSet<FieldSegment>,
                         refs: map<FieldSegment, PlacedZone>, byZone: map<ZoneRef, seq<FieldSegment>>, r: FieldSegment,
                         ghost field: set<ZoneRef>)
    returns (farmers: seq<Meeple>)
    requires ValidCatalog(cat) && WellPlaced(cat, b) && d.Valid() && Indexed(cat, b, d.root, refs, byZone)
    requires forall m {:trigger RootTest(cat, b, d.root, byZone, m, r, field)} :: m in ms ==>
               RootTest(cat, b, d.root, byZone, m, r, field)
    modifies d`parent
    ensures d.Valid() && farmers == ArrangedMeeples(b, Taken(ms, field))
  {
    farmers := [];
    for i := 0 to |ms|
      invariant d.Valid() && farmers == Taken(ms[..i], field)
    {
      TakenStep(ms, i, field);
      assert RootTest(cat, b, d.root, byZone, ms[i], r, field);
      var roots := RootsForZone(cat, b, d, refs, byZone, ms[i].Ref());
      RootDecides(cat, b, d.root, byZone, ms[i], r, field, roots);
      if r in roots {
        farmers := farmers + [ms[i]];
      }
    }
    assert ms[..|ms|] == ms;
    farmers := ArrangedMeeples(b, farmers);
  }

  lemma RootDecides(cat: Catalog, b: Board, root: map<FieldSegment, FieldSegment>,
                    byZone: map<ZoneRef, seq<FieldSegment>>, m: Meeple, r: FieldSegment, field: set<ZoneRef>,
                    roots: seq<FieldSegment>)
    requires RootTest(cat, b, root, byZone, m, r, field)
    requires if m.Ref() in byZone then |roots| == 1 && RootOfZone(cat, b, root, m.Ref(), roots[0]) else roots == []
    ensures r in roots <==> m.Ref() in field
  {
    if m.Ref() in byZone {
      assert roots == [roots[0]];
    }
  }

  lemma TakenStep(ms: seq<Meeple>, i: nat, zones: set<ZoneRef>)
    requires i < |ms|
    ensures Taken(ms[..i + 1], zones) == Taken(ms[..i], zones) + (if ms[i].Ref() in zones then [ms[i]] else [])
  {
    assert ms[..i + 1][..i] == ms[..i];
  }

  lemma OnlyRoot(cat: Catalog, b: Board, root: map<FieldSegment, FieldSegment>, ref: ZoneRef, q: FieldSegment,
                 r: FieldSegment)
    requires ValidCatalog(cat) && WellPlaced(cat, b) && FieldPartition(cat, b, root) && RootOfZone(cat, b, root, ref, q)
    requires r in root && root[r] == r
    ensures q == r <==> ref in Class(cat, b, r.Zone())
  {
    if ref in Class(cat, b, r.Zone()) {
      FieldZone(cat, b, root, q);
      FieldZone(cat, b, root, r);
      NeighborsSymmetric(cat, b);
      SameComponent(ZoneGraph(cat, b), q.Zone(), ref);
      SameComponent(ZoneGraph(cat, b), r.Zone(), ref);
      assert SameField(cat, b, root, q, r);
    }
  }

  lemma SegmentsOfRoot(cat: Catalog, b: Board, root: map<FieldSegment, FieldSegment>,
                       byRoot: map<FieldSegment, seq<FieldSegment>>, r: FieldSegment, u: FieldSegment)
    requires ValidCatalog(cat) && WellPlaced(cat, b) && FieldPartition(cat, b, root) && GroupedByRoot(root, byRoot, {})
    requires r in root && root[r] == r
    ensures r in byRoot && (u in byRoot[r] <==> IsFieldSegment(cat, b, u) && u.Zone() in Class(cat, b, r.Zone()))
  {
    if u in byRoot[r] {
      assert SameField(cat, b, root, r, u);
    }
    if IsFieldSegment(cat, b, u) && u.Zone() in Class(cat, b, r.Zone()) {
      assert SameField(cat, b, root, r, u);
    }
  }

  datatype CompletedCity = CompletedCity(canonical: ZoneRef, feature: Feature)

  predicate CityBefore(b: Board, c: CompletedCity, d: CompletedCity) {
    CompareRefs(b, c.canonical, d.canonical) < 0
  }

  /** The list holds what the map holds. */
  ghost predicate CitiesListed(seen: map<ZoneRef, Feature>, cities: seq<CompletedCity>) {
    && NoTwice(cities)
    && forall c :: c in cities <==> c.canonical in seen && seen[c.canonical] == c.feature
  }

  /** Lists the entries of the map, in whatever order it yields them. */
  method ListCities(seen: map<ZoneRef, Feature>) returns (cities: seq<CompletedCity>)
    ensures CitiesListed(seen, cities) && |cities| == |seen.Keys|
  {
    cities := [];
    var todo := seen.Keys;
    while todo != {}
      invariant todo <= seen.Keys && NoTwice(cities) && |cities| + |todo| == |seen.Keys|
      invariant forall c :: c in cities <==>
                  c.canonical in seen && c.canonical !in todo && seen[c.canonical] == c.feature
      decreases todo
    {
      var r :| r in todo;
      cities := cities + [CompletedCity(r, seen[r])];
      todo := todo - {r};
    }
  }

  lemma CitiesInOrder(b: Board, seen: map<ZoneRef, Feature>, cities: seq<CompletedCity>)
    requires CitiesListed(seen, cities)
    ensures var less := (c, d) => CityBefore(b, c, d);
            CitiesListed(seen, Arranged(less, cities)) && Strictly(less, Arranged(less, cities))
  {
    var less := (c, d) => CityBefore(b, c, d);
    forall c, d, e | c in cities && d in cities && e in cities
      ensures less(c, d) ==> !less(d, c)
      ensures !less(d, c) && !less(e, d) ==> !less(e, c)
      ensures c != d ==> less(c, d) || less(d, c)
    {
      RefsInLine(b, c.canonical, d.canonical, e.canonical);
      RefsInLine(b, d.canonical, e.canonical, c.canonical);
      RefsInLine(b, e.canonical, c.canonical, d.canonical);
      CompareRefsLaws(b, c.canonical, d.canonical, e.canonical);
    }
    ArrangedStrictly(less, cities);
    ArrangedSame(less, cities);
    StillOnce(cities, Arranged(less, cities));
    forall c
      ensures c in Arranged(less, cities) <==> c in cities
    {
      SameMember(cities, Arranged(less, cities), c);
    }
  }

  /** The closed cities beside a field with their features, each once, in the board order of their canonical
      references. */
  method FieldCompletedCities(cat: Catalog, b: Board, completed: set<ZoneRef>, ghost field: set<ZoneRef>,
                              segments: seq<FieldSegment>, refs: map<FieldSegment, PlacedZone>)
    returns (cities: seq<CompletedCity>)
    requires ValidCatalog(cat) && WellPlaced(cat, b)
    requires forall u :: u in segments ==> u in refs && IsSegment(cat, b, u, refs[u])
    requires forall u :: u in segments <==> IsFieldSegment(cat, b, u) && u.Zone() in field
    requires CompletedKnown(cat, b, completed)
    ensures Represents(set c | c in cities :: c.canonical, ClosedCityClasses(cat, b, CitiesBeside(cat, b, field)))
    ensures forall c :: c in cities ==> IsCityAt(cat, b, c.canonical, c.feature)
    ensures Strictly((c, d) => CityBefore(b, c, d), cities) && 3 * |cities| == FieldPoints(cat, b, field)
  {
    var seen := CitiesOfField(cat, b, completed, field, segments, refs);
    var listed := ListCities(seen);
    CitiesInOrder(b, seen, listed);
    cities := Arranged((c, d) => CityBefore(b, c, d), listed);
    assert (set c | c in cities :: c.canonical) == seen.Keys by { SameRefs(seen, cities); }
  }

  lemma SameRefs(seen: map<ZoneRef, Feature>, cities: seq<CompletedCity>)
    requires CitiesListed(seen, cities)
    ensures (set c | c in cities :: c.canonical) == seen.Keys
  {
    forall r | r in seen.Keys
      ensures r in set c | c in cities :: c.canonical
    {
      assert CompletedCity(r, seen[r]) in cities;
    }
  }

  /** Three points for each closed city beside the field. */
  method FieldScore(cat: Catalog, b: Board, ghost root: map<FieldSegment, FieldSegment>,
                    refs: map<FieldSegment, PlacedZone>, ghost byZone: map<ZoneRef, seq<FieldSegment>>,
                    byRoot: map<FieldSegment, seq<FieldSegment>>, r: FieldSegment)
    returns (points: nat)
    requires ValidCatalog(cat) && WellPlaced(cat, b) && Indexed(cat, b, root, refs, byZone)
    requires GroupedByRoot(root, byRoot, {})
    requires r in root && root[r] == r
    ensures points == FieldPoints(cat, b, Class(cat, b, r.Zone()))
  {
    ghost var field := Class(cat, b, r.Zone());
    var completed := CollectCompletedCities(cat, b);
    forall u
      ensures r in byRoot && (u in byRoot[r] <==> IsFieldSegment(cat, b, u) && u.Zone() in field)
    {
      SegmentsOfRoot(cat, b, root, byRoot, r, u);
    }
    SegmentsOfRoot(cat, b, root, byRoot, r, r);
    var cities := FieldCompletedCities(cat, b, completed, field, byRoot[r], refs);
    points := |cities| * 3;
  }

  // ---------------------------------------------------------------- monks

  method CollectMonks(cat: Catalog, b: Board, ms: seq<Meeple>) returns (monks: seq<Meeple>)
    ensures monks == Monks(cat, b, ms)
  {
    monks := [];
    for i := 0 to |ms|
      invariant monks == Monks(cat, b, ms[..i])
    {
      assert ms[..i + 1][..i] == ms[..i];
      if IsMonk(cat, b, ms[i]) {
        monks := monks + [ms[i]];
      }
    }
    assert ms[..|ms|] == ms;
  }

  lemma {:induction false} MonksMember(cat: Catalog, b: Board, ms: seq<Meeple>, m: Meeple)
    ensures m in Monks(cat, b, ms) <==> m in ms && IsMonk(cat, b, m)
  {
    if ms != [] {
      MonksMember(cat, b, ms[..|ms| - 1], m);
      assert ms == ms[..|ms| - 1] + [ms[|ms| - 1]];
    }
  }

  lemma {:induction false} MonksOnePerTile(cat: Catalog, b: Board, ms: seq<Meeple>)
    requires OnePerTile(ms)
    ensures OnePerTile(Monks(cat, b, ms))
  {
    if ms != [] {
      var init, m := ms[..|ms| - 1], ms[|ms| - 1];
      MonksOnePerTile(cat, b, init);
      forall i | 0 <= i < |Monks(cat, b, init)|
        ensures Monks(cat, b, init)[i].tile != m.tile
      {
        MonksMember(cat, b, init, Monks(cat, b, init)[i]);
      }
    }
  }

  ghost function RefsOf(ms: seq<Meeple>): set<ZoneRef> {
    set m | m in ms :: m.Ref()
  }

  /** Meeples on monasteries, no two of them on one tile, in any order. */
  ghost predicate AreMonks(cat: Catalog, b: Board, ms: seq<Meeple>, monks: seq<Meeple>) {
    OnePerTile(monks) && forall m :: m in monks ==> m in ms && IsMonk(cat, b, m)
  }

  lemma RefsStep(cat: Catalog, b: Board, ms: seq<Meeple>, monks: seq<Meeple>, i: nat)
    requires OnePerTile(ms) && AreMonks(cat, b, ms, monks) && i < |monks|
    ensures RefsOf(monks[..i + 1]) == RefsOf(monks[..i]) + {monks[i].Ref()}
    ensures RefsOf(monks[..i]) !! {monks[i].Ref()}
    ensures Taken(ms, {monks[i].Ref()}) == [monks[i]] && IsMonk(cat, b, monks[i])
  {
    assert monks[i] in monks;
    TakenSingle(ms, monks[i]);
    assert monks[..i + 1] == monks[..i] + [monks[i]];
    forall m | m in monks[..i]
      ensures m.Ref() != monks[i].Ref()
    {
      var k :| 0 <= k < i && monks[k] == m;
      assert monks[k].tile != monks[i].tile;
    }
  }

  function MonkPoints(cat: Catalog, b: Board, m: Meeple, actor: Id): nat {
    if m.actor == actor then MonkWorth(cat, b, m) else 0
  }

  lemma {:induction false} MonkSumCons(cat: Catalog, b: Board, m: Meeple, ms: seq<Meeple>, actor: Id)
    ensures MonkSum(cat, b, [m] + ms, actor) == MonkPoints(cat, b, m, actor) + MonkSum(cat, b, ms, actor)
  {
    var all := [m] + ms;
    if ms == [] {
      assert all[..|all| - 1] == [];
    } else {
      MonkSumCons(cat, b, m, ms[..|ms| - 1], actor);
      assert all[..|all| - 1] == [m] + ms[..|ms| - 1];
    }
  }

  lemma {:induction false} MonkSumInserted(cat: Catalog, b: Board, less: (Meeple, Meeple) -> bool, ms: seq<Meeple>,
                                           m: Meeple, actor: Id)
    ensures MonkSum(cat, b, Insert(less, ms, m), actor) == MonkSum(cat, b, ms, actor) + MonkPoints(cat, b, m, actor)
  {
    MonkSumCons(cat, b, m, ms, actor);
    if ms != [] {
      MonkSumInserted(cat, b, less, ms[1..], m, actor);
      MonkSumCons(cat, b, ms[0], ms[1..], actor);
      MonkSumCons(cat, b, ms[0], Insert(less, ms[1..], m), actor);
      assert ms == [ms[0]] + ms[1..];
    }
  }

  lemma {:induction false} MonkSumArranged(cat: Catalog, b: Board, less: (Meeple, Meeple) -> bool, ms: seq<Meeple>,
                                           actor: Id)
    ensures MonkSum(cat, b, Arranged(less, ms), actor) == MonkSum(cat, b, ms, actor)
  {
    if ms != [] {
      MonkSumArranged(cat, b, less, ms[..|ms| - 1], actor);
      MonkSumInserted(cat, b, less, Arranged(less, ms[..|ms| - 1]), ms[|ms| - 1], actor);
    }
  }

  /** Sorting the monks changes neither who they are nor what they pay. */
  lemma ArrangedMonks(cat: Catalog, b: Board, ms: seq<Meeple>, players: seq<Player>)
    requires OnePerTile(ms)
    ensures var monks := Monks(cat, b, ms);
            && AreMonks(cat, b, ms, ArrangedMeeples(b, monks)) && RefsOf(ArrangedMeeples(b, monks)) == RefsOf(monks)
            && PayMonks(cat, b, ArrangedMeeples(b, monks), players) == PayMonks(cat, b, monks, players)
  {
    var monks := Monks(cat, b, ms);
    var sorted := ArrangedMeeples(b, monks);
    MonksOnePerTile(cat, b, ms);
    ArrangedMeeplesLaws(b, monks);
    StaysOnePerTile(monks, sorted);
    forall m
      ensures m in sorted <==> m in ms && IsMonk(cat, b, m)
    {
      SameMember(monks, sorted, m);
      MonksMember(cat, b, ms, m);
    }
    forall m
      ensures m in sorted <==> m in monks
    {
      SameMember(monks, sorted, m);
    }
    forall i | 0 <= i < |players|
      ensures PayMonks(cat, b, sorted, players)[i] == PayMonks(cat, b, monks, players)[i]
    {
      MonksPay(cat, b, sorted, players, i);
      MonksPay(cat, b, monks, players, i);
      MonkSumArranged(cat, b, (m, n) => MeepleBefore(b, m, n), monks, players[i].actor);
    }
  }

  lemma StaysOnePerTile(ms: seq<Meeple>, ns: seq<Meeple>)
    requires OnePerTile(ms) && multiset(ms) == multiset(ns)
    ensures OnePerTile(ns)
  {
    StillOnce(ms, ns);
    forall i, j | 0 <= i < j < |ns|
      ensures ns[i].tile != ns[j].tile
    {
      SameMember(ms, ns, ns[i]);
      SameMember(ms, ns, ns[j]);
      var k :| 0 <= k < |ms| && ms[k] == ns[i];
      var l :| 0 <= l < |ms| && ms[l] == ns[j];
    }
  }

  // ---------------------------------------------------------------- the four passes together

  /** The meeple stands on a zone of a kind that scores. */
  ghost predicate OnScoringZone(cat: Catalog, b: Board, m: Meeple) {
    KindOf(cat, b, m.Ref()) in {Some(Road), Some(City), Some(Monastery), Some(Field)}
  }

  lemma OccupiedKind(cat: Catalog, b: Board, ms: seq<Meeple>, kind: Kind, z: ZoneRef)
    requires ValidCatalog(cat) && WellPlaced(cat, b) && z in UnionOf(OccupiedClasses(cat, b, ms, kind))
    ensures KindOf(cat, b, z) == Some(kind)
  {
    var k :| k in OccupiedClasses(cat, b, ms, kind) && z in k;
    var m :| m in ms && KindOf(cat, b, m.Ref()) == Some(kind) && k == Class(cat, b, m.Ref());
    ResolvesIff(cat, b, m.Ref());
    ClassHasOneKind(cat, b, m.Ref(), z);
  }

  lemma OccupiedCovers(cat: Catalog, b: Board, ms: seq<Meeple>, kind: Kind, m: Meeple)
    requires ValidCatalog(cat) && WellPlaced(cat, b) && m in ms && KindOf(cat, b, m.Ref()) == Some(kind)
    ensures m.Ref() in UnionOf(OccupiedClasses(cat, b, ms, kind))
  {
    ResolvesIff(cat, b, m.Ref());
    Reflexive(ZoneGraph(cat, b), m.Ref());
    assert Class(cat, b, m.Ref()) in OccupiedClasses(cat, b, ms, kind);
  }

  lemma KindsDisjoint(cat: Catalog, b: Board, ms: seq<Meeple>, kind: Kind, other: Kind)
    requires ValidCatalog(cat) && WellPlaced(cat, b) && kind != other
    ensures UnionOf(OccupiedClasses(cat, b, ms, kind)) !! UnionOf(OccupiedClasses(cat, b, ms, other))
  {
    forall z | z in UnionOf(OccupiedClasses(cat, b, ms, kind)) && z in UnionOf(OccupiedClasses(cat, b, ms, other))
      ensures false
    {
      OccupiedKind(cat, b, ms, kind, z);
      OccupiedKind(cat, b, ms, other, z);
    }
  }

  lemma MonksDisjoint(cat: Catalog, b: Board, ms: seq<Meeple>, kind: Kind)
    requires ValidCatalog(cat) && WellPlaced(cat, b) && kind != Monastery
    ensures UnionOf(OccupiedClasses(cat, b, ms, kind)) !! RefsOf(Monks(cat, b, ms))
  {
    forall z | z in UnionOf(OccupiedClasses(cat, b, ms, kind)) && z in RefsOf(Monks(cat, b, ms))
      ensures false
    {
      OccupiedKind(cat, b, ms, kind, z);
      var m :| m in Monks(cat, b, ms) && m.Ref() == z;
      MonksMember(cat, b, ms, m);
    }
  }

  /** Everything that is paid at the end of the game. */
  ghost function PaidZones(cat: Catalog, b: Board, ms: seq<Meeple>): set<ZoneRef> {
    UnionOf(OccupiedClasses(cat, b, ms, Road)) + UnionOf(OccupiedClasses(cat, b, ms, City))
    + RefsOf(Monks(cat, b, ms)) + UnionOf(OccupiedClasses(cat, b, ms, Field))
  }

  lemma AllMeeplesPaid(cat: Catalog, b: Board, ms: seq<Meeple>)
    requires ValidCatalog(cat) && WellPlaced(cat, b) && forall m :: m in ms ==> OnScoringZone(cat, b, m)
    ensures Taken(ms, PaidZones(cat, b, ms)) == ms
  {
    forall m | m in ms
      ensures m.Ref() in PaidZones(cat, b, ms)
    {
      if KindOf(cat, b, m.Ref()) == Some(Monastery) {
        MonksMember(cat, b, ms, m);
        assert m in Monks(cat, b, ms);
      } else {
        OccupiedCovers(cat, b, ms, KindOf(cat, b, m.Ref()).value, m);
      }
    }
    TakenAll(ms, PaidZones(cat, b, ms));
  }

  /** The events of the four passes account for the whole final scoring. */
  lemma PassesCompose(record: bool, cat: Catalog, b: Board, ms: seq<Meeple>, p: seq<Player>, r: seq<Player>,
                      c: seq<Player>, m: seq<Player>, f: seq<Player>, roads: seq<Event>, cities: seq<Event>,
                      monks: seq<Event>, fields: seq<Event>)
    requires ValidCatalog(cat) && WellPlaced(cat, b)
    requires PassBook(record, ms, p, r, UnionOf(OccupiedClasses(cat, b, ms, Road)), roads)
    requires PassBook(record, ms, r, c, UnionOf(OccupiedClasses(cat, b, ms, City)), cities)
    requires PassBook(record, ms, c, m, RefsOf(Monks(cat, b, ms)), monks)
    requires PassBook(record, ms, m, f, UnionOf(OccupiedClasses(cat, b, ms, Field)), fields)
    ensures PassBook(record, ms, p, f, PaidZones(cat, b, ms), roads + cities + monks + fields)
  {
    var y, z, w, x := UnionOf(OccupiedClasses(cat, b, ms, Road)), UnionOf(OccupiedClasses(cat, b, ms, City)),
        RefsOf(Monks(cat, b, ms)), UnionOf(OccupiedClasses(cat, b, ms, Field));
    KindsDisjoint(cat, b, ms, Road, City);
    KindsDisjoint(cat, b, ms, Road, Field);
    KindsDisjoint(cat, b, ms, City, Field);
    MonksDisjoint(cat, b, ms, Road);
    MonksDisjoint(cat, b, ms, City);
    MonksDisjoint(cat, b, ms, Field);
    BookComposes(record, ms, p, r, c, y, z, roads, cities);
    BookComposes(record, ms, p, c, m, y + z, w, roads + cities, monks);
    BookComposes(record, ms, p, m, f, y + z + w, x, roads + cities + monks, fields);
  }

  lemma FinalLedger(record: bool, cat: Catalog, s: State, f: seq<Player>, es: seq<Event>)
    requires ValidCatalog(cat) && WellPlaced(cat, s.board)
    requires forall m :: m in s.meeples ==> OnScoringZone(cat, s.board, m)
    requires PassBook(record, s.meeples, s.players, f, PaidZones(cat, s.board, s.meeples), es)
    ensures Bookkept(record, s, s.(players := GiveBack(f, s.meeples), meeples := []), es)
  {
    if record {
      AllMeeplesPaid(cat, s.board, s.meeples);
      forall i | 0 <= i < |f|
        ensures GiveBack(f, s.meeples)[i].actor == f[i].actor && GiveBack(f, s.meeples)[i].score == f[i].score
      {
        GiveBackKeepsActors(f, s.meeples, i);
      }
    }
  }
}
