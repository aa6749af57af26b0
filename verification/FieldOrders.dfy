/** The order in which fields are scored at the end. It does not depend on the roots the union-find happened to choose,
    nor on the order in which a map lists them. */
module FieldOrders {
  import opened Tiles
  import opened Graphs
  import opened Topology
  import opened Pieces
  import opened FieldGraphs
  import opened FinalScores
  import opened FinalFeatures
  import opened BoardOrders
  import opened Sorting

  predicate SegmentBefore(b: Board, u: FieldSegment, v: FieldSegment) {
    CompareSegments(b, u, v) < 0
  }

  // ---------------------------------------------------------------- the first segment of a field

  /** The first segment of the field that contains it. */
  ghost predicate IsFirst(cat: Catalog, b: Board, r: FieldSegment) {
    && IsFieldSegment(cat, b, r)
    && forall u {:trigger IsFieldSegment(cat, b, u)} ::
         IsFieldSegment(cat, b, u) && u.Zone() in Class(cat, b, r.Zone()) ==> u == r || CompareSegments(b, r, u) < 0
  }

  /** Two fields have the same first segment only when they are the same field. */
  lemma FirstIdentifies(cat: Catalog, b: Board, u: FieldSegment, v: FieldSegment)
    requires ValidCatalog(cat) && WellPlaced(cat, b) && IsFirst(cat, b, u) && IsFirst(cat, b, v)
    ensures u == v <==> Class(cat, b, u.Zone()) == Class(cat, b, v.Zone())
  {
    if Class(cat, b, u.Zone()) == Class(cat, b, v.Zone()) {
      SegmentHasZone(cat, b, u);
      SegmentHasZone(cat, b, v);
      CompareLaws(b, u, v, u);
    }
  }

  lemma SegmentHasZone(cat: Catalog, b: Board, u: FieldSegment)
    requires ValidCatalog(cat) && WellPlaced(cat, b) && IsFieldSegment(cat, b, u)
    ensures u.Zone() in Zones(cat, b) && u.Zone() in Class(cat, b, u.Zone())
  {
    var pz :| IsSegment(cat, b, u, pz);
    Resolves(cat, b, u.Zone(), pz);
    Reflexive(ZoneGraph(cat, b), u.Zone());
  }

  /** The first of the segments that are listed under one root. */
  method CanonicalSegment(b: Board, segments: seq<FieldSegment>) returns (first: FieldSegment)
    requires segments != []
    ensures first in segments && forall u :: u in segments ==> u == first || CompareSegments(b, first, u) < 0
  {
    first := segments[0];
    for i := 1 to |segments|
      invariant first in segments
      invariant forall k :: 0 <= k < i ==> segments[k] == first || CompareSegments(b, first, segments[k]) < 0
    {
      CompareLaws(b, first, segments[i], first);
      if CompareSegments(b, segments[i], first) < 0 {
        forall k | 0 <= k < i
          ensures CompareSegments(b, segments[i], segments[k]) < 0
        {
          CompareLaws(b, segments[i], first, segments[k]);
        }
        first := segments[i];
      }
    }
  }

  /** It is the first segment of the whole field, and does not depend on the root. */
  lemma CanonicalIsFirst(cat: Catalog, b: Board, root: map<FieldSegment, FieldSegment>,
                         byRoot: map<FieldSegment, seq<FieldSegment>>, r: FieldSegment, first: FieldSegment)
    requires ValidCatalog(cat) && WellPlaced(cat, b) && FieldPartition(cat, b, root) && GroupedByRoot(root, byRoot, {})
    requires r in byRoot && r in root && root[r] == r
    requires first in byRoot[r] && forall u :: u in byRoot[r] ==> u == first || CompareSegments(b, first, u) < 0
    ensures IsFirst(cat, b, first) && Class(cat, b, first.Zone()) == Class(cat, b, r.Zone())
  {
    assert first in root && root[first] == r && IsFieldSegment(cat, b, first);
    FieldZone(cat, b, root, r);
    FieldZone(cat, b, root, first);
    assert SameField(cat, b, root, r, first);
    NeighborsSymmetric(cat, b);
    SameComponent(ZoneGraph(cat, b), r.Zone(), first.Zone());
    forall u | IsFieldSegment(cat, b, u) && u.Zone() in Class(cat, b, first.Zone())
      ensures u == first || CompareSegments(b, first, u) < 0
    {
      assert SameField(cat, b, root, first, u);
      assert root[u] == r;
    }
  }

  // ---------------------------------------------------------------- the order of the occupied fields

  /** The first segments of exactly the occupied fields, in ascending order. */
  ghost predicate FieldOrder(cat: Catalog, b: Board, ms: seq<Meeple>, firsts: seq<FieldSegment>) {
    && Strictly((u, v) => SegmentBefore(b, u, v), firsts)
    && (forall u :: u in firsts ==> IsFirst(cat, b, u))
    && (forall k :: k in OccupiedClasses(cat, b, ms, Field) <==>
        exists u :: u in firsts && k == Class(cat, b, u.Zone()))
  }

  /** The order is determined by the board and the meeples alone. */
  lemma FieldOrderIsFixed(cat: Catalog, b: Board, ms: seq<Meeple>, us: seq<FieldSegment>, vs: seq<FieldSegment>)
    requires ValidCatalog(cat) && WellPlaced(cat, b) && FieldOrder(cat, b, ms, us) && FieldOrder(cat, b, ms, vs)
    ensures us == vs
  {
    forall u
      ensures u in us <==> u in vs
    {
      if u in us { SameFirst(cat, b, ms, us, vs, u); }
      if u in vs { SameFirst(cat, b, ms, vs, us, u); }
    }
    var less := (u, v) => SegmentBefore(b, u, v);
    forall u, v | u in us && v in us && less(u, v)
      ensures !less(v, u)
    {
      CompareLaws(b, u, v, u);
    }
    SortedOnce(less, us, vs);
  }

  lemma SameFirst(cat: Catalog, b: Board, ms: seq<Meeple>, us: seq<FieldSegment>, vs: seq<FieldSegment>,
                  u: FieldSegment)
    requires ValidCatalog(cat) && WellPlaced(cat, b) && FieldOrder(cat, b, ms, us) && FieldOrder(cat, b, ms, vs)
    requires u in us
    ensures u in vs
  {
    var k := Class(cat, b, u.Zone());
    assert k in OccupiedClasses(cat, b, ms, Field);
    var v :| v in vs && k == Class(cat, b, v.Zone());
    FirstIdentifies(cat, b, u, v);
  }

  // ---------------------------------------------------------------- sorting the roots

  datatype OccupiedField = OccupiedField(root: FieldSegment, first: FieldSegment)

  predicate FieldBefore(b: Board, f: OccupiedField, g: OccupiedField) {
    SegmentBefore(b, f.first, g.first)
  }

  /** The least segment listed under the root is the first segment of its field. */
  ghost predicate RootFits(cat: Catalog, b: Board, byRoot: map<FieldSegment, seq<FieldSegment>>, r: FieldSegment) {
    r in byRoot && byRoot[r] != [] &&
    forall first ::
      first in byRoot[r] && (forall u :: u in byRoot[r] ==> u == first || CompareSegments(b, first, u) < 0) ==>
      IsFirst(cat, b, first) && Class(cat, b, first.Zone()) == Class(cat, b, r.Zone())
  }

  ghost predicate AllFit(cat: Catalog, b: Board, byRoot: map<FieldSegment, seq<FieldSegment>>,
                         roots: set<FieldSegment>) {
    && (forall r {:trigger RootFits(cat, b, byRoot, r)} :: r in roots ==> RootFits(cat, b, byRoot, r))
    && (forall q, r :: q in roots && r in roots && q != r ==> Class(cat, b, q.Zone()) != Class(cat, b, r.Zone()))
  }

  lemma RootsFit(cat: Catalog, b: Board, ms: seq<Meeple>, root: map<FieldSegment, FieldSegment>,
                 byRoot: map<FieldSegment, seq<FieldSegment>>, weights: map<FieldSegment, map<Id, nat>>)
    requires ValidCatalog(cat) && WellPlaced(cat, b) && FieldPartition(cat, b, root) && GroupedByRoot(root, byRoot, {})
    requires MeeplesWeighed(cat, b, root, ms, weights)
    ensures AllFit(cat, b, byRoot, weights.Keys)
  {
    forall r | r in weights
      ensures RootFits(cat, b, byRoot, r)
      ensures forall q :: q in weights && q != r ==> Class(cat, b, q.Zone()) != Class(cat, b, r.Zone())
    {
      RootFitsOne(cat, b, ms, root, byRoot, weights, r);
    }
  }

  lemma RootFitsOne(cat: Catalog, b: Board, ms: seq<Meeple>, root: map<FieldSegment, FieldSegment>,
                    byRoot: map<FieldSegment, seq<FieldSegment>>, weights: map<FieldSegment, map<Id, nat>>,
                    r: FieldSegment)
    requires ValidCatalog(cat) && WellPlaced(cat, b) && FieldPartition(cat, b, root) && GroupedByRoot(root, byRoot, {})
    requires MeeplesWeighed(cat, b, root, ms, weights) && r in weights
    ensures RootFits(cat, b, byRoot, r)
    ensures forall q :: q in weights && q != r ==> Class(cat, b, q.Zone()) != Class(cat, b, r.Zone())
  {
    RootsDiffer(cat, b, root, weights, ms, weights.Keys - {r}, r);
    assert root[r] in byRoot && r in byRoot[root[r]];
    forall first | first in byRoot[r] && (forall u :: u in byRoot[r] ==> u == first || CompareSegments(b, first, u) < 0)
      ensures IsFirst(cat, b, first) && Class(cat, b, first.Zone()) == Class(cat, b, r.Zone())
    {
      CanonicalIsFirst(cat, b, root, byRoot, r, first);
    }
    forall q | q in weights && q != r
      ensures Class(cat, b, q.Zone()) != Class(cat, b, r.Zone())
    {
      assert Class(cat, b, q.Zone()) in FieldClasses(cat, b, weights.Keys - {r});
    }
  }

  /** Each field with its first segment, different ones for different roots. */
  ghost predicate AllFiled(cat: Catalog, b: Board, fields: seq<OccupiedField>, roots: set<FieldSegment>) {
    && (forall f :: f in fields ==>
        f.root in roots && IsFirst(cat, b, f.first) && Class(cat, b, f.first.Zone()) == Class(cat, b, f.root.Zone()))
    && (forall r :: r in roots ==> exists f :: f in fields && f.root == r)
    && (forall i, j :: 0 <= i < j < |fields| ==> fields[i].root != fields[j].root)
  }

  /** Looks up the first segment of every root, in whatever order the map yields them. */
  method FileRoots(cat: Catalog, b: Board, byRoot: map<FieldSegment, seq<FieldSegment>>, members: set<FieldSegment>)
    returns (fields: seq<OccupiedField>)
    requires AllFit(cat, b, byRoot, members)
    ensures AllFiled(cat, b, fields, members)
  {
    fields := [];
    var todo := members;
    while todo != {}
      invariant todo <= members && AllFiled(cat, b, fields, members - todo)
      decreases todo
    {
      var r :| r in todo;
      assert RootFits(cat, b, byRoot, r);
      var first := CanonicalSegment(b, byRoot[r]);
      FiledStep(cat, b, fields, members - todo, OccupiedField(r, first));
      fields := fields + [OccupiedField(r, first)];
      assert members - (todo - {r}) == members - todo + {r};
      todo := todo - {r};
    }
    assert members - todo == members;
  }

  lemma FiledStep(cat: Catalog, b: Board, fields: seq<OccupiedField>, roots: set<FieldSegment>, f: OccupiedField)
    requires AllFiled(cat, b, fields, roots) && f.root !in roots
    requires IsFirst(cat, b, f.first) && Class(cat, b, f.first.Zone()) == Class(cat, b, f.root.Zone())
    ensures AllFiled(cat, b, fields + [f], roots + {f.root})
  {
    var next := fields + [f];
    forall r | r in roots + {f.root}
      ensures exists g :: g in next && g.root == r
    {
      if r in roots {
        var g :| g in fields && g.root == r;
        assert g in next;
      } else {
        assert next[|fields|] in next;
      }
    }
    forall i, j | 0 <= i < j < |next|
      ensures next[i].root != next[j].root
    {
      assert fields[i] in fields;
    }
  }

  lemma FieldOrderLaws(b: Board, f: OccupiedField, g: OccupiedField, h: OccupiedField)
    ensures FieldBefore(b, f, g) ==> !FieldBefore(b, g, f)
    ensures !FieldBefore(b, g, f) && !FieldBefore(b, h, g) ==> !FieldBefore(b, h, f)
    ensures f.first != g.first ==> FieldBefore(b, f, g) || FieldBefore(b, g, f)
  {
    CompareLaws(b, f.first, g.first, h.first);
    CompareLaws(b, h.first, g.first, f.first);
    CompareLaws(b, f.first, h.first, g.first);
    CompareLaws(b, g.first, h.first, f.first);
  }

  /** Lists the roots of the occupied fields in the order of their first segments, whatever order the map yields them
      in. */
  method SortFields(cat: Catalog, b: Board, ms: seq<Meeple>, ghost root: map<FieldSegment, FieldSegment>,
                    byRoot: map<FieldSegment, seq<FieldSegment>>, weights: map<FieldSegment, map<Id, nat>>)
    returns (fields: seq<OccupiedField>)
    requires ValidCatalog(cat) && WellPlaced(cat, b) && FieldPartition(cat, b, root) && GroupedByRoot(root, byRoot, {})
    requires MeeplesWeighed(cat, b, root, ms, weights)
    requires forall u :: u in root ==> root[u] in root && root[root[u]] == root[u]
    ensures AllFiled(cat, b, fields, weights.Keys) && FieldOrder(cat, b, ms, FirstsOf(fields))
  {
    RootsFit(cat, b, ms, root, byRoot, weights);
    var listed := FileRoots(cat, b, byRoot, weights.Keys);
    fields := Arranged((f, g) => FieldBefore(b, f, g), listed);
    FieldsArranged(cat, b, listed, weights.Keys);
    RecordedIsOccupied(cat, b, ms, root, weights);
    FirstsInOrder(cat, b, ms, fields, weights.Keys);
  }

  function FirstsOf(fields: seq<OccupiedField>): (firsts: seq<FieldSegment>)
    ensures |firsts| == |fields| && forall i :: 0 <= i < |fields| ==> firsts[i] == fields[i].first
  {
    seq(|fields|, i requires 0 <= i < |fields| => fields[i].first)
  }

  lemma FieldsArranged(cat: Catalog, b: Board, listed: seq<OccupiedField>, roots: set<FieldSegment>)
    requires ValidCatalog(cat) && WellPlaced(cat, b) && AllFiled(cat, b, listed, roots)
    requires forall q, r :: q in roots && r in roots && q != r ==> Class(cat, b, q.Zone()) != Class(cat, b, r.Zone())
    ensures var less := (f, g) => FieldBefore(b, f, g);
            AllFiled(cat, b, Arranged(less, listed), roots) && Strictly(less, Arranged(less, listed))
  {
    var less := (f, g) => FieldBefore(b, f, g);
    var sorted := Arranged(less, listed);
    ArrangedSame(less, listed);
    forall f, g, h | f in listed && g in listed && h in listed
      ensures less(f, g) ==> !less(g, f)
      ensures !less(g, f) && !less(h, g) ==> !less(h, f)
    {
      FieldOrderLaws(b, f, g, h);
    }
    forall f, g | f in listed && g in listed && f != g
      ensures less(f, g) || less(g, f)
    {
      var i :| 0 <= i < |listed| && listed[i] == f;
      var j :| 0 <= j < |listed| && listed[j] == g;
      FieldOrderLaws(b, f, g, f);
    }
    ArrangedStrictly(less, listed);
    FiledStays(cat, b, listed, sorted, roots);
  }

  lemma FiledStays(cat: Catalog, b: Board, listed: seq<OccupiedField>, sorted: seq<OccupiedField>,
                   roots: set<FieldSegment>)
    requires AllFiled(cat, b, listed, roots) && multiset(sorted) == multiset(listed)
    ensures AllFiled(cat, b, sorted, roots)
  {
    forall f
      ensures f in sorted <==> f in listed
    {
      SameMember(listed, sorted, f);
    }
    forall r | r in roots
      ensures exists f :: f in sorted && f.root == r
    {
      var f :| f in listed && f.root == r;
    }
    StillOnce(listed, sorted);
    forall i, j | 0 <= i < j < |sorted|
      ensures sorted[i].root != sorted[j].root
    {
      assert sorted[i] in sorted && sorted[j] in sorted;
      var k :| 0 <= k < |listed| && listed[k] == sorted[i];
      var l :| 0 <= l < |listed| && listed[l] == sorted[j];
    }
  }

  lemma FirstsMember(fields: seq<OccupiedField>, u: FieldSegment)
    ensures u in FirstsOf(fields) <==> exists f :: f in fields && f.first == u
  {
    var firsts := FirstsOf(fields);
    if u in firsts {
      var i :| 0 <= i < |firsts| && firsts[i] == u;
      assert fields[i] in fields;
    }
    if f :| f in fields && f.first == u {
      var i :| 0 <= i < |fields| && fields[i] == f;
      assert firsts[i] == u;
    }
  }

  lemma FirstsInOrder(cat: Catalog, b: Board, ms: seq<Meeple>, fields: seq<OccupiedField>, roots: set<FieldSegment>)
    requires AllFiled(cat, b, fields, roots) && Strictly((f, g) => FieldBefore(b, f, g), fields)
    requires FieldClasses(cat, b, roots) == OccupiedClasses(cat, b, ms, Field)
    ensures FieldOrder(cat, b, ms, FirstsOf(fields))
  {
    var firsts := FirstsOf(fields);
    forall i, j | 0 <= i < j < |firsts|
      ensures SegmentBefore(b, firsts[i], firsts[j])
    {
      assert FieldBefore(b, fields[i], fields[j]);
    }
    forall u | u in firsts
      ensures IsFirst(cat, b, u)
    {
      FirstsMember(fields, u);
    }
    forall k
      ensures k in OccupiedClasses(cat, b, ms, Field) <==> exists u :: u in firsts && k == Class(cat, b, u.Zone())
    {
      FirstOfClass(cat, b, fields, roots, k);
    }
  }

  lemma FirstOfClass(cat: Catalog, b: Board, fields: seq<OccupiedField>, roots: set<FieldSegment>, k: set<ZoneRef>)
    requires AllFiled(cat, b, fields, roots)
    ensures k in FieldClasses(cat, b, roots) <==> exists u :: u in FirstsOf(fields) && k == Class(cat, b, u.Zone())
  {
    if k in FieldClasses(cat, b, roots) {
      var r :| r in roots && k == Class(cat, b, r.Zone());
      var f :| f in fields && f.root == r;
      FirstsMember(fields, f.first);
    }
    if u :| u in FirstsOf(fields) && k == Class(cat, b, u.Zone()) {
      FirstsMember(fields, u);
      var f :| f in fields && f.first == u;
      assert k == Class(cat, b, f.root.Zone());
    }
  }

  /** Each root once, with the field of its first segment. */
  ghost predicate Rooted(cat: Catalog, b: Board, fields: seq<OccupiedField>, roots: set<FieldSegment>) {
    && (forall k :: 0 <= k < |fields| ==>
        fields[k].root in roots && Class(cat, b, fields[k].first.Zone()) == Class(cat, b, fields[k].root.Zone()))
    && (forall j, k :: 0 <= j < k < |fields| ==> fields[j].root != fields[k].root)
  }

  lemma FiledIsRooted(cat: Catalog, b: Board, fields: seq<OccupiedField>, roots: set<FieldSegment>)
    requires AllFiled(cat, b, fields, roots)
    ensures Rooted(cat, b, fields, roots) && RootsIn(fields, |fields|) == roots
  {
    forall k | 0 <= k < |fields|
      ensures fields[k].root in roots && Class(cat, b, fields[k].first.Zone()) == Class(cat, b, fields[k].root.Zone())
    {
      assert fields[k] in fields;
    }
    forall r
      ensures r in RootsIn(fields, |fields|) <==> r in roots
    {
      RootsInMember(fields, |fields|, r);
      if r in roots {
        var f :| f in fields && f.root == r;
        var k :| 0 <= k < |fields| && fields[k] == f;
      }
    }
  }

  /** The roots of the first n fields. */
  ghost function RootsIn(fields: seq<OccupiedField>, n: nat): set<FieldSegment>
    requires n <= |fields|
  {
    if n == 0 then {} else RootsIn(fields, n - 1) + {fields[n - 1].root}
  }

  lemma {:induction false} RootsInMember(fields: seq<OccupiedField>, n: nat, r: FieldSegment)
    requires n <= |fields|
    ensures r in RootsIn(fields, n) <==> exists k :: 0 <= k < n && fields[k].root == r
  {
    if n > 0 { RootsInMember(fields, n - 1, r); }
  }
}
