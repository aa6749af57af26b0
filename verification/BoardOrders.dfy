/** The order in which final scoring lists things: by the place of a tile on the board, then by name. */
module BoardOrders {
  import opened Tiles
  import opened Topology
  import opened Pieces
  import opened FeatureScores
  import opened FieldGraphs
  import opened FieldCities
  import opened GameStates
  import opened Sorting

  // ---------------------------------------------------------------- comparing

  function SegmentName(s: Segment): string {
    match s
    case TopLeft => "top_left"
    case TopCenter => "top_center"
    case TopRight => "top_right"
    case RightTop => "right_top"
    case RightCenter => "right_center"
    case RightBottom => "right_bottom"
    case BottomRight => "bottom_right"
    case BottomCenter => "bottom_center"
    case BottomLeft => "bottom_left"
    case LeftBottom => "left_bottom"
    case LeftCenter => "left_center"
    case LeftTop => "left_top"
    case Center => "center"
  }

  function CompareStrings(a: string, b: string): int {
    if StringLess(a, b) then -1 else if StringLess(b, a) then 1 else 0
  }

  /** Tiles on the board come row by row, before tiles that are not on it; names decide the rest. */
  function CompareTileIds(b: Board, x: Id, y: Id): int {
    if x == y then 0
    else
      match (TileById(b, x), TileById(b, y))
      case (Some(t), Some(u)) =>
        if t.y < u.y then -1
        else if t.y > u.y then 1
        else if t.x < u.x then -1
        else if t.x > u.x then 1
        else if StringLess(x, y) then -1 else 1
      case (Some(_), None) => -1
      case (None, Some(_)) => 1
      case (None, None) => if StringLess(x, y) then -1 else 1
  }

  function CompareRefs(b: Board, u: ZoneRef, v: ZoneRef): int {
    var c := CompareTileIds(b, u.tile, v.tile);
    if c != 0 then c else CompareStrings(u.zone, v.zone)
  }

  function CompareSegments(b: Board, u: FieldSegment, v: FieldSegment): int {
    var c := CompareRefs(b, u.Zone(), v.Zone());
    if c != 0 then c else CompareStrings(SegmentName(u.segment), SegmentName(v.segment))
  }

  function TypeName(kind: MeepleType): string {
    match kind
    case Blank => ""
    case Regular => "regular"
    case Big => "big"
    case OtherType(name) => name
  }

  /** The second comparison decides where the first one finds no difference. */
  function Then(c: int, d: int): int {
    if c != 0 then c else d
  }

  function CompareMeeples(b: Board, m: Meeple, n: Meeple): int {
    Then(CompareRefs(b, m.Ref(), n.Ref()),
         Then(CompareStrings(m.actor, n.actor),
              Then(CompareStrings(TypeName(m.kind), TypeName(n.kind)),
                  CompareStrings(SegmentName(m.segment), SegmentName(n.segment)))))
  }

  lemma CompareStringsLaws(a: string, b: string, c: string)
    ensures CompareStrings(a, b) == 0 <==> a == b
    ensures CompareStrings(a, b) == -CompareStrings(b, a)
    ensures CompareStrings(a, b) < 0 && CompareStrings(b, c) < 0 ==> CompareStrings(a, c) < 0
  {
    StringOrder(a, b);
    if StringLess(a, b) && StringLess(b, c) { StringTransitive(a, b, c); }
  }

  lemma CompareTileIdsLaws(b: Board, x: Id, y: Id, z: Id)
    ensures CompareTileIds(b, x, y) == 0 <==> x == y
    ensures CompareTileIds(b, x, y) == -CompareTileIds(b, y, x)
    ensures CompareTileIds(b, x, y) < 0 && CompareTileIds(b, y, z) < 0 ==> CompareTileIds(b, x, z) < 0
  {
    StringOrder(x, y);
    StringOrder(y, z);
    StringOrder(x, z);
    if StringLess(x, y) && StringLess(y, z) { StringTransitive(x, y, z); }
  }

  /** Tiles come row by row from the top, and in a row from the left. */
  lemma RowByRow(cat: Catalog, b: Board, t: PlacedTile, u: PlacedTile)
    requires WellPlaced(cat, b) && t in b && u in b
    ensures CompareTileIds(b, t.instance, u.instance) < 0 <==> t.y < u.y || (t.y == u.y && t.x < u.x)
  {
    TileByIdMeaning(cat, b, t.instance, t);
    TileByIdMeaning(cat, b, u.instance, u);
    TileAtMeaning(cat, b, t.x, t.y, t);
    TileAtMeaning(cat, b, t.x, t.y, u);
  }

  /** Zones come in the order of their tiles, and on one tile in the order of their names. */
  lemma ZoneByZone(cat: Catalog, b: Board, u: ZoneRef, v: ZoneRef)
    ensures CompareRefs(b, u, v) < 0 <==>
            CompareTileIds(b, u.tile, v.tile) < 0 || (u.tile == v.tile && StringLess(u.zone, v.zone))
  {
    CompareTileIdsLaws(b, u.tile, v.tile, v.tile);
    StringOrder(u.zone, v.zone);
  }

  lemma NamesDiffer(s: Segment, t: Segment)
    ensures SegmentName(s) == SegmentName(t) <==> s == t
  {
    if SegmentName(s) == SegmentName(t) {
      assert |SegmentName(s)| == |SegmentName(t)| && SegmentName(s)[0] == SegmentName(t)[0];
      assert forall i :: 0 <= i < |SegmentName(s)| ==> SegmentName(s)[i] == SegmentName(t)[i];
    }
  }

  /** On every board the comparison of zones is a strict total order. */
  lemma CompareRefsLaws(b: Board, u: ZoneRef, v: ZoneRef, w: ZoneRef)
    ensures CompareRefs(b, u, v) == 0 <==> u == v
    ensures CompareRefs(b, u, v) == -CompareRefs(b, v, u)
    ensures CompareRefs(b, u, v) < 0 && CompareRefs(b, v, w) < 0 ==> CompareRefs(b, u, w) < 0
  {
    CompareTileIdsLaws(b, u.tile, v.tile, w.tile);
    CompareTileIdsLaws(b, v.tile, w.tile, u.tile);
    CompareStringsLaws(u.zone, v.zone, w.zone);
    CompareStringsLaws(v.zone, w.zone, u.zone);
  }

  /** So is that of field segments. */
  lemma CompareLaws(b: Board, u: FieldSegment, v: FieldSegment, w: FieldSegment)
    ensures CompareSegments(b, u, v) == 0 <==> u == v
    ensures CompareSegments(b, u, v) == -CompareSegments(b, v, u)
    ensures CompareSegments(b, u, v) < 0 && CompareSegments(b, v, w) < 0 ==> CompareSegments(b, u, w) < 0
  {
    CompareRefsLaws(b, u.Zone(), v.Zone(), w.Zone());
    CompareRefsLaws(b, v.Zone(), w.Zone(), u.Zone());
    CompareStringsLaws(SegmentName(u.segment), SegmentName(v.segment), SegmentName(w.segment));
    NamesDiffer(u.segment, v.segment);
  }

  // ---------------------------------------------------------------- sorted meeples

  predicate MeepleBefore(b: Board, m: Meeple, n: Meeple) {
    CompareMeeples(b, m, n) < 0
  }

  /** The meeples of an event, in the order in which they are listed. */
  function ArrangedMeeples(b: Board, ms: seq<Meeple>): seq<Meeple> {
    Arranged((m, n) => MeepleBefore(b, m, n), ms)
  }

  /** Three comparisons that fit a weak order: from x to y, from y to z, and from x to z. */
  predicate InLine(xy: int, yz: int, xz: int) {
    (xy <= 0 && yz <= 0 ==> xz <= 0) && (xy <= 0 && yz <= 0 && xz == 0 ==> xy == 0 && yz == 0)
  }

  lemma StringsInLine(x: string, y: string, z: string)
    ensures InLine(CompareStrings(x, y), CompareStrings(y, z), CompareStrings(x, z))
    ensures CompareStrings(x, y) == -CompareStrings(y, x)
  {
    CompareStringsLaws(x, y, z);
    CompareStringsLaws(y, z, x);
  }

  lemma RefsInLine(b: Board, x: ZoneRef, y: ZoneRef, z: ZoneRef)
    ensures InLine(CompareRefs(b, x, y), CompareRefs(b, y, z), CompareRefs(b, x, z))
    ensures CompareRefs(b, x, y) == -CompareRefs(b, y, x)
  {
    CompareRefsLaws(b, x, y, z);
    CompareRefsLaws(b, y, z, x);
  }

  lemma MeeplesInLine(b: Board, m: Meeple, n: Meeple, o: Meeple)
    ensures InLine(CompareMeeples(b, m, n), CompareMeeples(b, n, o), CompareMeeples(b, m, o))
    ensures CompareMeeples(b, m, n) == -CompareMeeples(b, n, m)
  {
    RefsInLine(b, m.Ref(), n.Ref(), o.Ref());
    StringsInLine(m.actor, n.actor, o.actor);
    StringsInLine(TypeName(m.kind), TypeName(n.kind), TypeName(o.kind));
    StringsInLine(SegmentName(m.segment), SegmentName(n.segment), SegmentName(o.segment));
  }

  lemma MeepleOrder(b: Board, m: Meeple, n: Meeple, o: Meeple)
    ensures MeepleBefore(b, m, n) ==> !MeepleBefore(b, n, m)
    ensures !MeepleBefore(b, n, m) && !MeepleBefore(b, o, n) ==> !MeepleBefore(b, o, m)
    ensures m.tile != n.tile ==> MeepleBefore(b, m, n) || MeepleBefore(b, n, m)
  {
    MeeplesInLine(b, m, n, o);
    MeeplesInLine(b, n, o, m);
    MeeplesInLine(b, o, m, n);
    CompareTileIdsLaws(b, m.tile, n.tile, o.tile);
  }

  /** The same meeples in board order; with at most one on a tile there is only one such list. */
  lemma ArrangedMeeplesLaws(b: Board, ms: seq<Meeple>)
    ensures multiset(ArrangedMeeples(b, ms)) == multiset(ms)
    ensures SortedBy((m, n) => MeepleBefore(b, m, n), ArrangedMeeples(b, ms))
    ensures OnePerTile(ms) ==> Strictly((m, n) => MeepleBefore(b, m, n), ArrangedMeeples(b, ms))
  {
    var less := (m, n) => MeepleBefore(b, m, n);
    ArrangedSame(less, ms);
    forall m, n, o | m in ms && n in ms && o in ms
      ensures less(m, n) ==> !less(n, m)
      ensures !less(n, m) && !less(o, n) ==> !less(o, m)
    {
      MeepleOrder(b, m, n, o);
    }
    ArrangedSorted(less, ms);
    if OnePerTile(ms) {
      forall m, n | m in ms && n in ms && m != n
        ensures less(m, n) || less(n, m)
      {
        MeepleOrder(b, m, n, m);
      }
      ArrangedStrictly(less, ms);
    }
  }

  /** With at most one meeple on a tile, the order of the list they come from does not matter. */
  lemma ArrangedMeeplesOnce(b: Board, ms: seq<Meeple>, ns: seq<Meeple>)
    requires OnePerTile(ms) && OnePerTile(ns) && multiset(ms) == multiset(ns)
    ensures ArrangedMeeples(b, ms) == ArrangedMeeples(b, ns)
  {
    var less := (m, n) => MeepleBefore(b, m, n);
    ArrangedMeeplesLaws(b, ms);
    ArrangedMeeplesLaws(b, ns);
    var r, s := ArrangedMeeples(b, ms), ArrangedMeeples(b, ns);
    forall m
      ensures m in r <==> m in s
    {
      SameMember(r, s, m);
    }
    forall m, n | m in r && n in r && less(m, n)
      ensures !less(n, m)
    {
      MeepleOrder(b, m, n, m);
    }
    SortedOnce(less, r, s);
  }

  // ---------------------------------------------------------------- sorted contributions

  predicate ContributionBefore(b: Board, c: Contribution, d: Contribution) {
    CompareRefs(b, ZoneRef(c.tile, c.zone), ZoneRef(d.tile, d.zone)) < 0
  }

  function ArrangedContributions(b: Board, cs: seq<Contribution>): seq<Contribution> {
    Arranged((c, d) => ContributionBefore(b, c, d), cs)
  }

  lemma {:induction false} TotalCons(c: Contribution, cs: seq<Contribution>)
    ensures Total([c] + cs) == c.points + Total(cs)
  {
    var all := [c] + cs;
    if cs == [] {
      assert all[..|all| - 1] == [];
    } else {
      TotalCons(c, cs[..|cs| - 1]);
      assert all[..|all| - 1] == [c] + cs[..|cs| - 1];
    }
  }

  lemma {:induction false} TotalInserted(less: (Contribution, Contribution) -> bool, cs: seq<Contribution>,
                                         c: Contribution)
    ensures Total(Insert(less, cs, c)) == Total(cs) + c.points
  {
    TotalCons(c, cs);
    if cs != [] {
      TotalInserted(less, cs[1..], c);
      TotalCons(cs[0], cs[1..]);
      TotalCons(cs[0], Insert(less, cs[1..], c));
      assert cs == [cs[0]] + cs[1..];
    }
  }

  lemma {:induction false} TotalArranged(less: (Contribution, Contribution) -> bool, cs: seq<Contribution>)
    ensures Total(Arranged(less, cs)) == Total(cs)
  {
    if cs != [] {
      TotalArranged(less, cs[..|cs| - 1]);
      TotalInserted(less, Arranged(less, cs[..|cs| - 1]), cs[|cs| - 1]);
    }
  }

  /** Sorting contributions changes neither the parts nor their sum. */
  lemma ArrangedContributionsLaws(b: Board, cs: seq<Contribution>)
    ensures multiset(ArrangedContributions(b, cs)) == multiset(cs) && Total(ArrangedContributions(b, cs)) == Total(cs)
    ensures SortedBy((c, d) => ContributionBefore(b, c, d), ArrangedContributions(b, cs))
  {
    var less := (c, d) => ContributionBefore(b, c, d);
    ArrangedSame(less, cs);
    TotalArranged(less, cs);
    forall c, d, e | c in cs && d in cs && e in cs
      ensures less(c, d) ==> !less(d, c)
      ensures !less(d, c) && !less(e, d) ==> !less(e, c)
    {
      RefsInLine(b, ZoneRef(c.tile, c.zone), ZoneRef(d.tile, d.zone), ZoneRef(e.tile, e.zone));
      RefsInLine(b, ZoneRef(d.tile, d.zone), ZoneRef(e.tile, e.zone), ZoneRef(c.tile, c.zone));
      RefsInLine(b, ZoneRef(e.tile, e.zone), ZoneRef(c.tile, c.zone), ZoneRef(d.tile, d.zone));
    }
    ArrangedSorted(less, cs);
  }

  // ---------------------------------------------------------------- the place of a feature

  /** The first zone of a feature in board order. */
  function FirstRef(b: Board, zones: seq<ZoneRef>): (r: ZoneRef) {
    if zones == [] then ZoneRef("", "")
    else if |zones| == 1 then zones[0]
    else
      var r := FirstRef(b, zones[1..]);
      if CompareRefs(b, zones[0], r) < 0 then zones[0] else r
  }

  lemma {:induction false} FirstRefIsFirst(b: Board, zones: seq<ZoneRef>)
    requires zones != []
    ensures FirstRef(b, zones) in zones
    ensures forall z :: z in zones ==> z == FirstRef(b, zones) || CompareRefs(b, FirstRef(b, zones), z) < 0
  {
    if |zones| > 1 {
      FirstRefIsFirst(b, zones[1..]);
      var r := FirstRef(b, zones[1..]);
      CompareRefsLaws(b, zones[0], r, r);
      forall z | z in zones
        ensures z == FirstRef(b, zones) || CompareRefs(b, FirstRef(b, zones), z) < 0
      {
        assert z == zones[0] || z in zones[1..];
        CompareRefsLaws(b, zones[0], r, z);
      }
    }
  }

  /** It does not depend on the order in which the zones were found. */
  lemma FirstRefOnce(b: Board, ys: seq<ZoneRef>, zs: seq<ZoneRef>)
    requires ys != [] && zs != [] && forall z :: z in ys <==> z in zs
    ensures FirstRef(b, ys) == FirstRef(b, zs)
  {
    FirstRefIsFirst(b, ys);
    FirstRefIsFirst(b, zs);
    CompareRefsLaws(b, FirstRef(b, ys), FirstRef(b, zs), FirstRef(b, ys));
  }

  /** Roads come before cities. */
  datatype Place = Place(kind: Kind, first: ZoneRef)

  function ComparePlaces(b: Board, p: Place, q: Place): int {
    if p.kind != q.kind then (if p.kind == Road then -1 else 1) else CompareRefs(b, p.first, q.first)
  }

  predicate PlaceBefore(b: Board, p: Place, q: Place) {
    ComparePlaces(b, p, q) < 0
  }

  lemma PlaceOrder(b: Board, p: Place, q: Place, r: Place)
    requires p.kind in {Road, City} && q.kind in {Road, City} && r.kind in {Road, City}
    ensures PlaceBefore(b, p, q) ==> !PlaceBefore(b, q, p)
    ensures !PlaceBefore(b, q, p) && !PlaceBefore(b, r, q) ==> !PlaceBefore(b, r, p)
    ensures p != q ==> PlaceBefore(b, p, q) || PlaceBefore(b, q, p)
  {
    RefsInLine(b, p.first, q.first, r.first);
    RefsInLine(b, q.first, r.first, p.first);
    RefsInLine(b, r.first, p.first, q.first);
    CompareRefsLaws(b, p.first, q.first, r.first);
  }
}
