/** Where a tile may go: the acceptance test, the list of all placements, and the draw that looks for a placeable
    tile. */
module Placements {
  import opened Tiles
  import opened Topology

  datatype Instance = Instance(id: Id, tile: Id)

  const ROTATIONS: seq<int> := [0, 90, 180, 270]

  // ---------------------------------------------------------------- the acceptance test

  function CellBeside(x: int, y: int, side: Side): (int, int) {
    match side
    case Top => (x, y - 1)
    case Right => (x + 1, y)
    case Bottom => (x, y + 1)
    case Left => (x - 1, y)
  }

  function TileBeside(b: Board, x: int, y: int, side: Side): Option<PlacedTile> {
    TileAt(b, CellBeside(x, y, side).0, CellBeside(x, y, side).1)
  }

  /** No tile on that side, or a known tile whose touching edge has the same type. */
  predicate SideAgrees(cat: Catalog, edges: Edges, b: Board, x: int, y: int, side: Side) {
    match TileBeside(b, x, y, side)
    case None => true
    case Some(n) => n.tile in cat && edges.At(side) == RotateEdges(cat[n.tile].edges, n.rotation).At(Opposite(side))
  }

  predicate HasNeighbor(b: Board, x: int, y: int) {
    || TileBeside(b, x, y, Top).Some? || TileBeside(b, x, y, Right).Some?
    || TileBeside(b, x, y, Bottom).Some? || TileBeside(b, x, y, Left).Some?
  }

  predicate CanPlaceTile(cat: Catalog, tile: Id, x: int, y: int, rotation: int, b: Board) {
    && TileAt(b, x, y).None?
    && tile in cat
    && HasNeighbor(b, x, y)
    && var edges := RotateEdges(cat[tile].edges, rotation);
       && SideAgrees(cat, edges, b, x, y, Top) && SideAgrees(cat, edges, b, x, y, Right)
       && SideAgrees(cat, edges, b, x, y, Bottom) && SideAgrees(cat, edges, b, x, y, Left)
  }

  lemma BesideIsCell(t: PlacedTile, n: PlacedTile, side: Side)
    ensures Beside(t, n, side) <==> (n.x, n.y) == CellBeside(t.x, t.y, side)
    ensures Beside(t, n, side) <==> Beside(n, t, Opposite(side))
  {}

  /** A tile placed where the test allows it touches the board and matches every tile it touches. */
  lemma AcceptedMatches(cat: Catalog, b: Board, t: PlacedTile, n: PlacedTile, side: Side)
    requires WellPlaced(cat, b) && CanPlaceTile(cat, t.tile, t.x, t.y, t.rotation, b)
    requires n in b && Beside(t, n, side)
    ensures EdgesMatch(cat, t, n, side)
  {
    TileAtMeaning(cat, b, n.x, n.y, n);
    assert TileBeside(b, t.x, t.y, side) == Some(n);
    assert SideAgrees(cat, RotateEdges(cat[t.tile].edges, t.rotation), b, t.x, t.y, side);
  }

  lemma AcceptedTouches(cat: Catalog, b: Board, t: PlacedTile)
    requires CanPlaceTile(cat, t.tile, t.x, t.y, t.rotation, b)
    ensures exists j, side :: 0 <= j < |b| && Beside(t, b[j], side)
  {
    var side :| TileBeside(b, t.x, t.y, side).Some?;
    var n := TileBeside(b, t.x, t.y, side).value;
    TileAtNone(b, CellBeside(t.x, t.y, side).0, CellBeside(t.x, t.y, side).1);
    BesideIsCell(t, n, side);
    var j :| 0 <= j < |b| && b[j] == n;
  }

  lemma OppositeMatch(cat: Catalog, t: PlacedTile, n: PlacedTile, side: Side)
    requires t.tile in cat && n.tile in cat && EdgesMatch(cat, t, n, side)
    ensures EdgesMatch(cat, n, t, Opposite(side))
  {}

  lemma PlacingKeepsCells(cat: Catalog, b: Board, t: PlacedTile)
    requires WellPlaced(cat, b) && CanPlaceTile(cat, t.tile, t.x, t.y, t.rotation, b)
    requires t.rotation in {0, 90, 180, 270} && forall n :: n in b ==> n.instance != t.instance
    ensures WellPlaced(cat, b + [t])
  {
    TileAtNone(b, t.x, t.y);
    assert forall i :: 0 <= i < |b| ==> b[i] in b;
  }

  lemma PlacingKeepsMatch(cat: Catalog, b: Board, t: PlacedTile, p: PlacedTile, q: PlacedTile, side: Side)
    requires LegalBoard(cat, b) && CanPlaceTile(cat, t.tile, t.x, t.y, t.rotation, b)
    requires p in b + [t] && q in b + [t] && Beside(p, q, side)
    ensures p.tile in cat && q.tile in cat && EdgesMatch(cat, p, q, side)
  {
    BesideIsCell(p, q, side);
    if p in b && q in b {
      TouchingSides(cat, b, p, q, side);
    } else if p in b {
      AcceptedMatches(cat, b, t, p, Opposite(side));
      OppositeMatch(cat, t, p, Opposite(side));
    } else if q in b {
      AcceptedMatches(cat, b, t, q, side);
    }
  }

  /** Adding an accepted tile keeps the board legal. */
  lemma PlacingKeepsLegal(cat: Catalog, b: Board, t: PlacedTile)
    requires LegalBoard(cat, b) && CanPlaceTile(cat, t.tile, t.x, t.y, t.rotation, b)
    requires t.rotation in {0, 90, 180, 270} && forall n :: n in b ==> n.instance != t.instance
    ensures LegalBoard(cat, b + [t])
  {
    var c := b + [t];
    PlacingKeepsCells(cat, b, t);
    forall p, q, side | p in c && q in c && Beside(p, q, side)
      ensures EdgesMatch(cat, p, q, side)
    {
      PlacingKeepsMatch(cat, b, t, p, q, side);
    }
    forall i | 0 < i < |c|
      ensures TouchesEarlier(c, i)
    {
      PlacingKeepsTouch(cat, b, t, i);
    }
  }

  lemma LegalTouches(cat: Catalog, b: Board, t: PlacedTile)
    requires b != [] && LegalBoard(cat, b + [t])
    ensures HasNeighbor(b, t.x, t.y)
  {
    var c := b + [t];
    assert TouchesEarlier(c, |b|);
    var j, side :| 0 <= j < |b| && Beside(c[|b|], c[j], side);
    BesideIsCell(t, b[j], side);
    TileAtMeaning(cat, c, b[j].x, b[j].y, b[j]);
    TileAtNone(b, CellBeside(t.x, t.y, side).0, CellBeside(t.x, t.y, side).1);
    assert TileBeside(b, t.x, t.y, side).Some?;
  }

  lemma LegalAgrees(cat: Catalog, b: Board, t: PlacedTile, side: Side)
    requires LegalBoard(cat, b + [t])
    ensures t.tile in cat && SideAgrees(cat, RotateEdges(cat[t.tile].edges, t.rotation), b, t.x, t.y, side)
  {
    var c := b + [t];
    assert c[|b|] == t;
    TileAtNone(b, CellBeside(t.x, t.y, side).0, CellBeside(t.x, t.y, side).1);
    if TileBeside(b, t.x, t.y, side).Some? {
      var n := TileBeside(b, t.x, t.y, side).value;
      BesideIsCell(t, n, side);
      assert n in c && t in c && Beside(t, n, side);
      var k :| 0 <= k < |b| && b[k] == n;
      assert c[k] == n;
      assert EdgesMatch(cat, t, n, side);
    }
  }

  /** A tile is accepted if and only if the board with it is legal: no two tiles on a cell, all touching edges of one
      type, and every tile beside an earlier one. */
  lemma AcceptedIffLegal(cat: Catalog, b: Board, t: PlacedTile)
    requires LegalBoard(cat, b) && b != [] && t.tile in cat && t.rotation in {0, 90, 180, 270}
    requires forall n :: n in b ==> n.instance != t.instance
    ensures CanPlaceTile(cat, t.tile, t.x, t.y, t.rotation, b) <==> LegalBoard(cat, b + [t])
  {
    if CanPlaceTile(cat, t.tile, t.x, t.y, t.rotation, b) {
      PlacingKeepsLegal(cat, b, t);
    }
    if LegalBoard(cat, b + [t]) {
      LegalTouches(cat, b, t);
      LegalAgrees(cat, b, t, Top);
      LegalAgrees(cat, b, t, Right);
      LegalAgrees(cat, b, t, Bottom);
      LegalAgrees(cat, b, t, Left);
      CellIsFree(cat, b, t);
    }
  }

  lemma CellIsFree(cat: Catalog, b: Board, t: PlacedTile)
    requires LegalBoard(cat, b + [t])
    ensures TileAt(b, t.x, t.y).None?
  {
    var c := b + [t];
    TileAtNone(b, t.x, t.y);
    forall n | n in b
      ensures n.x != t.x || n.y != t.y
    {
      var k :| 0 <= k < |b| && b[k] == n;
      assert c[k] == n && c[|b|] == t;
    }
  }

  lemma PlacingKeepsTouch(cat: Catalog, b: Board, t: PlacedTile, i: nat)
    requires LegalBoard(cat, b) && CanPlaceTile(cat, t.tile, t.x, t.y, t.rotation, b) && 0 < i < |b + [t]|
    ensures TouchesEarlier(b + [t], i)
  {
    var c := b + [t];
    if i == |b| {
      AcceptedTouches(cat, b, t);
      var j, side :| 0 <= j < |b| && Beside(t, b[j], side);
      assert Beside(c[i], c[j], side);
    } else {
      assert TouchesEarlier(b, i);
      var j, side :| 0 <= j < i && Beside(b[i], b[j], side);
      assert Beside(c[i], c[j], side);
    }
  }

  /** Only the remainder of the rotation matters. */
  lemma RotationClass(cat: Catalog, tile: Id, x: int, y: int, rotation: int, b: Board)
    ensures CanPlaceTile(cat, tile, x, y, rotation, b) <==>
              CanPlaceTile(cat, tile, x, y, NormalizeRotation(rotation), b)
  {
    NormalizeIsRemainder(rotation);
  }

  // ---------------------------------------------------------------- candidates

  /** The empty cells next to some placed tile. */
  ghost predicate IsCandidate(b: Board, cell: (int, int)) {
    TileAt(b, cell.0, cell.1).None? && HasNeighbor(b, cell.0, cell.1)
  }

  ghost predicate TouchesFirst(b: Board, n: nat, cell: (int, int))
    requires n <= |b|
  {
    exists i, side :: 0 <= i < n && cell == CellBeside(b[i].x, b[i].y, side)
  }

  method CandidateCells(b: Board) returns (cells: set<(int, int)>)
    ensures forall c :: c in cells <==> IsCandidate(b, c)
  {
    cells := {};
    for i := 0 to |b|
      invariant forall c :: c in cells <==> TileAt(b, c.0, c.1).None? && TouchesFirst(b, i, c)
    {
      var before := cells;
      var around := CellsAround(b[i].x, b[i].y);
      cells := before + set c | c in around && TileAt(b, c.0, c.1).None?;
      forall c
        ensures TouchesFirst(b, i + 1, c) <==> TouchesFirst(b, i, c) || c in around
      {
        TouchesStep(b, i, c);
      }
    }
    forall c
      ensures TouchesFirst(b, |b|, c) <==> HasNeighbor(b, c.0, c.1)
    {
      TouchesIsNeighbor(b, c);
    }
  }

  function CellsAround(x: int, y: int): set<(int, int)> {
    {CellBeside(x, y, Top), CellBeside(x, y, Right), CellBeside(x, y, Bottom), CellBeside(x, y, Left)}
  }

  lemma TouchesStep(b: Board, i: nat, c: (int, int))
    requires i < |b|
    ensures TouchesFirst(b, i + 1, c) <==> TouchesFirst(b, i, c) || c in CellsAround(b[i].x, b[i].y)
  {
    if c in CellsAround(b[i].x, b[i].y) {
      var side :| c == CellBeside(b[i].x, b[i].y, side);
    }
  }

  lemma ThereAndBack(x: int, y: int, side: Side)
    ensures CellBeside(CellBeside(x, y, side).0, CellBeside(x, y, side).1, Opposite(side)) == (x, y)
    ensures Opposite(Opposite(side)) == side
  {}

  lemma TouchesIsNeighbor(b: Board, c: (int, int))
    ensures TouchesFirst(b, |b|, c) <==> HasNeighbor(b, c.0, c.1)
  {
    if TouchesFirst(b, |b|, c) {
      var i, side :| 0 <= i < |b| && c == CellBeside(b[i].x, b[i].y, side);
      ThereAndBack(b[i].x, b[i].y, side);
      TileAtNone(b, b[i].x, b[i].y);
      assert TileBeside(b, c.0, c.1, Opposite(side)).Some?;
    }
    if HasNeighbor(b, c.0, c.1) {
      var side :| TileBeside(b, c.0, c.1, side).Some?;
      var cell := CellBeside(c.0, c.1, side);
      TileAtNone(b, cell.0, cell.1);
      var n := TileBeside(b, c.0, c.1, side).value;
      assert n.x == cell.0 && n.y == cell.1;
      var i :| 0 <= i < |b| && b[i] == n;
      ThereAndBack(c.0, c.1, side);
      assert c == CellBeside(b[i].x, b[i].y, Opposite(side));
    }
  }

  ghost predicate Placeable(cat: Catalog, tile: Id, b: Board) {
    exists x, y, rotation :: IsValidRotation(rotation) && CanPlaceTile(cat, tile, x, y, rotation, b)
  }

  /** Accepted placements sit on candidate cells, in one of the four rotations. */
  lemma AcceptedIsCandidate(cat: Catalog, tile: Id, x: int, y: int, rotation: int, b: Board)
    requires IsValidRotation(rotation) && CanPlaceTile(cat, tile, x, y, rotation, b)
    ensures IsCandidate(b, (x, y)) && NormalizeRotation(rotation) in ROTATIONS
    ensures CanPlaceTile(cat, tile, x, y, NormalizeRotation(rotation), b)
  {
    RotationClass(cat, tile, x, y, rotation, b);
  }

  /** The rotations in which a tile fits one cell, in increasing order. */
  method RotationsAt(cat: Catalog, tile: Id, cell: (int, int), b: Board) returns (rs: seq<int>)
    ensures forall r :: r in rs <==> r in ROTATIONS && CanPlaceTile(cat, tile, cell.0, cell.1, r, b)
    ensures forall i, j :: 0 <= i < j < |rs| ==> rs[i] < rs[j]
  {
    rs := [];
    for k := 0 to |ROTATIONS|
      invariant forall r :: r in rs <==> r in ROTATIONS[..k] && CanPlaceTile(cat, tile, cell.0, cell.1, r, b)
      invariant forall i :: 0 <= i < |rs| ==> rs[i] < 90 * k
      invariant forall i, j :: 0 <= i < j < |rs| ==> rs[i] < rs[j]
    {
      assert ROTATIONS[..k + 1] == ROTATIONS[..k] + [ROTATIONS[k]];
      assert ROTATIONS[k] == 90 * k;
      if CanPlaceTile(cat, tile, cell.0, cell.1, ROTATIONS[k], b) {
        rs := rs + [ROTATIONS[k]];
      }
    }
    assert ROTATIONS[..|ROTATIONS|] == ROTATIONS;
  }

  /** Looks only at candidate cells, yet decides for the whole unbounded grid. */
  method HasAnyTilePlacement(cat: Catalog, tile: Id, b: Board) returns (r: bool)
    ensures r <==> Placeable(cat, tile, b)
  {
    var cells := CandidateCells(b);
    var todo := cells;
    while todo != {}
      invariant todo <= cells
      invariant forall c, q :: c in cells && c !in todo && q in ROTATIONS ==> !CanPlaceTile(cat, tile, c.0, c.1, q, b)
      decreases todo
    {
      var c :| c in todo;
      var rs := RotationsAt(cat, tile, c, b);
      if rs != [] {
        assert rs[0] in rs && IsValidRotation(rs[0]);
        return true;
      }
      todo := todo - {c};
    }
    if Placeable(cat, tile, b) {
      var x, y, q :| IsValidRotation(q) && CanPlaceTile(cat, tile, x, y, q, b);
      AcceptedIsCandidate(cat, tile, x, y, q, b);
    }
    return false;
  }

  datatype TilePlacement = TilePlacement(x: int, y: int, rotations: seq<int>)

  /** (x, y, r) is listed. */
  predicate ListedPlacement(ps: seq<TilePlacement>, x: int, y: int, r: int) {
    exists i :: 0 <= i < |ps| && ps[i].x == x && ps[i].y == y && r in ps[i].rotations
  }

  /** Sorted by cell, one entry per cell. */
  ghost predicate InOrder(ps: seq<TilePlacement>) {
    forall i, j :: 0 <= i < j < |ps| ==> CellLess(ps[i].x, ps[i].y, ps[j].x, ps[j].y)
  }

  predicate CellLess(x: int, y: int, u: int, v: int) {
    x < u || (x == u && y < v)
  }

  /** Inserts an entry where the sort puts it. */
  method InsertPlacement(ps: seq<TilePlacement>, p: TilePlacement) returns (r: seq<TilePlacement>)
    requires InOrder(ps) && forall i :: 0 <= i < |ps| ==> (ps[i].x, ps[i].y) != (p.x, p.y)
    ensures InOrder(r) && forall q :: q in r <==> q in ps || q == p
  {
    var k := 0;
    while k < |ps| && CellLess(ps[k].x, ps[k].y, p.x, p.y)
      invariant k <= |ps| && forall i :: 0 <= i < k ==> CellLess(ps[i].x, ps[i].y, p.x, p.y)
    {
      k := k + 1;
    }
    r := ps[..k] + [p] + ps[k..];
    forall q
      ensures q in r <==> q in ps || q == p
    {
      assert ps == ps[..k] + ps[k..];
    }
  }

  /** The listed placements of a tile are exactly the accepted ones, over the whole grid and all integer rotations. */
  method ValidTilePlacements(cat: Catalog, tile: Id, b: Board) returns (ps: seq<TilePlacement>)
    ensures InOrder(ps) && forall i :: 0 <= i < |ps| ==> ps[i].rotations != []
    ensures forall x, y, q :: IsValidRotation(q) ==>
              (ListedPlacement(ps, x, y, NormalizeRotation(q)) <==> CanPlaceTile(cat, tile, x, y, q, b))
    ensures forall x, y, r :: ListedPlacement(ps, x, y, r) ==> r in ROTATIONS
  {
    ps := [];
    var cells := CandidateCells(b);
    var todo := cells;
    while todo != {}
      invariant todo <= cells && InOrder(ps)
      invariant forall p :: p in ps ==> (p.x, p.y) in cells && (p.x, p.y) !in todo && p.rotations != []
      invariant forall p :: p in ps ==> Fits(cat, tile, b, p)
      invariant forall c :: c in cells && c !in todo ==> Covered(cat, tile, b, ps, c)
      decreases todo
    {
      var c :| c in todo;
      var rs := RotationsAt(cat, tile, c, b);
      ghost var before := ps;
      if rs != [] {
        assert forall i :: 0 <= i < |ps| ==> ps[i] in ps;
        ps := InsertPlacement(ps, TilePlacement(c.0, c.1, rs));
      }
      todo := todo - {c};
      CoveredStep(cat, tile, b, before, ps, c, rs);
    }
    forall x, y, r | ListedPlacement(ps, x, y, r)
      ensures r in ROTATIONS
    {
      var i :| 0 <= i < |ps| && ps[i].x == x && ps[i].y == y && r in ps[i].rotations;
      assert Fits(cat, tile, b, ps[i]);
    }
    forall x, y, q | IsValidRotation(q)
      ensures ListedPlacement(ps, x, y, NormalizeRotation(q)) <==> CanPlaceTile(cat, tile, x, y, q, b)
    {
      ListedIffAccepted(cat, tile, b, ps, cells, x, y, q);
    }
  }

  ghost predicate Fits(cat: Catalog, tile: Id, b: Board, p: TilePlacement) {
    forall r :: r in p.rotations <==> r in ROTATIONS && CanPlaceTile(cat, tile, p.x, p.y, r, b)
  }

  ghost predicate Covered(cat: Catalog, tile: Id, b: Board, ps: seq<TilePlacement>, c: (int, int)) {
    forall r :: r in ROTATIONS && CanPlaceTile(cat, tile, c.0, c.1, r, b) ==> exists p :: p in ps && (p.x, p.y) == c
  }

  lemma CoveredStep(cat: Catalog, tile: Id, b: Board, before: seq<TilePlacement>, ps: seq<TilePlacement>, c: (int, int),
                    rs: seq<int>)
    requires forall r :: r in rs <==> r in ROTATIONS && CanPlaceTile(cat, tile, c.0, c.1, r, b)
    requires if rs != [] then forall q :: q in ps <==> q in before || q == TilePlacement(c.0, c.1, rs) else ps == before
    ensures Covered(cat, tile, b, ps, c)
    ensures forall d :: Covered(cat, tile, b, before, d) ==> Covered(cat, tile, b, ps, d)
  {
    if rs != [] {
      var p := TilePlacement(c.0, c.1, rs);
      assert p in ps && (p.x, p.y) == c;
    }
  }

  lemma ListedIffAccepted(cat: Catalog, tile: Id, b: Board, ps: seq<TilePlacement>, cells: set<(int, int)>, x: int,
                          y: int, q: int)
    requires IsValidRotation(q)
    requires forall c :: c in cells <==> IsCandidate(b, c)
    requires forall p :: p in ps ==> Fits(cat, tile, b, p)
    requires forall c :: c in cells ==> Covered(cat, tile, b, ps, c)
    ensures ListedPlacement(ps, x, y, NormalizeRotation(q)) <==> CanPlaceTile(cat, tile, x, y, q, b)
  {
    var r := NormalizeRotation(q);
    RotationClass(cat, tile, x, y, q, b);
    if ListedPlacement(ps, x, y, r) {
      var i :| 0 <= i < |ps| && ps[i].x == x && ps[i].y == y && r in ps[i].rotations;
      assert Fits(cat, tile, b, ps[i]);
    }
    if CanPlaceTile(cat, tile, x, y, q, b) {
      AcceptedIsCandidate(cat, tile, x, y, q, b);
      assert Covered(cat, tile, b, ps, (x, y));
      var p :| p in ps && (p.x, p.y) == (x, y);
      assert Fits(cat, tile, b, p);
      var i :| 0 <= i < |ps| && ps[i] == p;
    }
  }

  // ---------------------------------------------------------------- the draw

  /** No tile fits the board. */
  ghost predicate Unplaceable(cat: Catalog, tiles: seq<Instance>, b: Board) {
    forall k :: 0 <= k < |tiles| ==> !Placeable(cat, tiles[k].tile, b)
  }

  /** Position i holds the first tile that fits. */
  ghost predicate FirstFits(cat: Catalog, deck: seq<Instance>, b: Board, i: nat) {
    i < |deck| && Placeable(cat, deck[i].tile, b) && forall k :: 0 <= k < i ==> !Placeable(cat, deck[k].tile, b)
  }

  ghost predicate DrawnAt(cat: Catalog, deck: seq<Instance>, b: Board, i: nat, t: Instance, rest: seq<Instance>) {
    FirstFits(cat, deck, b, i) && t == deck[i] && rest == deck[i + 1..] + deck[..i]
  }

  /** A draw takes the first placeable tile; the ones it skipped go behind the rest in their order. */
  ghost predicate IsDraw(cat: Catalog, deck: seq<Instance>, b: Board, tile: Option<Instance>, rest: seq<Instance>) {
    match tile
    case None => Unplaceable(cat, deck, b) && rest == deck
    case Some(t) => exists i :: DrawnAt(cat, deck, b, i, t, rest)
  }

  method DrawNextPlaceableTile(cat: Catalog, deck: seq<Instance>, b: Board)
    returns (tile: Option<Instance>, rest: seq<Instance>)
    ensures IsDraw(cat, deck, b, tile, rest)
  {
    var skipped: seq<Instance>;
    skipped, rest := [], deck;
    while rest != []
      invariant skipped + rest == deck && Unplaceable(cat, skipped, b)
      decreases |rest|
    {
      var top := rest[0];
      rest := rest[1..];
      var fits := HasAnyTilePlacement(cat, top.tile, b);
      if fits {
        DrawnHere(cat, deck, b, skipped, top, rest);
        return Some(top), rest + skipped;
      }
      skipped := skipped + [top];
    }
    assert skipped == deck;
    rest := rest + skipped;
    tile := None;
  }

  lemma DrawnHere(cat: Catalog, deck: seq<Instance>, b: Board, skipped: seq<Instance>, top: Instance,
                  rest: seq<Instance>)
    requires deck == skipped + [top] + rest && Unplaceable(cat, skipped, b) && Placeable(cat, top.tile, b)
    ensures IsDraw(cat, deck, b, Some(top), rest + skipped)
  {
    var i := |skipped|;
    assert deck[..i] == skipped && deck[i + 1..] == rest;
    forall k | 0 <= k < i
      ensures !Placeable(cat, deck[k].tile, b)
    {
      assert deck[k] == skipped[k];
    }
    assert DrawnAt(cat, deck, b, i, top, rest + skipped);
  }

  /** There is only one possible draw. */
  lemma DrawUnique(cat: Catalog, deck: seq<Instance>, b: Board, t: Option<Instance>, r: seq<Instance>,
                   t': Option<Instance>, r': seq<Instance>)
    requires IsDraw(cat, deck, b, t, r) && IsDraw(cat, deck, b, t', r')
    ensures t == t' && r == r'
  {
    if t.Some? && t'.Some? {
      var i :| DrawnAt(cat, deck, b, i, t.value, r);
      var j :| DrawnAt(cat, deck, b, j, t'.value, r');
      assert i == j;
    }
  }

  /** Drawing loses and invents no tile, and what is drawn fits. */
  lemma DrawConserves(cat: Catalog, deck: seq<Instance>, b: Board, tile: Option<Instance>, rest: seq<Instance>)
    requires IsDraw(cat, deck, b, tile, rest)
    ensures multiset(deck) == multiset(rest) + (if tile.Some? then multiset{tile.value} else multiset{})
    ensures tile.Some? ==> Placeable(cat, tile.value.tile, b) && |rest| == |deck| - 1
    ensures tile.None? <==> Unplaceable(cat, deck, b)
  {
    if tile.Some? {
      var i :| DrawnAt(cat, deck, b, i, tile.value, rest);
      CutOut(deck, i);
    }
  }

  lemma CutOut<T>(s: seq<T>, i: nat)
    requires i < |s|
    ensures multiset(s) == multiset(s[i + 1..] + s[..i]) + multiset{s[i]}
  {
    assert s == s[..i] + [s[i]] + s[i + 1..];
  }
}
