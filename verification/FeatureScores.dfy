/** What a feature is worth, and how its worth is split over its tiles. */
module FeatureScores {
  import opened Tiles
  import opened Topology
  import opened Pieces
  import opened FeatureGraph
  import opened Sorting

  ghost function TileIds(zones: set<ZoneRef>): set<Id> {
    set z | z in zones :: z.tile
  }

  predicate IsInn(cat: Catalog, b: Board, z: ZoneRef) {
    match GetPlacedZone(cat, b, z)
    case None => false
    case Some(pz) => pz.def.kind == Road && pz.def.hasInn
  }

  predicate IsPennant(cat: Catalog, b: Board, z: ZoneRef) {
    match GetPlacedZone(cat, b, z)
    case None => false
    case Some(pz) => pz.def.kind == City && pz.def.hasPennant
  }

  predicate TileHasCathedral(cat: Catalog, b: Board, tile: Id) {
    match TileById(b, tile)
    case None => false
    case Some(t) => t.tile in cat && exists z :: z in cat[t.tile].zones && z.kind == Cathedral
  }

  ghost predicate HasInn(cat: Catalog, b: Board, zones: set<ZoneRef>) {
    exists z :: z in zones && IsInn(cat, b, z)
  }

  ghost predicate HasCathedral(cat: Catalog, b: Board, zones: set<ZoneRef>) {
    exists z :: z in zones && TileHasCathedral(cat, b, z.tile)
  }

  ghost function Pennants(cat: Catalog, b: Board, zones: set<ZoneRef>): set<ZoneRef> {
    set z | z in zones && IsPennant(cat, b, z)
  }

  /** Points per tile (and per pennant) of a completed feature. */
  ghost function CompletedRate(cat: Catalog, b: Board, kind: Kind, zones: set<ZoneRef>): nat {
    if kind == City then if HasCathedral(cat, b, zones) then 3 else 2
    else if HasInn(cat, b, zones) then 2 else 1
  }

  /** Points per tile (and per pennant) of an unfinished feature at the end of the game. */
  ghost function FinalRate(cat: Catalog, b: Board, kind: Kind, zones: set<ZoneRef>): nat {
    if kind == City then if HasCathedral(cat, b, zones) then 0 else 1
    else if HasInn(cat, b, zones) then 0 else 1
  }

  /** Roads count tiles, cities count tiles and pennants. */
  ghost function Units(cat: Catalog, b: Board, kind: Kind, zones: set<ZoneRef>): nat {
    |TileIds(zones)| + if kind == City then |Pennants(cat, b, zones)| else 0
  }

  ghost function CompletedPoints(cat: Catalog, b: Board, kind: Kind, zones: set<ZoneRef>): nat {
    CompletedRate(cat, b, kind, zones) * Units(cat, b, kind, zones)
  }

  ghost function FinalPoints(cat: Catalog, b: Board, kind: Kind, zones: set<ZoneRef>): nat {
    FinalRate(cat, b, kind, zones) * Units(cat, b, kind, zones)
  }

  lemma CompletedWorthSomething(cat: Catalog, b: Board, kind: Kind, zones: set<ZoneRef>)
    requires zones != {}
    ensures 0 < CompletedPoints(cat, b, kind, zones)
  {
    var z :| z in zones;
    assert z.tile in TileIds(zones);
    assert 0 < Units(cat, b, kind, zones) && 0 < CompletedRate(cat, b, kind, zones);
    assert CompletedPoints(cat, b, kind, zones) >= Units(cat, b, kind, zones);
  }

  /** What counts as an inn, a pennant and a cathedral on the board. */
  lemma MarksMeaning(cat: Catalog, b: Board, pz: PlacedZone)
    requires ValidCatalog(cat) && WellPlaced(cat, b) && OnBoard(cat, b, pz)
    ensures IsInn(cat, b, pz.Ref()) <==> pz.def.kind == Road && pz.def.hasInn
    ensures IsPennant(cat, b, pz.Ref()) <==> pz.def.kind == City && pz.def.hasPennant
    ensures TileHasCathedral(cat, b, pz.Ref().tile) <==>
            exists q :: OnBoard(cat, b, q) && q.tile == pz.tile && q.def.kind == Cathedral
  {
    Resolves(cat, b, pz.Ref(), pz);
    TileByIdMeaning(cat, b, pz.tile.instance, pz.tile);
    if TileHasCathedral(cat, b, pz.tile.instance) {
      var z :| z in cat[pz.tile.tile].zones && z.kind == Cathedral;
      assert OnBoard(cat, b, PlacedZone(pz.tile, z));
    }
  }

  /** A feature has an inn exactly if one of its zones on the board is a road with an inn. */
  lemma InnOnBoard(cat: Catalog, b: Board, zones: set<ZoneRef>)
    requires ValidCatalog(cat) && WellPlaced(cat, b) && zones <= Zones(cat, b)
    ensures HasInn(cat, b, zones) <==>
            exists pz :: OnBoard(cat, b, pz) && pz.Ref() in zones && pz.def.kind == Road && pz.def.hasInn
  {
    if z :| z in zones && IsInn(cat, b, z) {
      ZonesMember(cat, b, z);
      var pz :| OnBoard(cat, b, pz) && pz.Ref() == z;
      MarksMeaning(cat, b, pz);
    }
    if pz :| OnBoard(cat, b, pz) && pz.Ref() in zones && pz.def.kind == Road && pz.def.hasInn {
      MarksMeaning(cat, b, pz);
    }
  }

  /** It has a cathedral exactly if one of its zones shares its tile with a cathedral. */
  lemma CathedralOnBoard(cat: Catalog, b: Board, zones: set<ZoneRef>)
    requires ValidCatalog(cat) && WellPlaced(cat, b) && zones <= Zones(cat, b)
    ensures HasCathedral(cat, b, zones) <==>
            exists pz, q :: OnBoard(cat, b, pz) && pz.Ref() in zones && OnBoard(cat, b, q) && q.tile == pz.tile &&
                            q.def.kind == Cathedral
  {
    if z :| z in zones && TileHasCathedral(cat, b, z.tile) {
      ZonesMember(cat, b, z);
      var pz :| OnBoard(cat, b, pz) && pz.Ref() == z;
      MarksMeaning(cat, b, pz);
    }
    if pz, q :| OnBoard(cat, b, pz) && pz.Ref() in zones && OnBoard(cat, b, q) && q.tile == pz.tile &&
                q.def.kind == Cathedral {
      MarksMeaning(cat, b, pz);
    }
  }

  // ---------------------------------------------------------------- loops over the zones of a feature

  /** The first n zones of a list. */
  ghost function First(zones: seq<ZoneRef>, n: nat): set<ZoneRef>
    requires n <= |zones|
  {
    var front := zones[..n];
    set z | z in front
  }

  lemma FirstStep(zones: seq<ZoneRef>, i: nat)
    requires i < |zones|
    ensures First(zones, i + 1) == First(zones, i) + {zones[i]}
    ensures NoTwice(zones) ==> zones[i] !in First(zones, i)
  {
    assert zones[..i + 1] == zones[..i] + [zones[i]];
  }

  lemma FirstAll(zones: seq<ZoneRef>, members: set<ZoneRef>)
    requires Lists(zones, members)
    ensures First(zones, |zones|) == members
  {
    assert zones[..|zones|] == zones;
  }

  method UniqueTileIds(zones: seq<ZoneRef>, ghost members: set<ZoneRef>) returns (count: nat)
    requires Lists(zones, members)
    ensures count == |TileIds(members)|
  {
    var seen: set<Id> := {};
    for i := 0 to |zones|
      invariant seen == TileIds(First(zones, i))
    {
      FirstStep(zones, i);
      seen := seen + {zones[i].tile};
    }
    FirstAll(zones, members);
    count := |seen|;
  }

  method CountPennants(cat: Catalog, b: Board, zones: seq<ZoneRef>, ghost members: set<ZoneRef>) returns (count: nat)
    requires NoTwice(zones) && Lists(zones, members)
    ensures count == |Pennants(cat, b, members)|
  {
    count := 0;
    for i := 0 to |zones|
      invariant count == |Pennants(cat, b, First(zones, i))|
    {
      PennantStep(cat, b, zones, i);
      if IsPennant(cat, b, zones[i]) {
        count := count + 1;
      }
    }
    FirstAll(zones, members);
  }

  lemma PennantStep(cat: Catalog, b: Board, zones: seq<ZoneRef>, i: nat)
    requires NoTwice(zones) && i < |zones|
    ensures |Pennants(cat, b, First(zones, i + 1))| ==
            |Pennants(cat, b, First(zones, i))| + if IsPennant(cat, b, zones[i]) then 1 else 0
  {
    FirstStep(zones, i);
    var before, after := Pennants(cat, b, First(zones, i)), Pennants(cat, b, First(zones, i + 1));
    if IsPennant(cat, b, zones[i]) {
      assert after == before + {zones[i]};
    } else {
      assert after == before;
    }
  }

  method FeatureHasInn(cat: Catalog, b: Board, zones: seq<ZoneRef>, ghost members: set<ZoneRef>) returns (r: bool)
    requires Lists(zones, members)
    ensures r <==> HasInn(cat, b, members)
  {
    for i := 0 to |zones|
      invariant forall k :: 0 <= k < i ==> !IsInn(cat, b, zones[k])
    {
      if IsInn(cat, b, zones[i]) {
        assert zones[i] in members;
        return true;
      }
    }
    assert forall z :: z in members ==> z in zones;
    return false;
  }

  method FeatureHasCathedral(cat: Catalog, b: Board, zones: seq<ZoneRef>, ghost members: set<ZoneRef>) returns (r: bool)
    requires Lists(zones, members)
    ensures r <==> HasCathedral(cat, b, members)
  {
    for i := 0 to |zones|
      invariant forall k :: 0 <= k < i ==> !TileHasCathedral(cat, b, zones[k].tile)
    {
      if TileHasCathedral(cat, b, zones[i].tile) {
        assert zones[i] in members;
        return true;
      }
    }
    assert forall z :: z in members ==> z in zones;
    return false;
  }

  // ---------------------------------------------------------------- contributions

  datatype Contribution = Contribution(tile: Id, zone: Id, points: int)

  function Total(cs: seq<Contribution>): int {
    if cs == [] then 0 else Total(cs[..|cs| - 1]) + cs[|cs| - 1].points
  }

  lemma {:induction false} TotalUpdate(cs: seq<Contribution>, i: nat, c: Contribution)
    requires i < |cs|
    ensures Total(cs[i := c]) == Total(cs) - cs[i].points + c.points
  {
    var n := |cs| - 1;
    if i == n {
      assert cs[i := c][..n] == cs[..n];
    } else {
      TotalUpdate(cs[..n], i, c);
      assert cs[i := c][..n] == cs[..n][i := c];
    }
  }

  /** One contribution per tile, filed under the index remembered for the tile. */
  ghost predicate Filed(cs: seq<Contribution>, index: map<Id, nat>) {
    && (forall t :: t in index ==> index[t] < |cs| && cs[index[t]].tile == t)
    && (forall i :: 0 <= i < |cs| ==> cs[i].tile in index && index[cs[i].tile] == i)
  }

  /** A new tile gets its own entry. */
  method FileTile(cs: seq<Contribution>, index: map<Id, nat>, ref: ZoneRef, rate: nat)
    returns (cs': seq<Contribution>, index': map<Id, nat>)
    requires Filed(cs, index)
    ensures Filed(cs', index') && index'.Keys == index.Keys + {ref.tile} && cs <= cs'
    ensures Total(cs') == Total(cs) + if ref.tile in index then 0 else rate
    ensures forall t :: t in index ==> index'[t] == index[t]
    ensures ref.tile !in index ==> cs'[index'[ref.tile]].points == rate
  {
    cs', index' := cs, index;
    if ref.tile !in index {
      index' := index[ref.tile := |cs|];
      cs' := cs + [Contribution(ref.tile, ref.zone, rate)];
      assert cs'[..|cs|] == cs;
    }
  }

  /** Adds one zone: a new tile gets its own entry, a pennant raises the entry of its tile. */
  method FileZone(cs: seq<Contribution>, index: map<Id, nat>, ref: ZoneRef, rate: nat, pennant: bool)
    returns (cs': seq<Contribution>, index': map<Id, nat>)
    requires Filed(cs, index)
    ensures Filed(cs', index') && index'.Keys == index.Keys + {ref.tile}
    ensures Total(cs') == Total(cs) + (if ref.tile in index then 0 else rate) + (if pennant then rate else 0)
    ensures forall t :: t in index' && t != ref.tile ==> cs'[index'[t]].points == cs[index[t]].points
    ensures cs'[index'[ref.tile]].points ==
            (if ref.tile in index then cs[index[ref.tile]].points else rate) + (if pennant then rate else 0)
  {
    cs', index' := FileTile(cs, index, ref, rate);
    if pennant {
      cs' := Raise(cs', index'[ref.tile], rate);
    }
  }

  method Raise(cs: seq<Contribution>, at: nat, rate: nat) returns (cs': seq<Contribution>)
    requires at < |cs|
    ensures cs' == cs[at := cs[at].(points := cs[at].points + rate)] && Total(cs') == Total(cs) + rate
  {
    cs' := cs[at := cs[at].(points := cs[at].points + rate)];
    TotalUpdate(cs, at, cs'[at]);
  }

  /** The first n zones are accounted for. */
  ghost predicate Accounted(cat: Catalog, b: Board, kind: Kind, rate: nat, zones: seq<ZoneRef>, n: nat,
                            cs: seq<Contribution>, index: map<Id, nat>)
    requires n <= |zones|
  {
    Filed(cs, index) && index.Keys == TileIds(First(zones, n)) &&
    Total(cs) == Times(rate, Units(cat, b, kind, First(zones, n)))
  }

  /** What one tile counts for: itself, and in a city each of its pennants. */
  ghost function TileUnits(cat: Catalog, b: Board, kind: Kind, zones: set<ZoneRef>, tile: Id): nat {
    1 + if kind == City then |Pennants(cat, b, On(zones, tile))| else 0
  }

  ghost function On(zones: set<ZoneRef>, tile: Id): set<ZoneRef> {
    set z | z in zones && z.tile == tile
  }

  /** Every part is what its tile counts for, at the given rate. */
  ghost predicate SharedOut(cat: Catalog, b: Board, kind: Kind, rate: nat, zones: set<ZoneRef>, cs: seq<Contribution>,
                            index: map<Id, nat>)
    requires Filed(cs, index)
  {
    forall t :: t in index ==> cs[index[t]].points == Times(rate, TileUnits(cat, b, kind, zones, t))
  }

  lemma OnStep(cat: Catalog, b: Board, kind: Kind, zones: seq<ZoneRef>, i: nat, tile: Id)
    requires NoTwice(zones) && i < |zones|
    ensures TileUnits(cat, b, kind, First(zones, i + 1), tile) ==
            TileUnits(cat, b, kind, First(zones, i), tile)
            + One(zones[i].tile == tile && kind == City && IsPennant(cat, b, zones[i]))
  {
    FirstStep(zones, i);
    var before := Pennants(cat, b, On(First(zones, i), tile));
    var after := Pennants(cat, b, On(First(zones, i + 1), tile));
    if zones[i].tile == tile && IsPennant(cat, b, zones[i]) {
      assert after == before + {zones[i]};
    } else {
      assert after == before;
    }
  }

  lemma NewTileUnits(cat: Catalog, b: Board, kind: Kind, zones: set<ZoneRef>, tile: Id)
    requires tile !in TileIds(zones)
    ensures TileUnits(cat, b, kind, zones, tile) == 1
  {
    assert Pennants(cat, b, On(zones, tile)) == {};
  }

  lemma SharedStep(cat: Catalog, b: Board, kind: Kind, rate: nat, zones: seq<ZoneRef>, i: nat, cs: seq<Contribution>,
                   index: map<Id, nat>, cs': seq<Contribution>, index': map<Id, nat>)
    requires NoTwice(zones) && i < |zones| && Filed(cs, index) && Filed(cs', index')
    requires SharedOut(cat, b, kind, rate, First(zones, i), cs, index) && index.Keys == TileIds(First(zones, i))
    requires index'.Keys == index.Keys + {zones[i].tile}
    requires forall t :: t in index' && t != zones[i].tile ==> cs'[index'[t]].points == cs[index[t]].points
    requires var ref := zones[i];
             cs'[index'[ref.tile]].points == (if ref.tile in index then cs[index[ref.tile]].points else rate)
             + (if kind == City && IsPennant(cat, b, ref) then rate else 0)
    ensures SharedOut(cat, b, kind, rate, First(zones, i + 1), cs', index')
  {
    forall t | t in index'
      ensures cs'[index'[t]].points == Times(rate, TileUnits(cat, b, kind, First(zones, i + 1), t))
    {
      OnStep(cat, b, kind, zones, i, t);
      if t !in index {
        NewTileUnits(cat, b, kind, First(zones, i), t);
        TimesIsProduct(rate, 1);
      }
      TimesStep(rate, TileUnits(cat, b, kind, First(zones, i), t), TileUnits(cat, b, kind, First(zones, i + 1), t),
          false,
                zones[i].tile == t && kind == City && IsPennant(cat, b, zones[i]));
    }
  }

  /** Splits the points of a feature over its tiles: each tile gets the rate for itself and for each of its pennants,
      and the parts always add up to the whole. */
  method ScoreContributions(cat: Catalog, b: Board, zones: seq<ZoneRef>, ghost members: set<ZoneRef>, kind: Kind,
                            rate: nat)
    returns (cs: seq<Contribution>, index: map<Id, nat>)
    requires NoTwice(zones) && Lists(zones, members)
    ensures Total(cs) == rate * Units(cat, b, kind, members)
    ensures Filed(cs, index) && index.Keys == TileIds(members)
    ensures forall c :: c in cs ==> c.points == rate * TileUnits(cat, b, kind, members, c.tile)
  {
    cs, index := [], map[];
    for i := 0 to |zones|
      invariant Accounted(cat, b, kind, rate, zones, i, cs, index)
      invariant SharedOut(cat, b, kind, rate, First(zones, i), cs, index)
    {
      cs, index := NextContribution(cat, b, zones, kind, rate, i, cs, index);
    }
    FirstAll(zones, members);
    AllShared(cat, b, kind, rate, members, cs, index);
  }

  method NextContribution(cat: Catalog, b: Board, zones: seq<ZoneRef>, kind: Kind, rate: nat, i: nat,
                          cs: seq<Contribution>, index: map<Id, nat>)
    returns (cs': seq<Contribution>, index': map<Id, nat>)
    requires NoTwice(zones) && i < |zones| && Accounted(cat, b, kind, rate, zones, i, cs, index)
    requires SharedOut(cat, b, kind, rate, First(zones, i), cs, index)
    ensures Accounted(cat, b, kind, rate, zones, i + 1, cs', index')
    ensures SharedOut(cat, b, kind, rate, First(zones, i + 1), cs', index')
  {
    cs', index' := FileZone(cs, index, zones[i], rate, kind == City && IsPennant(cat, b, zones[i]));
    AccountedStep(cat, b, kind, rate, zones, i, cs, index, cs', index');
    SharedStep(cat, b, kind, rate, zones, i, cs, index, cs', index');
  }

  lemma AllShared(cat: Catalog, b: Board, kind: Kind, rate: nat, members: set<ZoneRef>, cs: seq<Contribution>,
                  index: map<Id, nat>)
    requires Filed(cs, index) && SharedOut(cat, b, kind, rate, members, cs, index)
    ensures Times(rate, Units(cat, b, kind, members)) == rate * Units(cat, b, kind, members)
    ensures forall c :: c in cs ==> c.points == rate * TileUnits(cat, b, kind, members, c.tile)
  {
    TimesIsProduct(rate, Units(cat, b, kind, members));
    forall c | c in cs
      ensures c.points == rate * TileUnits(cat, b, kind, members, c.tile)
    {
      TimesIsProduct(rate, TileUnits(cat, b, kind, members, c.tile));
    }
  }

  lemma AccountedStep(cat: Catalog, b: Board, kind: Kind, rate: nat, zones: seq<ZoneRef>, i: nat,
                      cs: seq<Contribution>, index: map<Id, nat>, cs': seq<Contribution>, index': map<Id, nat>)
    requires NoTwice(zones) && i < |zones| && Accounted(cat, b, kind, rate, zones, i, cs, index)
    requires Filed(cs', index') && index'.Keys == index.Keys + {zones[i].tile}
    requires Total(cs') == Total(cs) + (if zones[i].tile in index then 0 else rate)
             + (if kind == City && IsPennant(cat, b, zones[i]) then rate else 0)
    ensures Accounted(cat, b, kind, rate, zones, i + 1, cs', index')
  {
    TilesStep(zones, i);
    UnitsPaid(cat, b, kind, rate, zones, i);
  }

  lemma UnitsPaid(cat: Catalog, b: Board, kind: Kind, rate: nat, zones: seq<ZoneRef>, i: nat)
    requires NoTwice(zones) && i < |zones|
    ensures Times(rate, Units(cat, b, kind, First(zones, i + 1))) ==
            Times(rate, Units(cat, b, kind, First(zones, i)))
            + (if zones[i].tile in TileIds(First(zones, i)) then 0 else rate)
            + (if kind == City && IsPennant(cat, b, zones[i]) then rate else 0)
  {
    UnitsStep(cat, b, kind, zones, i);
    TimesStep(rate, Units(cat, b, kind, First(zones, i)), Units(cat, b, kind, First(zones, i + 1)),
              zones[i].tile !in TileIds(First(zones, i)), kind == City && IsPennant(cat, b, zones[i]));
  }

  /** rate added n times. */
  ghost function Times(rate: nat, n: nat): nat {
    if n == 0 then 0 else rate + Times(rate, n - 1)
  }

  lemma {:induction false} TimesIsProduct(rate: nat, n: nat)
    ensures Times(rate, n) == rate * n
  {
    if n > 0 { TimesIsProduct(rate, n - 1); }
  }

  function One(counts: bool): nat {
    if counts then 1 else 0
  }

  lemma TimesStep(rate: nat, n: nat, more: nat, tile: bool, pennant: bool)
    requires more == n + One(tile) + One(pennant)
    ensures Times(rate, more) == Times(rate, n) + (if tile then rate else 0) + (if pennant then rate else 0)
  {}

  lemma TilesStep(zones: seq<ZoneRef>, i: nat)
    requires i < |zones|
    ensures TileIds(First(zones, i + 1)) == TileIds(First(zones, i)) + {zones[i].tile}
    ensures |TileIds(First(zones, i + 1))| ==
            |TileIds(First(zones, i))| + if zones[i].tile in TileIds(First(zones, i)) then 0 else 1
  {
    FirstStep(zones, i);
    var tiles := TileIds(First(zones, i));
    assert TileIds(First(zones, i + 1)) == tiles + {zones[i].tile};
    assert zones[i].tile in tiles ==> tiles + {zones[i].tile} == tiles;
  }

  lemma UnitsStep(cat: Catalog, b: Board, kind: Kind, zones: seq<ZoneRef>, i: nat)
    requires NoTwice(zones) && i < |zones|
    ensures Units(cat, b, kind, First(zones, i + 1)) ==
            Units(cat, b, kind, First(zones, i))
            + One(zones[i].tile !in TileIds(First(zones, i))) + One(kind == City && IsPennant(cat, b, zones[i]))
  {
    TilesStep(zones, i);
    PennantStep(cat, b, zones, i);
  }

  // ---------------------------------------------------------------- scores

  /** Doubled by an inn for roads; two or, with a cathedral, three points per tile and pennant for cities. */
  method CompletedScore(cat: Catalog, b: Board, kind: Kind, zones: seq<ZoneRef>, ghost members: set<ZoneRef>)
    returns (points: nat)
    requires kind in {Road, City} && NoTwice(zones) && Lists(zones, members)
    ensures points == CompletedPoints(cat, b, kind, members)
    ensures kind == Road ==> points == if HasInn(cat, b, members) then 2 * |TileIds(members)| else |TileIds(members)|
    ensures kind == City ==>
              var units := |TileIds(members)| + |Pennants(cat, b, members)|;
              points == if HasCathedral(cat, b, members) then 3 * units else 2 * units
  {
    var tiles := UniqueTileIds(zones, members);
    if kind == Road {
      var inn := FeatureHasInn(cat, b, zones, members);
      points := if inn then tiles * 2 else tiles;
    } else {
      var pennants := CountPennants(cat, b, zones, members);
      var cathedral := FeatureHasCathedral(cat, b, zones, members);
      points := if cathedral then tiles * 3 + pennants * 3 else tiles * 2 + pennants * 2;
    }
  }

  method CompletedContributions(cat: Catalog, b: Board, kind: Kind, zones: seq<ZoneRef>, ghost members: set<ZoneRef>)
    returns (cs: seq<Contribution>)
    requires kind in {Road, City} && NoTwice(zones) && Lists(zones, members)
    ensures Total(cs) == CompletedPoints(cat, b, kind, members)
    ensures var rate := if kind == Road then if HasInn(cat, b, members) then 2 else 1
                        else if HasCathedral(cat, b, members) then 3 else 2;
            forall c :: c in cs ==> c.points == rate * TileUnits(cat, b, kind, members, c.tile)
  {
    var doubled: bool;
    if kind == Road {
      doubled := FeatureHasInn(cat, b, zones, members);
    } else {
      doubled := FeatureHasCathedral(cat, b, zones, members);
    }
    var rate: nat := (if kind == Road then 1 else 2) + (if doubled then 1 else 0);
    var index;
    cs, index := ScoreContributions(cat, b, zones, members, kind, rate);
  }

  /** An inn or a cathedral makes an unfinished feature worthless. */
  method FinalScore(cat: Catalog, b: Board, kind: Kind, zones: seq<ZoneRef>, ghost members: set<ZoneRef>)
    returns (points: nat)
    requires kind in {Road, City} && NoTwice(zones) && Lists(zones, members)
    ensures points == FinalPoints(cat, b, kind, members)
    ensures kind == Road ==> points == if HasInn(cat, b, members) then 0 else |TileIds(members)|
    ensures kind == City ==>
              points == if HasCathedral(cat, b, members) then 0
                        else |TileIds(members)| + |Pennants(cat, b, members)|
  {
    var tiles := UniqueTileIds(zones, members);
    if kind == Road {
      var inn := FeatureHasInn(cat, b, zones, members);
      points := if inn then 0 else tiles;
    } else {
      var cathedral := FeatureHasCathedral(cat, b, zones, members);
      var pennants := CountPennants(cat, b, zones, members);
      points := if cathedral then 0 else tiles + pennants;
    }
  }

  method FinalContributions(cat: Catalog, b: Board, kind: Kind, zones: seq<ZoneRef>, ghost members: set<ZoneRef>,
                            score: nat) returns (cs: seq<Contribution>)
    requires kind in {Road, City} && NoTwice(zones) && Lists(zones, members)
    requires score == FinalPoints(cat, b, kind, members)
    ensures Total(cs) == score
    ensures forall c :: c in cs ==> c.points == if score == 0 then 0 else TileUnits(cat, b, kind, members, c.tile)
  {
    var index;
    cs, index := ScoreContributions(cat, b, zones, members, kind, if score == 0 then 0 else 1);
  }

  // ---------------------------------------------------------------- winners

  /** The actors with the largest weight; nobody when no weight is positive. */
  method WinningActors(weights: map<Id, nat>) returns (winners: set<Id>)
    ensures winners == set a | a in weights && 0 < weights[a] && forall k :: k in weights ==> weights[k] <= weights[a]
  {
    var best: nat := 0;
    var todo := weights.Keys;
    while todo != {}
      invariant todo <= weights.Keys
      invariant forall a :: a in weights && a !in todo ==> weights[a] <= best
      invariant best == 0 || exists a :: a in weights && weights[a] == best
      decreases todo
    {
      var a :| a in todo;
      if weights[a] > best { best := weights[a]; }
      todo := todo - {a};
    }
    winners := if best == 0 then {} else set a | a in weights && weights[a] == best;
  }

  lemma WinnersOfWeights(ms: seq<Meeple>, zones: set<ZoneRef>, w: map<Id, nat>)
    requires Weighs(ms, zones, w)
    ensures Winners(ms, zones) == set a | a in w && 0 < w[a] && forall k :: k in w ==> w[k] <= w[a]
    ensures Winners(ms, zones) == {} <==> !Occupied(ms, zones)
  {
    WeighsActors(ms, zones, w);
    assert forall a :: a in w ==> w[a] == Tally(w, a) == WeightOn(ms, zones, a);
    if Occupied(ms, zones) {
      var m :| m in ms && m.Ref() in zones;
      assert m.actor in ActorsOn(ms, zones);
      var a := HeaviestActor(ms, zones, ActorsOn(ms, zones));
      assert a in Winners(ms, zones);
    }
  }

  lemma {:induction false} HeaviestActor(ms: seq<Meeple>, zones: set<ZoneRef>, actors: set<Id>) returns (best: Id)
    requires actors != {}
    ensures best in actors && forall a :: a in actors ==> WeightOn(ms, zones, a) <= WeightOn(ms, zones, best)
    decreases actors
  {
    best :| best in actors;
    if actors != {best} {
      var other := HeaviestActor(ms, zones, actors - {best});
      if WeightOn(ms, zones, best) < WeightOn(ms, zones, other) { best := other; }
    }
  }
}
