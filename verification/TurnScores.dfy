/** What every player gets at the end of a turn: each completed road and city once, and each complete monastery. */
module TurnScores {
  import opened Tiles
  import opened Graphs
  import opened Topology
  import opened Pieces
  import opened Placements
  import opened FeatureScores
  import opened GameStates
  import opened FinalScores
  import opened Rules
  import opened TurnScoring
  import opened Invariants
  import opened Runs
  import opened Sums

  /** The completed roads or cities that carry meeples. */
  ghost function CompletedClasses(cat: Catalog, b: Board, ms: seq<Meeple>, kind: Kind): set<set<ZoneRef>> {
    set m | m in ms && KindOf(cat, b, m.Ref()) == Some(kind) && Closed(cat, b, m.Ref()) :: Class(cat, b, m.Ref())
  }

  /** What one player gets for one completed feature. */
  ghost function TurnShare(cat: Catalog, b: Board, ms: seq<Meeple>, kind: Kind, zones: set<ZoneRef>, actor: Id): nat {
    if actor in Winners(ms, zones) then CompletedPoints(cat, b, kind, zones) else 0
  }

  ghost function TurnSum(cat: Catalog, b: Board, ms: seq<Meeple>, kind: Kind, classes: set<set<ZoneRef>>,
                         actor: Id): nat
  {
    SumOver(classes, k => TurnShare(cat, b, ms, kind, k, actor))
  }

  ghost function MonksOf(cat: Catalog, b: Board, ms: seq<Meeple>, actor: Id): set<Meeple> {
    set m | m in ms && OnCompleteMonastery(cat, b, m) && m.actor == actor
  }

  // ---------------------------------------------------------------- meeples elsewhere do not matter

  lemma {:induction false} TakenElsewhere(ms: seq<Meeple>, gone: set<ZoneRef>, zones: set<ZoneRef>)
    requires gone !! zones
    ensures Taken(Remaining(ms, gone), zones) == Taken(ms, zones)
  {
    if ms != [] {
      var init, m := ms[..|ms| - 1], ms[|ms| - 1];
      TakenElsewhere(init, gone, zones);
      assert ms == init + [m];
      TakenSnoc(init, m, gone);
      TakenSnoc(init, m, zones);
      TakenSnoc(Remaining(init, gone), m, zones);
    }
  }

  lemma WeightSnoc(ms: seq<Meeple>, m: Meeple, zones: set<ZoneRef>, actor: Id)
    ensures WeightOn(ms + [m], zones, actor) ==
            WeightOn(ms, zones, actor) + if m.Ref() in zones && m.actor == actor then m.Weight() else 0
  {
    assert (ms + [m])[..|ms|] == ms;
  }

  lemma {:induction false} TakenWeighs(ms: seq<Meeple>, zones: set<ZoneRef>, actor: Id)
    ensures WeightOn(Taken(ms, zones), zones, actor) == WeightOn(ms, zones, actor)
  {
    if ms != [] {
      var init, m := ms[..|ms| - 1], ms[|ms| - 1];
      TakenWeighs(init, zones, actor);
      assert ms == init + [m];
      TakenSnoc(init, m, zones);
      WeightSnoc(init, m, zones, actor);
      WeightSnoc(Taken(init, zones), m, zones, actor);
    }
  }

  lemma TakenOwners(ms: seq<Meeple>, zones: set<ZoneRef>)
    ensures ActorsOn(Taken(ms, zones), zones) == ActorsOn(ms, zones)
    ensures Occupied(Taken(ms, zones), zones) <==> Occupied(ms, zones)
  {
    Splits(ms, zones);
    assert forall m :: m in Taken(ms, zones) && m.Ref() in zones <==> m in ms && m.Ref() in zones;
  }

  /** Winners depend only on who stands on the zones. */
  lemma SameTaken(ms: seq<Meeple>, ns: seq<Meeple>, zones: set<ZoneRef>)
    requires Taken(ms, zones) == Taken(ns, zones)
    ensures Winners(ms, zones) == Winners(ns, zones) && (Occupied(ms, zones) <==> Occupied(ns, zones))
  {
    TakenOwners(ms, zones);
    TakenOwners(ns, zones);
    forall a
      ensures WeightOn(ms, zones, a) == WeightOn(ns, zones, a)
    {
      TakenWeighs(ms, zones, a);
      TakenWeighs(ns, zones, a);
    }
  }

  lemma MonksSnoc(cat: Catalog, b: Board, ms: seq<Meeple>, m: Meeple)
    ensures CompleteMonks(cat, b, ms + [m]) ==
            CompleteMonks(cat, b, ms) + (if OnCompleteMonastery(cat, b, m) then [m] else [])
  {
    assert (ms + [m])[..|ms|] == ms;
  }

  lemma {:induction false} MonksElsewhere(cat: Catalog, b: Board, ms: seq<Meeple>, gone: set<ZoneRef>)
    requires forall m :: m in ms && m.Ref() in gone ==> !OnCompleteMonastery(cat, b, m)
    ensures CompleteMonks(cat, b, Remaining(ms, gone)) == CompleteMonks(cat, b, ms)
  {
    if ms != [] {
      var init, m := ms[..|ms| - 1], ms[|ms| - 1];
      assert ms == init + [m] && m in ms;
      MonksElsewhere(cat, b, init, gone);
      TakenSnoc(init, m, gone);
      MonksSnoc(cat, b, init, m);
      MonksSnoc(cat, b, Remaining(init, gone), m);
    }
  }

  // ---------------------------------------------------------------- one kind

  /** The classes of the zones that are completed and occupied. */
  ghost function Done(cat: Catalog, b: Board, ms: seq<Meeple>, refs: seq<ZoneRef>): set<set<ZoneRef>> {
    set r | r in refs && Closed(cat, b, r) && Occupied(ms, Class(cat, b, r)) :: Class(cat, b, r)
  }

  ghost predicate Untouched(cat: Catalog, b: Board, ms: seq<Meeple>, ns: seq<Meeple>, done: set<set<ZoneRef>>) {
    forall r {:trigger Class(cat, b, r)} :: r in Zones(cat, b) ==>
      if Class(cat, b, r) in done then !Occupied(ns, Class(cat, b, r))
      else Taken(ns, Class(cat, b, r)) == Taken(ms, Class(cat, b, r))
  }

  ghost predicate PaidFor(cat: Catalog, s: State, t: State, kind: Kind, done: set<set<ZoneRef>>) {
    && |t.players| == |s.players|
    && forall i :: 0 <= i < |s.players| ==>
         && t.players[i].actor == s.players[i].actor
         && t.players[i].score ==
            s.players[i].score + TurnSum(cat, s.board, s.meeples, kind, done, s.players[i].actor)
  }

  ghost predicate OfKind(cat: Catalog, b: Board, refs: seq<ZoneRef>, kind: Kind) {
    forall r :: r in refs ==> r in Zones(cat, b) && KindOf(cat, b, r) == Some(kind)
  }

  lemma SettlePays(s: State, zones: set<ZoneRef>, winners: set<Id>, points: int, i: nat)
    requires i < |s.players|
    ensures var t := Settle(s, zones, winners, points);
            && |t.players| == |s.players| && t.players[i].actor == s.players[i].actor
            && t.players[i].score == s.players[i].score + (if s.players[i].actor in winners then points else 0)
  {
    GiveBackKeepsActors(AddScore(s.players, winners, points), Taken(s.meeples, zones), i);
  }

  /** Scoring one more class that is completed and occupied. */
  lemma SettleStep(cat: Catalog, s: State, t: State, kind: Kind, done: set<set<ZoneRef>>, r: ZoneRef)
    requires ValidCatalog(cat) && WellPlaced(cat, s.board) && t.board == s.board && r in Zones(cat, s.board)
    requires PaidFor(cat, s, t, kind, done) && Untouched(cat, s.board, s.meeples, t.meeples, done)
    requires Occupied(t.meeples, Class(cat, s.board, r))
    ensures var k := Class(cat, s.board, r);
            var u := Settle(t, k, Winners(t.meeples, k), CompletedPoints(cat, s.board, kind, k));
            k !in done && PaidFor(cat, s, u, kind, done + {k})
  {
    var k := Class(cat, s.board, r);
    SameTaken(t.meeples, s.meeples, k);
    forall i: nat | i < |s.players|
      ensures var u := Settle(t, k, Winners(t.meeples, k), CompletedPoints(cat, s.board, kind, k));
              && |u.players| == |s.players| && u.players[i].actor == s.players[i].actor
              && u.players[i].score == s.players[i].score
                 + TurnSum(cat, s.board, s.meeples, kind, done + {k}, s.players[i].actor)
    {
      SettlePays(t, k, Winners(t.meeples, k), CompletedPoints(cat, s.board, kind, k), i);
      SumAdd(done, j => TurnShare(cat, s.board, s.meeples, kind, j, s.players[i].actor), k);
    }
  }

  lemma NoneRemain(ms: seq<Meeple>, zones: set<ZoneRef>, gone: set<ZoneRef>)
    requires !Occupied(ms, zones) || zones == gone
    ensures !Occupied(Remaining(ms, gone), zones)
  {
    Splits(ms, gone);
  }

  lemma RemovedStep(cat: Catalog, b: Board, ms: seq<Meeple>, ns: seq<Meeple>, done: set<set<ZoneRef>>, r: ZoneRef)
    requires ValidCatalog(cat) && WellPlaced(cat, b) && r in Zones(cat, b) && Untouched(cat, b, ms, ns, done)
    ensures Untouched(cat, b, ms, Remaining(ns, Class(cat, b, r)), done + {Class(cat, b, r)})
  {
    var k := Class(cat, b, r);
    forall z | z in Zones(cat, b)
      ensures if Class(cat, b, z) in done + {k} then !Occupied(Remaining(ns, k), Class(cat, b, z))
              else Taken(Remaining(ns, k), Class(cat, b, z)) == Taken(ms, Class(cat, b, z))
    {
      if Class(cat, b, z) in done + {k} {
        NoneRemain(ns, Class(cat, b, z), k);
      } else {
        NeighborsSymmetric(cat, b);
        Partition(ZoneGraph(cat, b), r, z);
        TakenElsewhere(ns, k, Class(cat, b, z));
      }
    }
  }

  ghost predicate Paid(cat: Catalog, s: State, t: State, kind: Kind, done: set<set<ZoneRef>>) {
    t.board == s.board && PaidFor(cat, s, t, kind, done) && Untouched(cat, s.board, s.meeples, t.meeples, done)
  }

  /** Scoring through one more zone pays its class if that was not done before. */
  lemma PaysOneMore(cat: Catalog, s: State, t: State, kind: Kind, done: set<set<ZoneRef>>, r: ZoneRef)
    requires ValidCatalog(cat) && WellPlaced(cat, s.board) && r in Zones(cat, s.board) && Paid(cat, s, t, kind, done)
    ensures var k := Class(cat, s.board, r);
            Paid(cat, s, ScoreFeature(cat, t, kind, r), kind,
                 if Closed(cat, s.board, r) && Occupied(s.meeples, k) then done + {k} else done)
  {
    var k := Class(cat, s.board, r);
    if k in done {
      assert done + {k} == done;
    } else {
      SameTaken(t.meeples, s.meeples, k);
    }
    if Closed(cat, s.board, r) && Occupied(t.meeples, k) {
      SettleStep(cat, s, t, kind, done, r);
      RemovedStep(cat, s.board, s.meeples, t.meeples, done, r);
    }
  }

  lemma DoneSnoc(cat: Catalog, b: Board, ms: seq<Meeple>, refs: seq<ZoneRef>, r: ZoneRef)
    ensures var k := Class(cat, b, r);
            Done(cat, b, ms, refs + [r]) == if Closed(cat, b, r) && Occupied(ms, k) then Done(cat, b, ms, refs) + {k}
                                            else Done(cat, b, ms, refs)
  {
    forall z
      ensures z in refs + [r] <==> z in refs || z == r
    {}
  }

  /** Scoring features of one kind pays each completed and occupied class once. */
  lemma {:induction false} FeaturesPay(cat: Catalog, s: State, kind: Kind, refs: seq<ZoneRef>)
    requires ValidCatalog(cat) && WellPlaced(cat, s.board) && OfKind(cat, s.board, refs, kind)
    ensures Paid(cat, s, ScoreFeatures(cat, s, kind, refs), kind, Done(cat, s.board, s.meeples, refs))
  {
    if refs == [] {
      assert Done(cat, s.board, s.meeples, refs) == {};
    } else {
      var init, r := refs[..|refs| - 1], refs[|refs| - 1];
      assert refs == init + [r];
      FeaturesPay(cat, s, kind, init);
      DoneSnoc(cat, s.board, s.meeples, init, r);
      PaysOneMore(cat, s, ScoreFeatures(cat, s, kind, init), kind, Done(cat, s.board, s.meeples, init), r);
    }
  }

  lemma {:induction false} FeaturesKeepMonks(cat: Catalog, s: State, kind: Kind, refs: seq<ZoneRef>)
    requires ValidCatalog(cat) && WellPlaced(cat, s.board) && OfKind(cat, s.board, refs, kind) && kind != Monastery
    ensures var t := ScoreFeatures(cat, s, kind, refs);
            CompleteMonks(cat, s.board, t.meeples) == CompleteMonks(cat, s.board, s.meeples)
  {
    if refs != [] {
      var init, r := refs[..|refs| - 1], refs[|refs| - 1];
      assert refs == init + [r];
      FeaturesKeepMonks(cat, s, kind, init);
      ScoreFeaturesKeep(cat, s, kind, init);
      var t, k := ScoreFeatures(cat, s, kind, init), Class(cat, s.board, r);
      forall m | m in t.meeples && m.Ref() in k
        ensures !OnCompleteMonastery(cat, s.board, m)
      {
        ClassHasOneKind(cat, s.board, r, m.Ref());
      }
      MonksElsewhere(cat, s.board, t.meeples, k);
    }
  }

  // ---------------------------------------------------------------- monks

  function CountBy(ms: seq<Meeple>, actor: Id): nat {
    if ms == [] then 0 else CountBy(ms[..|ms| - 1], actor) + (if ms[|ms| - 1].actor == actor then 1 else 0)
  }

  lemma {:induction false} MonksPayNine(s: State, monks: seq<Meeple>, i: nat)
    requires i < |s.players|
    ensures var t := ScoreMonks(s, monks);
            && |t.players| == |s.players| && t.players[i].actor == s.players[i].actor
            && t.players[i].score == s.players[i].score + 9 * CountBy(monks, s.players[i].actor)
  {
    if monks != [] {
      var init, m := monks[..|monks| - 1], monks[|monks| - 1];
      MonksPayNine(s, init, i);
      SettlePays(ScoreMonks(s, init), {m.Ref()}, {m.actor}, 9, i);
    }
  }

  ghost function OwnedBy(ms: seq<Meeple>, actor: Id): set<Meeple> {
    set m | m in ms && m.actor == actor
  }

  lemma OwnedSnoc(ms: seq<Meeple>, m: Meeple, actor: Id)
    requires m !in ms
    ensures |OwnedBy(ms + [m], actor)| == |OwnedBy(ms, actor)| + if m.actor == actor then 1 else 0
  {
    assert OwnedBy(ms + [m], actor) == if m.actor == actor then OwnedBy(ms, actor) + {m} else OwnedBy(ms, actor);
  }

  lemma {:induction false} CountIsSet(ms: seq<Meeple>, actor: Id)
    requires OnePerTile(ms)
    ensures CountBy(ms, actor) == |OwnedBy(ms, actor)|
  {
    if ms != [] {
      var init, m := ms[..|ms| - 1], ms[|ms| - 1];
      CountIsSet(init, actor);
      assert ms == init + [m];
      LastIsAlone(ms, init, m);
      OwnedSnoc(init, m, actor);
    }
  }

  lemma MonksAreComplete(cat: Catalog, b: Board, ms: seq<Meeple>, actor: Id)
    requires OnePerTile(ms)
    ensures CountBy(CompleteMonks(cat, b, ms), actor) == |MonksOf(cat, b, ms, actor)|
  {
    var monks := CompleteMonks(cat, b, ms);
    CompleteMonksOnePerTile(cat, b, ms);
    CountIsSet(monks, actor);
    forall m
      ensures m in monks <==> m in ms && OnCompleteMonastery(cat, b, m)
    {
      CompleteMonksMember(cat, b, ms, m);
    }
    assert OwnedBy(monks, actor) == MonksOf(cat, b, ms, actor);
  }

  // ---------------------------------------------------------------- what the last tile can complete

  lemma InsideClass(cat: Catalog, b: Board, r: ZoneRef, v: ZoneRef)
    requires ValidCatalog(cat) && WellPlaced(cat, b) && r in Zones(cat, b) && v in Class(cat, b, r)
    ensures Class(cat, b, v) == Class(cat, b, r) && KindOf(cat, b, v) == KindOf(cat, b, r)
    ensures Closed(cat, b, v) <==> Closed(cat, b, r)
  {
    NeighborsSymmetric(cat, b);
    SameComponent(ZoneGraph(cat, b), r, v);
    ClassHasOneKind(cat, b, r, v);
  }

  lemma LastZonesFit(cat: Catalog, b: Board, t: PlacedTile, kind: Kind)
    requires ValidCatalog(cat) && WellPlaced(cat, b) && t in b
    ensures OfKind(cat, b, LastZones(cat, Some(t), kind), kind)
  {
    forall r | r in LastZones(cat, Some(t), kind)
      ensures r in Zones(cat, b) && KindOf(cat, b, r) == Some(kind)
    {
      LastZonesOnBoard(cat, b, t, kind, r);
    }
  }

  /** The completed classes with meeples are those found from the zones of the last tile. */
  lemma DoneIsCompleted(cat: Catalog, members: seq<Id>, s: State, kind: Kind)
    requires Resolvable(cat, members, s) && kind in {Road, City}
    ensures Done(cat, s.board, s.meeples, LastZones(cat, s.last, kind))
            == CompletedClasses(cat, s.board, s.meeples, kind)
  {
    var b, t, refs := s.board, s.last.value, LastZones(cat, s.last, kind);
    LastZonesFit(cat, b, t, kind);
    forall k | k in Done(cat, b, s.meeples, refs)
      ensures k in CompletedClasses(cat, b, s.meeples, kind)
    {
      var r :| r in refs && Closed(cat, b, r) && Occupied(s.meeples, Class(cat, b, r)) && k == Class(cat, b, r);
      var m :| m in s.meeples && m.Ref() in k;
      InsideClass(cat, b, r, m.Ref());
    }
    forall k | k in CompletedClasses(cat, b, s.meeples, kind)
      ensures k in Done(cat, b, s.meeples, refs)
    {
      var m :| m in s.meeples && KindOf(cat, b, m.Ref()) == Some(kind) && Closed(cat, b, m.Ref())
               && k == Class(cat, b, m.Ref());
      KnownZone(cat, members, s, m);
      assert OnClosed(cat, b, m) && t in b && TouchesTile(cat, b, m, t);
      var i := ThroughLastZone(cat, b, m, t, kind);
      assert refs[i] in refs;
      InsideClass(cat, b, refs[i], m.Ref());
    }
  }

  /** Roads that were scored leave the cities as they were. */
  lemma OtherKindSame(cat: Catalog, members: seq<Id>, s: State, ns: seq<Meeple>, actor: Id)
    requires Resolvable(cat, members, s)
    requires Untouched(cat, s.board, s.meeples, ns, CompletedClasses(cat, s.board, s.meeples, Road))
    ensures var refs := LastZones(cat, s.last, City);
            && Done(cat, s.board, ns, refs) == Done(cat, s.board, s.meeples, refs)
            && TurnSum(cat, s.board, ns, City, Done(cat, s.board, ns, refs), actor)
               == TurnSum(cat, s.board, s.meeples, City, Done(cat, s.board, s.meeples, refs), actor)
  {
    var b, refs := s.board, LastZones(cat, s.last, City);
    LastZonesFit(cat, b, s.last.value, City);
    forall r | r in refs
      ensures var k := Class(cat, b, r);
              && (Occupied(ns, k) <==> Occupied(s.meeples, k))
              && TurnShare(cat, b, ns, City, k, actor) == TurnShare(cat, b, s.meeples, City, k, actor)
    {
      NotRoad(cat, members, s, r);
      SameTaken(ns, s.meeples, Class(cat, b, r));
    }
    SumSame(Done(cat, b, s.meeples, refs), k => TurnShare(cat, b, ns, City, k, actor),
            k => TurnShare(cat, b, s.meeples, City, k, actor));
  }

  lemma NotRoad(cat: Catalog, members: seq<Id>, s: State, r: ZoneRef)
    requires Resolvable(cat, members, s) && r in Zones(cat, s.board) && KindOf(cat, s.board, r) == Some(City)
    ensures Class(cat, s.board, r) !in CompletedClasses(cat, s.board, s.meeples, Road)
  {
    if m :| m in s.meeples && KindOf(cat, s.board, m.Ref()) == Some(Road)
            && Class(cat, s.board, m.Ref()) == Class(cat, s.board, r) {
      KnownZone(cat, members, s, m);
      Reflexive(ZoneGraph(cat, s.board), m.Ref());
      ClassHasOneKind(cat, s.board, r, m.Ref());
    }
  }

  // ---------------------------------------------------------------- the whole turn

  /** What a turn is worth to one player. */
  ghost function TurnTotal(cat: Catalog, b: Board, ms: seq<Meeple>, actor: Id): nat {
    TurnSum(cat, b, ms, Road, CompletedClasses(cat, b, ms, Road), actor)
    + TurnSum(cat, b, ms, City, CompletedClasses(cat, b, ms, City), actor)
    + 9 * |MonksOf(cat, b, ms, actor)|
  }

  /** Scoring the turn pays every player the shares of all completed roads and cities on the board that carry meeples,
      each once, and nine points for each of the player's monks whose monastery is complete. */
  lemma TurnScoreIsSum(cat: Catalog, members: seq<Id>, s: State, i: nat)
    requires Resolvable(cat, members, s) && i < |s.players|
    ensures var t := ScoreTurn(cat, s);
            && |t.players| == |s.players| && t.players[i].actor == s.players[i].actor
            && t.players[i].score == s.players[i].score + TurnTotal(cat, s.board, s.meeples, s.players[i].actor)
  {
    var b, a := s.board, s.players[i].actor;
    var roadZones, cityZones := LastZones(cat, s.last, Road), LastZones(cat, s.last, City);
    LastZonesFit(cat, b, s.last.value, Road);
    LastZonesFit(cat, b, s.last.value, City);
    DoneIsCompleted(cat, members, s, Road);
    DoneIsCompleted(cat, members, s, City);
    FeaturesPay(cat, s, Road, roadZones);
    FeaturesKeepMonks(cat, s, Road, roadZones);
    ScoreFeaturesKeep(cat, s, Road, roadZones);
    var roads := ScoreFeatures(cat, s, Road, roadZones);
    FeaturesPay(cat, roads, City, cityZones);
    FeaturesKeepMonks(cat, roads, City, cityZones);
    ScoreFeaturesKeep(cat, roads, City, cityZones);
    OtherKindSame(cat, members, s, roads.meeples, a);
    var cities := ScoreFeatures(cat, roads, City, cityZones);
    MonksPayNine(cities, CompleteMonks(cat, b, s.meeples), i);
    MonksAreComplete(cat, b, s.meeples, a);
  }

  // ---------------------------------------------------------------- one feature

  lemma {:induction false} SumAtLeast<T(!new)>(xs: set<T>, f: T -> nat, x: T)
    requires x in xs
    ensures f(x) <= SumOver(xs, f)
  {
    SumAdd(xs - {x}, f, x);
    assert xs - {x} + {x} == xs;
  }

  lemma WorthCompleted(cat: Catalog, b: Board, kind: Kind, zones: set<ZoneRef>)
    ensures kind == Road ==> CompletedPoints(cat, b, kind, zones) ==
                             if HasInn(cat, b, zones) then 2 * |TileIds(zones)| else |TileIds(zones)|
    ensures kind == City ==> CompletedPoints(cat, b, kind, zones) ==
                             (if HasCathedral(cat, b, zones) then 3 else 2)
                             * (|TileIds(zones)| + |Pennants(cat, b, zones)|)
  {}

  lemma GainsShare(cat: Catalog, members: seq<Id>, s: State, m: Meeple, kind: Kind, i: nat)
    requires Resolvable(cat, members, s) && i < |s.players| && m in s.meeples && OnClosed(cat, s.board, m)
    requires KindOf(cat, s.board, m.Ref()) == Some(kind) && |ScoreTurn(cat, s).players| == |s.players|
    requires s.players[i].actor in Winners(s.meeples, Class(cat, s.board, m.Ref()))
    ensures ScoreTurn(cat, s).players[i].score >=
            s.players[i].score + CompletedPoints(cat, s.board, kind, Class(cat, s.board, m.Ref()))
  {
    var b, k, a := s.board, Class(cat, s.board, m.Ref()), s.players[i].actor;
    TurnScoreIsSum(cat, members, s, i);
    assert k in CompletedClasses(cat, b, s.meeples, kind);
    SumAtLeast(CompletedClasses(cat, b, s.meeples, kind), j => TurnShare(cat, b, s.meeples, kind, j, a), k);
  }

  /** A completed road is worth one point a tile, two with an inn; a completed city two points for each tile and
      pennant, three with a cathedral. Every majority holder gets them. */
  lemma CompletedPays(cat: Catalog, members: seq<Id>, s: State, m: Meeple, i: nat)
    requires Resolvable(cat, members, s) && i < |s.players| && m in s.meeples && OnClosed(cat, s.board, m)
    requires s.players[i].actor in Winners(s.meeples, Class(cat, s.board, m.Ref()))
    ensures |ScoreTurn(cat, s).players| == |s.players|
    ensures var k := Class(cat, s.board, m.Ref());
            var gained := ScoreTurn(cat, s).players[i].score - s.players[i].score;
            if KindOf(cat, s.board, m.Ref()) == Some(Road) then
              gained >= if HasInn(cat, s.board, k) then 2 * |TileIds(k)| else |TileIds(k)|
            else
              gained >= (if HasCathedral(cat, s.board, k) then 3 else 2) * (|TileIds(k)| + |Pennants(cat, s.board, k)|)
  {
    var kind := KindOf(cat, s.board, m.Ref()).value;
    ScoreTurnKeeps(cat, s);
    GainsShare(cat, members, s, m, kind, i);
    WorthCompleted(cat, s.board, kind, Class(cat, s.board, m.Ref()));
  }

  // ---------------------------------------------------------------- who goes home

  lemma {:induction false} OthersStay(cat: Catalog, s: State, kind: Kind, refs: seq<ZoneRef>, m: Meeple)
    requires ValidCatalog(cat) && WellPlaced(cat, s.board) && OfKind(cat, s.board, refs, kind) && m in s.meeples
    requires KindOf(cat, s.board, m.Ref()) == Some(kind) ==> !Closed(cat, s.board, m.Ref())
    ensures m in ScoreFeatures(cat, s, kind, refs).meeples
  {
    if refs != [] {
      var init, r := refs[..|refs| - 1], refs[|refs| - 1];
      assert refs == init + [r];
      OthersStay(cat, s, kind, init, m);
      ScoreFeaturesKeep(cat, s, kind, init);
      Splits(ScoreFeatures(cat, s, kind, init).meeples, Class(cat, s.board, r));
      if m.Ref() in Class(cat, s.board, r) { InsideClass(cat, s.board, r, m.Ref()); }
    }
  }

  lemma {:induction false} OthersStayForMonks(s: State, monks: seq<Meeple>, m: Meeple)
    requires OnePerTile(s.meeples) && m in s.meeples && m !in monks && forall k :: k in monks ==> k in s.meeples
    ensures m in ScoreMonks(s, monks).meeples
  {
    if monks != [] {
      var init, k := monks[..|monks| - 1], monks[|monks| - 1];
      assert monks == init + [k];
      OthersStayForMonks(s, init, m);
      assert m != k && k in s.meeples;
      StandElsewhere(s.meeples, m, k);
      NotTaken(ScoreMonks(s, init).meeples, {k.Ref()}, m);
    }
  }

  lemma StandElsewhere(ms: seq<Meeple>, m: Meeple, k: Meeple)
    requires OnePerTile(ms) && m in ms && k in ms && m != k
    ensures m.Ref() != k.Ref()
  {}

  lemma NotTaken(ms: seq<Meeple>, zones: set<ZoneRef>, m: Meeple)
    requires m in ms && m.Ref() !in zones
    ensures m in Remaining(ms, zones)
  {
    Splits(ms, zones);
  }

  /** Exactly the meeples on completed roads, cities and monasteries go home. */
  lemma StaysIff(cat: Catalog, members: seq<Id>, s: State, m: Meeple)
    requires Resolvable(cat, members, s)
    ensures m in ScoreTurn(cat, s).meeples <==>
            m in s.meeples && !OnClosed(cat, s.board, m) && !OnCompleteMonastery(cat, s.board, m)
  {
    var roadZones, cityZones := LastZones(cat, s.last, Road), LastZones(cat, s.last, City);
    ScoringIsComplete(cat, members, s);
    ScoreTurnKeeps(cat, s);
    if m in s.meeples && !OnClosed(cat, s.board, m) && !OnCompleteMonastery(cat, s.board, m) {
      LastZonesFit(cat, s.board, s.last.value, Road);
      LastZonesFit(cat, s.board, s.last.value, City);
      OthersStay(cat, s, Road, roadZones, m);
      ScoreFeaturesKeep(cat, s, Road, roadZones);
      var roads := ScoreFeatures(cat, s, Road, roadZones);
      OthersStay(cat, roads, City, cityZones, m);
      ScoreFeaturesKeep(cat, roads, City, cityZones);
      var cities := ScoreFeatures(cat, roads, City, cityZones);
      forall k
        ensures k in CompleteMonks(cat, s.board, cities.meeples) <==>
                k in cities.meeples && OnCompleteMonastery(cat, s.board, k)
      {
        CompleteMonksMember(cat, s.board, cities.meeples, k);
      }
      OthersStayForMonks(cities, CompleteMonks(cat, s.board, cities.meeples), m);
    }
  }

  // ---------------------------------------------------------------- the end of the turn

  /** Some tile of the deck fits on the board. */
  ghost predicate SomeFits(cat: Catalog, deck: seq<Instance>, b: Board) {
    exists k :: 0 <= k < |deck| && Placeable(cat, deck[k].tile, b)
  }

  /** What a player gets at the end of the game for what still stands on the board. */
  ghost function FinalTotal(cat: Catalog, b: Board, ms: seq<Meeple>, actor: Id): nat {
    ShareSum(cat, b, ms, Road, OccupiedClasses(cat, b, ms, Road), actor)
    + ShareSum(cat, b, ms, City, OccupiedClasses(cat, b, ms, City), actor)
    + MonkSum(cat, b, Monks(cat, b, ms), actor)
    + ShareSum(cat, b, ms, Field, OccupiedClasses(cat, b, ms, Field), actor)
  }

  /** The end of a turn pays the turn, and if no tile of the deck fits, the end of the game as well. */
  lemma ResolvePays(cat: Catalog, members: seq<Id>, s: State, i: nat)
    requires Resolvable(cat, members, s) && i < |s.players|
    ensures var t, a, left := Resolve(cat, s), s.players[i].actor, ScoreTurn(cat, s.(phase := ResolveTurn)).meeples;
            && |t.players| == |s.players| && t.players[i].actor == a
            && t.players[i].score == s.players[i].score + TurnTotal(cat, s.board, s.meeples, a)
                 + if SomeFits(cat, s.deck, s.board) then 0 else FinalTotal(cat, s.board, left, a)
  {
    var s1 := s.(phase := ResolveTurn);
    SamePhaseless(cat, members, s, s1);
    TurnScoreIsSum(cat, members, s1, i);
    ScoreTurnKeeps(cat, s1);
    var u := ScoreTurn(cat, s1);
    FinalScoreIsSum(cat, u.board, u.meeples, u.players, i);
    GiveBackKeepsActors(FinalPlayers(cat, u.board, u.meeples, u.players), u.meeples, i);
    FinalKeepsActor(cat, u.board, u.meeples, u.players, i);
  }

  lemma FinalKeepsActor(cat: Catalog, b: Board, ms: seq<Meeple>, players: seq<Player>, i: nat)
    requires i < |players|
    ensures FinalPlayers(cat, b, ms, players)[i].actor == players[i].actor
  {
    var roads := PayShares(cat, b, ms, Road, OccupiedClasses(cat, b, ms, Road), players);
    var cities := PayShares(cat, b, ms, City, OccupiedClasses(cat, b, ms, City), roads);
    MonksPay(cat, b, Monks(cat, b, ms), cities, i);
  }

  lemma SeatsKept(cat: Catalog, members: seq<Id>, s: State)
    requires Resolvable(cat, members, s)
    ensures var u := ScoreTurn(cat, s);
            && |u.players| == |s.players| && DistinctActors(u.players)
            && forall j :: 0 <= j < |s.players| ==> u.players[j].actor == s.players[j].actor
  {
    ScoreTurnKeeps(cat, s);
    forall j: nat | j < |s.players|
      ensures ScoreTurn(cat, s).players[j].actor == s.players[j].actor
    {
      TurnScoreIsSum(cat, members, s, j);
    }
  }

  lemma NextAfterScoring(cat: Catalog, members: seq<Id>, s: State, i: nat)
    requires Resolvable(cat, members, s) && i < |s.players| && s.players[i].actor == s.current
    ensures NextPlayer(ScoreTurn(cat, s).players, s.current)
            == s.players[if i + 1 < |s.players| then i + 1 else 0].actor
  {
    SeatsKept(cat, members, s);
    NextOfSeat(ScoreTurn(cat, s).players, i);
  }

  lemma DrawMeaning(cat: Catalog, deck: seq<Instance>, b: Board)
    ensures if SomeFits(cat, deck, b) then
              Drawn(cat, deck, b).Some? && DrawsFirst(cat, deck, b, Drawn(cat, deck, b).value, Undrawn(cat, deck, b))
            else Drawn(cat, deck, b).None? && Undrawn(cat, deck, b) == deck
  {
    var k := FirstFit(cat, deck, b);
    if k < |deck| {
      assert Placeable(cat, deck[k].tile, b);
    }
  }

  lemma FinishEnds(cat: Catalog, u: State)
    ensures var t := FinishTurn(cat, u);
            && t.board == u.board && t.last.None?
            && (if SomeFits(cat, u.deck, u.board) then
                  && t.phase == PlaceTile && t.turn == u.turn + 1 && t.current == NextPlayer(u.players, u.current)
                  && t.currentTile.Some? && DrawsFirst(cat, u.deck, u.board, t.currentTile.value, t.deck)
                else
                  && t.phase == Finished && t.current == "" && t.turn == u.turn && t.deck == u.deck
                  && t.currentTile.None? && t.meeples == [])
  {
    DrawMeaning(cat, u.deck, u.board);
  }

  /** If a tile of the deck fits, the next seat gets the first one that does; if none fits, the match is over. */
  lemma TurnEnds(cat: Catalog, members: seq<Id>, s: State, i: nat)
    requires Resolvable(cat, members, s) && i < |s.players| && s.players[i].actor == s.current
    ensures var t := Resolve(cat, s);
            && t.board == s.board && t.last.None?
            && (if SomeFits(cat, s.deck, s.board) then
                  && t.phase == PlaceTile && t.turn == s.turn + 1
                  && t.current == s.players[if i + 1 < |s.players| then i + 1 else 0].actor
                  && t.currentTile.Some? && DrawsFirst(cat, s.deck, s.board, t.currentTile.value, t.deck)
                else
                  && t.phase == Finished && t.current == "" && t.turn == s.turn && t.deck == s.deck
                  && t.currentTile.None? && t.meeples == [])
  {
    var s1 := s.(phase := ResolveTurn);
    ScoreTurnKeeps(cat, s1);
    FinishEnds(cat, ScoreTurn(cat, s1));
    assert NextPlayer(ScoreTurn(cat, s1).players, s.current)
           == s.players[if i + 1 < |s.players| then i + 1 else 0].actor by {
      SamePhaseless(cat, members, s, s1);
      NextAfterScoring(cat, members, s1, i);
    }
  }
}
