/** What every player gets at the end of the game: each occupied road, city and field once, and each monk. */
module FinalScores {
  import opened Tiles
  import opened Graphs
  import opened Topology
  import opened Pieces
  import opened Sums
  import opened FeatureScores
  import opened FieldCities
  import opened GameStates

  /** The roads, cities or fields that carry meeples. */
  ghost function OccupiedClasses(cat: Catalog, b: Board, ms: seq<Meeple>, kind: Kind): set<set<ZoneRef>> {
    set m | m in ms && KindOf(cat, b, m.Ref()) == Some(kind) :: Class(cat, b, m.Ref())
  }

  ghost function FinalWorth(cat: Catalog, b: Board, kind: Kind, zones: set<ZoneRef>): nat {
    if kind == Field then FieldPoints(cat, b, zones) else FinalPoints(cat, b, kind, zones)
  }

  /** What one player gets for one feature. */
  ghost function Share(cat: Catalog, b: Board, ms: seq<Meeple>, kind: Kind, zones: set<ZoneRef>, actor: Id): nat {
    if actor in Winners(ms, zones) then FinalWorth(cat, b, kind, zones) else 0
  }

  ghost function ShareSum(cat: Catalog, b: Board, ms: seq<Meeple>, kind: Kind, classes: set<set<ZoneRef>>,
                          actor: Id): nat
  {
    SumOver(classes, k => Share(cat, b, ms, kind, k, actor))
  }

  /** The sum does not depend on the order in which features are taken. */
  lemma ShareSumAdd(cat: Catalog, b: Board, ms: seq<Meeple>, kind: Kind, classes: set<set<ZoneRef>>, k: set<ZoneRef>,
                    actor: Id)
    requires k !in classes
    ensures ShareSum(cat, b, ms, kind, classes + {k}, actor) ==
            ShareSum(cat, b, ms, kind, classes, actor) + Share(cat, b, ms, kind, k, actor)
  {
    SumAdd(classes, k => Share(cat, b, ms, kind, k, actor), k);
  }

  /** Every player's score raised by the shares of a set of features. */
  ghost function PayShares(cat: Catalog, b: Board, ms: seq<Meeple>, kind: Kind, classes: set<set<ZoneRef>>,
                           players: seq<Player>): (r: seq<Player>)
    ensures |r| == |players|
  {
    seq(|players|, i requires 0 <= i < |players| =>
      players[i].(score := players[i].score + ShareSum(cat, b, ms, kind, classes, players[i].actor)))
  }

  lemma PayNothing(cat: Catalog, b: Board, ms: seq<Meeple>, kind: Kind, players: seq<Player>)
    ensures PayShares(cat, b, ms, kind, {}, players) == players
  {
    assert forall a :: ShareSum(cat, b, ms, kind, {}, a) == 0;
  }

  lemma PayOneMore(cat: Catalog, b: Board, ms: seq<Meeple>, kind: Kind, classes: set<set<ZoneRef>>, k: set<ZoneRef>,
                   players: seq<Player>)
    requires k !in classes
    ensures PayShares(cat, b, ms, kind, classes + {k}, players)
            == AddScore(PayShares(cat, b, ms, kind, classes, players), Winners(ms, k), FinalWorth(cat, b, kind, k))
  {
    forall i | 0 <= i < |players|
      ensures PayShares(cat, b, ms, kind, classes + {k}, players)[i]
              == AddScore(PayShares(cat, b, ms, kind, classes, players), Winners(ms, k), FinalWorth(cat, b, kind, k))[i]
    {
      ShareSumAdd(cat, b, ms, kind, classes, k, players[i].actor);
    }
  }

  // ---------------------------------------------------------------- monks

  /** One point for the monastery and one for each neighbour. */
  function MonkWorth(cat: Catalog, b: Board, m: Meeple): nat {
    match TileById(b, m.tile)
    case None => 0
    case Some(t) => 1 + AdjacentTileCount(b, t.x, t.y)
  }

  predicate IsMonk(cat: Catalog, b: Board, m: Meeple) {
    match GetPlacedZone(cat, b, m.Ref())
    case None => false
    case Some(pz) => pz.def.kind == Monastery
  }

  function Monks(cat: Catalog, b: Board, ms: seq<Meeple>): seq<Meeple> {
    if ms == [] then []
    else Monks(cat, b, ms[..|ms| - 1]) + (if IsMonk(cat, b, ms[|ms| - 1]) then [ms[|ms| - 1]] else [])
  }

  function PayMonks(cat: Catalog, b: Board, monks: seq<Meeple>, players: seq<Player>): (r: seq<Player>)
    ensures |r| == |players|
  {
    if monks == [] then players
    else
      var m := monks[|monks| - 1];
      AddScore(PayMonks(cat, b, monks[..|monks| - 1], players), {m.actor}, MonkWorth(cat, b, m))
  }

  // ---------------------------------------------------------------- the end of the game

  ghost function FinalPlayers(cat: Catalog, b: Board, ms: seq<Meeple>, players: seq<Player>): (r: seq<Player>)
    ensures |r| == |players|
  {
    var roads := PayShares(cat, b, ms, Road, OccupiedClasses(cat, b, ms, Road), players);
    var cities := PayShares(cat, b, ms, City, OccupiedClasses(cat, b, ms, City), roads);
    var monks := PayMonks(cat, b, Monks(cat, b, ms), cities);
    PayShares(cat, b, ms, Field, OccupiedClasses(cat, b, ms, Field), monks)
  }

  /** What one player gets for the monks. */
  function MonkSum(cat: Catalog, b: Board, monks: seq<Meeple>, actor: Id): nat {
    if monks == [] then 0
    else MonkSum(cat, b, monks[..|monks| - 1], actor)
         + (var m := monks[|monks| - 1]; if m.actor == actor then MonkWorth(cat, b, m) else 0)
  }

  lemma {:induction false} MonksPay(cat: Catalog, b: Board, monks: seq<Meeple>, players: seq<Player>, i: nat)
    requires i < |players|
    ensures PayMonks(cat, b, monks, players)[i]
            == players[i].(score := players[i].score + MonkSum(cat, b, monks, players[i].actor))
  {
    if monks != [] { MonksPay(cat, b, monks[..|monks| - 1], players, i); }
  }

  /** A player's final score is the score so far plus one share of every occupied road, city and field the player
      holds a majority on, each counted once, plus the player's monks. */
  lemma FinalScoreIsSum(cat: Catalog, b: Board, ms: seq<Meeple>, players: seq<Player>, i: nat)
    requires i < |players|
    ensures var a := players[i].actor;
            FinalPlayers(cat, b, ms, players)[i].score ==
              players[i].score
              + ShareSum(cat, b, ms, Road, OccupiedClasses(cat, b, ms, Road), a)
              + ShareSum(cat, b, ms, City, OccupiedClasses(cat, b, ms, City), a)
              + MonkSum(cat, b, Monks(cat, b, ms), a)
              + ShareSum(cat, b, ms, Field, OccupiedClasses(cat, b, ms, Field), a)
  {
    var roads := PayShares(cat, b, ms, Road, OccupiedClasses(cat, b, ms, Road), players);
    var cities := PayShares(cat, b, ms, City, OccupiedClasses(cat, b, ms, City), roads);
    MonksPay(cat, b, Monks(cat, b, ms), cities, i);
  }

  /** Final scoring pays every feature and sends all meeples home. */
  ghost function ScoreFinal(cat: Catalog, s: State): State {
    s.(players := GiveBack(FinalPlayers(cat, s.board, s.meeples, s.players), s.meeples), meeples := [])
  }

  // ---------------------------------------------------------------- the ledger of one pass

  ghost function UnionOf(classes: set<set<ZoneRef>>): set<ZoneRef> {
    set k, z | k in classes && z in k :: z
  }

  /** Events that pay from p to q and list the meeples on the zones, which stay on the board for now. */
  ghost predicate PassLedger(ms: seq<Meeple>, p: seq<Player>, q: seq<Player>, zones: set<ZoneRef>, es: seq<Event>) {
    && ScoresAgree(p, q, es)
    && Returned(es) == multiset(Taken(ms, zones))
    && (forall e :: e in es ==> Balanced(e))
  }

  lemma {:induction false} TakenSplits(ms: seq<Meeple>, y: set<ZoneRef>, z: set<ZoneRef>)
    requires y !! z
    ensures multiset(Taken(ms, y + z)) == multiset(Taken(ms, y)) + multiset(Taken(ms, z))
  {
    if ms != [] {
      TakenSplits(ms[..|ms| - 1], y, z);
    }
  }

  lemma {:induction false} TakenNone(ms: seq<Meeple>)
    ensures Taken(ms, {}) == []
  {
    if ms != [] { TakenNone(ms[..|ms| - 1]); }
  }

  lemma {:induction false} TakenAll(ms: seq<Meeple>, zones: set<ZoneRef>)
    requires forall m :: m in ms ==> m.Ref() in zones
    ensures Taken(ms, zones) == ms
  {
    if ms != [] {
      TakenAll(ms[..|ms| - 1], zones);
      assert ms[|ms| - 1] in ms && ms == ms[..|ms| - 1] + [ms[|ms| - 1]];
    }
  }

  lemma PassEmpty(ms: seq<Meeple>, p: seq<Player>)
    ensures PassLedger(ms, p, p, {}, [])
  {
    TakenNone(ms);
    assert forall i :: 0 <= i < |p| ==> Awarded([], p[i].actor) == 0;
  }

  lemma PassComposes(ms: seq<Meeple>, p: seq<Player>, q: seq<Player>, r: seq<Player>, y: set<ZoneRef>, z: set<ZoneRef>,
                     es: seq<Event>, fs: seq<Event>)
    requires PassLedger(ms, p, q, y, es) && PassLedger(ms, q, r, z, fs) && y !! z
    ensures PassLedger(ms, p, r, y + z, es + fs)
  {
    ScoresCompose(p, q, r, es, fs);
    ReturnedConcat(es, fs);
    TakenSplits(ms, y, z);
  }

  /** One event that pays the winners and lists the meeples on the zones. */
  lemma PassOne(ms: seq<Meeple>, p: seq<Player>, zones: set<ZoneRef>, winners: set<Id>, points: int, e: Event)
    requires Balanced(e) && e.total == points && e.awards.Keys == winners
    requires multiset(e.returned) == multiset(Taken(ms, zones))
    ensures PassLedger(ms, p, AddScore(p, winners, points), zones, [e])
  {
    OneAward(e, "");
    forall i | 0 <= i < |p|
      ensures Awarded([e], p[i].actor) == if p[i].actor in winners then points else 0
    {
      OneAward(e, p[i].actor);
    }
  }

  /** Recorded events account for the pass; a silent pass emits none. */
  ghost predicate PassBook(record: bool, ms: seq<Meeple>, p: seq<Player>, q: seq<Player>, zones: set<ZoneRef>,
                           es: seq<Event>)
  {
    if record then PassLedger(ms, p, q, zones, es) else es == []
  }

  lemma BookEmpty(record: bool, ms: seq<Meeple>, p: seq<Player>)
    ensures PassBook(record, ms, p, p, {}, [])
  {
    PassEmpty(ms, p);
  }

  lemma BookComposes(record: bool, ms: seq<Meeple>, p: seq<Player>, q: seq<Player>, r: seq<Player>, y: set<ZoneRef>,
                     z: set<ZoneRef>, es: seq<Event>, fs: seq<Event>)
    requires PassBook(record, ms, p, q, y, es) && PassBook(record, ms, q, r, z, fs) && y !! z
    ensures PassBook(record, ms, p, r, y + z, es + fs)
  {
    if record { PassComposes(ms, p, q, r, y, z, es, fs); }
  }

  /** Classes are disjoint, so a new class shares no zone with those already paid. */
  lemma NewClassDisjoint(cat: Catalog, b: Board, classes: set<set<ZoneRef>>, ref: ZoneRef)
    requires ValidCatalog(cat) && WellPlaced(cat, b) && ref in Zones(cat, b) && Class(cat, b, ref) !in classes
    requires forall k :: k in classes ==> exists z :: z in Zones(cat, b) && k == Class(cat, b, z)
    ensures UnionOf(classes) !! Class(cat, b, ref)
    ensures UnionOf(classes + {Class(cat, b, ref)}) == UnionOf(classes) + Class(cat, b, ref)
  {
    var g := ZoneGraph(cat, b);
    NeighborsSymmetric(cat, b);
    forall k | k in classes
      ensures k !! Class(cat, b, ref)
    {
      var z :| z in Zones(cat, b) && k == Class(cat, b, z);
      Partition(g, z, ref);
    }
    UnionGrows(classes, Class(cat, b, ref));
  }

  lemma UnionGrows(classes: set<set<ZoneRef>>, k: set<ZoneRef>)
    ensures UnionOf(classes + {k}) == UnionOf(classes) + k
  {
    forall z
      ensures z in UnionOf(classes + {k}) <==> z in UnionOf(classes) + k
    {
      if z in k { assert k in classes + {k}; }
      if j :| j in classes && z in j { assert j in classes + {k}; }
    }
  }
}
