/** Final payments: the four passes over players' scores, and the events that account for them. */
module FinalPayments {
  import opened Tiles
  import opened Graphs
  import opened Topology
  import opened Pieces
  import opened Hands
  import opened FeatureGraph
  import opened FeatureScores
  import opened FieldGraphs
  import opened FieldCities
  import opened GameStates
  import opened FinalScores
  import opened FinalFeatures
  import opened BoardOrders
  import opened FieldOrders
  import opened Sorting

  // ---------------------------------------------------------------- progress of the final passes

  lemma NothingAdded(players: seq<Player>, winners: set<Id>)
    ensures AddScore(players, winners, 0) == players
  {}

  lemma NobodyPaid(record: bool, ms: seq<Meeple>, players: seq<Player>, zones: set<ZoneRef>, points: nat)
    requires !Occupied(ms, zones)
    ensures AddScore(players, Winners(ms, zones), points) == players
    ensures PassBook(record, ms, players, players, zones, [])
  {
    NothingTaken(ms, zones);
    PassEmpty(ms, players);
    assert Winners(ms, zones) == {};
  }

  ghost predicate KindPaid(record: bool, cat: Catalog, b: Board, ms: seq<Meeple>, kind: Kind, p: seq<Player>,
                           q: seq<Player>, fs: seq<Feature>, starts: seq<ZoneRef>, n: nat, es: seq<Event>)
  {
    && n <= |fs| && FinalList(cat, b, ms, |ms|, fs, starts)
    && q == PayShares(cat, b, ms, kind, ClassesOf(cat, b, fs, starts, kind, n), p)
    && PassBook(record, ms, p, q, UnionOf(ClassesOf(cat, b, fs, starts, kind, n)), es)
  }

  lemma KindStarts(record: bool, cat: Catalog, b: Board, ms: seq<Meeple>, kind: Kind, p: seq<Player>, fs: seq<Feature>,
                   starts: seq<ZoneRef>)
    requires FinalList(cat, b, ms, |ms|, fs, starts)
    ensures KindPaid(record, cat, b, ms, kind, p, p, fs, starts, 0, [])
  {
    PayNothing(cat, b, ms, kind, p);
    BookEmpty(record, ms, p);
    assert UnionOf({}) == {};
  }

  lemma KindStep(record: bool, cat: Catalog, b: Board, ms: seq<Meeple>, kind: Kind, p: seq<Player>, q: seq<Player>,
                 r: seq<Player>, fs: seq<Feature>, starts: seq<ZoneRef>, n: nat, es: seq<Event>, more: seq<Event>)
    requires ValidCatalog(cat) && WellPlaced(cat, b) && n < |fs|
    requires KindPaid(record, cat, b, ms, kind, p, q, fs, starts, n, es)
    requires fs[n].kind == kind ==>
               && r == AddScore(q, Winners(ms, Class(cat, b, starts[n])),
                   FinalWorth(cat, b, kind, Class(cat, b, starts[n])))
               && PassBook(record, ms, q, r, Class(cat, b, starts[n]), more)
    requires fs[n].kind != kind ==> r == q && more == []
    ensures KindPaid(record, cat, b, ms, kind, p, r, fs, starts, n + 1, es + more)
  {
    var classes, k := ClassesOf(cat, b, fs, starts, kind, n), Class(cat, b, starts[n]);
    if fs[n].kind == kind {
      NextClassIsNew(cat, b, ms, fs, starts, kind, n);
      PayOneMore(cat, b, ms, kind, classes, k, p);
      ClassesAreClasses(cat, b, ms, fs, starts, kind, n);
      assert Found(cat, b, ms, fs[n], starts[n]);
      NewClassDisjoint(cat, b, classes, starts[n]);
      BookComposes(record, ms, p, q, r, UnionOf(classes), k, es, more);
    } else {
      assert es + more == es;
      assert ClassesOf(cat, b, fs, starts, kind, n + 1) == classes;
    }
  }

  lemma ClassesAreClasses(cat: Catalog, b: Board, ms: seq<Meeple>, fs: seq<Feature>, starts: seq<ZoneRef>, kind: Kind,
                          n: nat)
    requires n <= |fs| && FinalList(cat, b, ms, |ms|, fs, starts)
    ensures forall k :: k in ClassesOf(cat, b, fs, starts, kind, n) ==>
              exists z :: z in Zones(cat, b) && k == Class(cat, b, z)
  {
    forall k | k in ClassesOf(cat, b, fs, starts, kind, n)
      ensures exists z :: z in Zones(cat, b) && k == Class(cat, b, z)
    {
      ClassesOfMember(cat, b, fs, starts, kind, n, k);
      var i :| 0 <= i < n && fs[i].kind == kind && k == Class(cat, b, starts[i]);
      assert Found(cat, b, ms, fs[i], starts[i]);
    }
  }

  /** The event that records the payment of one monk. */
  ghost function MonkEvent(cat: Catalog, b: Board, turn: int, m: Meeple): Event {
    var points := MonkWorth(cat, b, m);
    Event(turn, Monastery, FinalScoring, [Contribution(m.tile, m.zone, points)], points, Awards({m.actor}, points), [m])
  }

  /** One event for each of the first n monks, in the given order. */
  ghost predicate MonkEvents(cat: Catalog, b: Board, turn: int, monks: seq<Meeple>, n: nat, es: seq<Event>) {
    |es| == n <= |monks| && forall i :: 0 <= i < n ==> es[i] == MonkEvent(cat, b, turn, monks[i])
  }

  ghost predicate MonksPaid(record: bool, cat: Catalog, b: Board, ms: seq<Meeple>, turn: int, monks: seq<Meeple>,
                            p: seq<Player>, q: seq<Player>, n: nat, es: seq<Event>)
  {
    && n <= |monks| && q == PayMonks(cat, b, monks[..n], p) && PassBook(record, ms, p, q, RefsOf(monks[..n]), es)
    && (record ==> MonkEvents(cat, b, turn, monks, n, es))
  }

  lemma MonkStep(record: bool, cat: Catalog, b: Board, ms: seq<Meeple>, turn: int, monks: seq<Meeple>,
                 p: seq<Player>, q: seq<Player>, r: seq<Player>, n: nat, es: seq<Event>, more: seq<Event>)
    requires OnePerTile(ms) && AreMonks(cat, b, ms, monks) && n < |monks|
    requires MonksPaid(record, cat, b, ms, turn, monks, p, q, n, es)
    requires r == AddScore(q, {monks[n].actor}, MonkWorth(cat, b, monks[n]))
    requires PassBook(record, ms, q, r, {monks[n].Ref()}, more)
    requires more == if record then [MonkEvent(cat, b, turn, monks[n])] else []
    ensures MonksPaid(record, cat, b, ms, turn, monks, p, r, n + 1, es + more)
  {
    RefsStep(cat, b, ms, monks, n);
    assert monks[..n + 1][..n] == monks[..n];
    BookComposes(record, ms, p, q, r, RefsOf(monks[..n]), {monks[n].Ref()}, es, more);
    if record { MonkEventsStep(cat, b, turn, monks, n, es, more); }
  }

  lemma MonkEventsStep(cat: Catalog, b: Board, turn: int, monks: seq<Meeple>, n: nat, es: seq<Event>, more: seq<Event>)
    requires n < |monks| && MonkEvents(cat, b, turn, monks, n, es) && more == [MonkEvent(cat, b, turn, monks[n])]
    ensures MonkEvents(cat, b, turn, monks, n + 1, es + more)
  {}

  ghost predicate FieldsPaid(record: bool, cat: Catalog, b: Board, ms: seq<Meeple>, p: seq<Player>, q: seq<Player>,
                             done: set<FieldSegment>, es: seq<Event>)
  {
    && q == PayShares(cat, b, ms, Field, FieldClasses(cat, b, done), p)
    && PassBook(record, ms, p, q, UnionOf(FieldClasses(cat, b, done)), es)
  }

  lemma FieldsStart(record: bool, cat: Catalog, b: Board, ms: seq<Meeple>, p: seq<Player>)
    ensures FieldsPaid(record, cat, b, ms, p, p, {}, [])
  {
    PayNothing(cat, b, ms, Field, p);
    BookEmpty(record, ms, p);
    assert FieldClasses(cat, b, {}) == {};
    assert UnionOf({}) == {};
  }

  lemma FieldsStep(record: bool, cat: Catalog, b: Board, ms: seq<Meeple>, p: seq<Player>, q: seq<Player>,
                   r: seq<Player>, root: map<FieldSegment, FieldSegment>, weights: map<FieldSegment, map<Id, nat>>,
                   done: set<FieldSegment>, u: FieldSegment, es: seq<Event>, more: seq<Event>)
    requires ValidCatalog(cat) && WellPlaced(cat, b) && FieldPartition(cat, b, root)
    requires MeeplesWeighed(cat, b, root, ms, weights)
    requires FieldsPaid(record, cat, b, ms, p, q, done, es) && done <= weights.Keys && u in weights && u !in done
    requires r == AddScore(q, Winners(ms, Class(cat, b, u.Zone())), FinalWorth(cat, b, Field, Class(cat, b, u.Zone())))
    requires PassBook(record, ms, q, r, Class(cat, b, u.Zone()), more)
    ensures FieldsPaid(record, cat, b, ms, p, r, done + {u}, es + more)
  {
    var classes, k := FieldClasses(cat, b, done), Class(cat, b, u.Zone());
    assert FieldClasses(cat, b, done + {u}) == classes + {k};
    RootsDiffer(cat, b, root, weights, ms, done, u);
    PayOneMore(cat, b, ms, Field, classes, k, p);
    assert WeighedAt(cat, b, root, ms, weights, u);
    FieldZone(cat, b, root, u);
    FieldClassesAreClasses(cat, b, root, ms, weights, done);
    NewClassDisjoint(cat, b, classes, u.Zone());
    BookComposes(record, ms, p, q, r, UnionOf(classes), k, es, more);
  }

  lemma FieldClassesAreClasses(cat: Catalog, b: Board, root: map<FieldSegment, FieldSegment>, ms: seq<Meeple>,
                               weights: map<FieldSegment, map<Id, nat>>, done: set<FieldSegment>)
    requires ValidCatalog(cat) && WellPlaced(cat, b) && FieldPartition(cat, b, root)
    requires MeeplesWeighed(cat, b, root, ms, weights) && done <= weights.Keys
    ensures forall k :: k in FieldClasses(cat, b, done) ==> exists z :: z in Zones(cat, b) && k == Class(cat, b, z)
  {
    forall k | k in FieldClasses(cat, b, done)
      ensures exists z :: z in Zones(cat, b) && k == Class(cat, b, z)
    {
      var r :| r in done && k == Class(cat, b, r.Zone());
      assert WeighedAt(cat, b, root, ms, weights, r);
      FieldZone(cat, b, root, r);
    }
  }

  /** Nothing is added for a worthless feature. */
  method PayFinal(players: array<Player>, winners: set<Id>, points: nat)
    modifies players
    ensures players[..] == AddScore(old(players[..]), winners, points)
  {
    if points > 0 {
      ApplyScore(players, winners, points);
    } else {
      NothingAdded(players[..], winners);
    }
  }

  // ---------------------------------------------------------------- one feature

  /** Pays the winners of a feature, if there are any; the points go into one event that lists its meeples. */
  method PayShare(ms: seq<Meeple>, turn: int, players: array<Player>, kind: Kind, winners: set<Id>, points: nat,
                  contributions: seq<Contribution>, returned: seq<Meeple>, ghost zones: set<ZoneRef>, record: bool)
    returns (es: seq<Event>)
    requires winners == Winners(ms, zones) && (winners == {} <==> !Occupied(ms, zones))
    requires record && winners != {} ==>
               multiset(returned) == multiset(Taken(ms, zones)) && (kind != Field ==> Total(contributions) == points)
    modifies players
    ensures players[..] == AddScore(old(players[..]), winners, points)
    ensures PassBook(record, ms, old(players[..]), players[..], zones, es)
    ensures es ==
            if record && winners != {}
            then [Event(turn, kind, FinalScoring, contributions, points, Awards(winners, points), returned)]
            else []
  {
    es := [];
    if winners == {} {
      NobodyPaid(record, ms, players[..], zones, points);
    } else {
      if record {
        var e := NewEvent(turn, kind, FinalScoring, winners, points, contributions, returned);
        PassOne(ms, players[..], zones, winners, points, e);
        es := [e];
      }
      PayFinal(players, winners, points);
    }
  }

  /** The event that records the final payment of a road or city: its parts and its meeples are listed in board
      order. */
  ghost predicate IsFeatureEvent(cat: Catalog, b: Board, ms: seq<Meeple>, turn: int, kind: Kind, k: set<ZoneRef>,
                                 e: Event)
  {
    && e == Event(turn, kind, FinalScoring, e.contributions, FinalWorth(cat, b, kind, k),
        Awards(Winners(ms, k), FinalWorth(cat, b, kind, k)),
                  ArrangedMeeples(b, Taken(ms, k)))
    && Total(e.contributions) == e.total && SortedBy((c, d) => ContributionBefore(b, c, d), e.contributions)
  }

  method ScoreFinalFeature(cat: Catalog, b: Board, ms: seq<Meeple>, turn: int, players: array<Player>, kind: Kind,
                           f: Feature, ghost start: ZoneRef, record: bool)
    returns (es: seq<Event>)
    requires kind in {Road, City} && IsFeature(cat, b, ms, start, f)
    modifies players
    ensures players[..] == AddScore(old(players[..]), Winners(ms, Class(cat, b, start)),
              FinalWorth(cat, b, kind, Class(cat, b, start)))
    ensures PassBook(record, ms, old(players[..]), players[..], Class(cat, b, start), es)
    ensures record && Occupied(ms, Class(cat, b, start)) ==>
              |es| == 1 && IsFeatureEvent(cat, b, ms, turn, kind, Class(cat, b, start), es[0])
  {
    ghost var zones := Class(cat, b, start);
    var winners := WinningActors(f.meeplesByActor);
    WinnersOfWeights(ms, zones, f.meeplesByActor);
    var points := FinalScore(cat, b, kind, f.zones, zones);
    var contributions, returned := [], [];
    if record {
      contributions := FinalContributions(cat, b, kind, f.zones, zones, points);
      ArrangedContributionsLaws(b, contributions);
      contributions := ArrangedContributions(b, contributions);
      returned := MeeplesForFeature(ms, f.zones, zones);
      ArrangedMeeplesLaws(b, returned);
      returned := ArrangedMeeples(b, returned);
    }
    es := PayShare(ms, turn, players, kind, winners, points, contributions, returned, zones, record);
  }

  /** One event for each feature of the kind among the first n of the list, in the order of the list. */
  ghost predicate KindEvents(cat: Catalog, b: Board, ms: seq<Meeple>, turn: int, kind: Kind, fs: seq<Feature>,
                             starts: seq<ZoneRef>, n: nat, es: seq<Event>)
    requires n <= |fs| == |starts|
  {
    if n == 0 then es == []
    else if fs[n - 1].kind != kind then KindEvents(cat, b, ms, turn, kind, fs, starts, n - 1, es)
    else
      && es != [] && IsFeatureEvent(cat, b, ms, turn, kind, Class(cat, b, starts[n - 1]), es[|es| - 1])
      && KindEvents(cat, b, ms, turn, kind, fs, starts, n - 1, es[..|es| - 1])
  }

  /** Scores the listed features of one kind, each once, in the order of the list. */
  method ScoreFinalKind(cat: Catalog, b: Board, ms: seq<Meeple>, turn: int, players: array<Player>, kind: Kind,
                        fs: seq<Feature>, ghost starts: seq<ZoneRef>, record: bool)
    returns (es: seq<Event>)
    requires ValidCatalog(cat) && WellPlaced(cat, b) && kind in {Road, City} && FinalList(cat, b, ms, |ms|, fs, starts)
    modifies players
    ensures players[..] == PayShares(cat, b, ms, kind, OccupiedClasses(cat, b, ms, kind), old(players[..]))
    ensures PassBook(record, ms, old(players[..]), players[..], UnionOf(OccupiedClasses(cat, b, ms, kind)), es)
    ensures record ==> KindEvents(cat, b, ms, turn, kind, fs, starts, |fs|, es)
  {
    ghost var p := players[..];
    es := ScoreList(cat, b, ms, turn, players, kind, fs, starts, record);
    KindScoredEnd(record, cat, b, ms, turn, kind, p, players[..], fs, starts, es);
  }

  method ScoreList(cat: Catalog, b: Board, ms: seq<Meeple>, turn: int, players: array<Player>, kind: Kind,
                   fs: seq<Feature>, ghost starts: seq<ZoneRef>, record: bool)
    returns (es: seq<Event>)
    requires ValidCatalog(cat) && WellPlaced(cat, b) && kind in {Road, City} && FinalList(cat, b, ms, |ms|, fs, starts)
    modifies players
    ensures KindScored(record, cat, b, ms, turn, kind, old(players[..]), players[..], fs, starts, |fs|, es)
  {
    es := [];
    ghost var p, q := players[..], players[..];
    KindScoredStart(record, cat, b, ms, turn, kind, p, fs, starts);
    for i := 0 to |fs|
      invariant q == players[..] && KindScored(record, cat, b, ms, turn, kind, p, q, fs, starts, i, es)
    {
      es, q := ScoreListed(cat, b, ms, turn, players, p, q, kind, fs, starts, i, es, record);
    }
  }

  /** The first n features of the list are paid, and their events are in order. */
  ghost predicate KindScored(record: bool, cat: Catalog, b: Board, ms: seq<Meeple>, turn: int, kind: Kind,
                             p: seq<Player>, q: seq<Player>, fs: seq<Feature>, starts: seq<ZoneRef>, n: nat,
                             es: seq<Event>)
  {
    && KindPaid(record, cat, b, ms, kind, p, q, fs, starts, n, es)
    && (record ==> KindEvents(cat, b, ms, turn, kind, fs, starts, n, es))
  }

  /** What scoring one listed feature does. */
  ghost predicate ListedScored(record: bool, cat: Catalog, b: Board, ms: seq<Meeple>, turn: int, kind: Kind,
                               p: seq<Player>, q: seq<Player>, f: Feature, start: ZoneRef, es: seq<Event>)
  {
    if f.kind != kind then q == p && es == []
    else
      var k := Class(cat, b, start);
      && q == AddScore(p, Winners(ms, k), FinalWorth(cat, b, kind, k)) && PassBook(record, ms, p, q, k, es)
      && (record ==> |es| == 1 && IsFeatureEvent(cat, b, ms, turn, kind, k, es[0]))
  }

  lemma KindScoredStart(record: bool, cat: Catalog, b: Board, ms: seq<Meeple>, turn: int, kind: Kind, p: seq<Player>,
                        fs: seq<Feature>, starts: seq<ZoneRef>)
    requires FinalList(cat, b, ms, |ms|, fs, starts)
    ensures KindScored(record, cat, b, ms, turn, kind, p, p, fs, starts, 0, [])
  {
    KindStarts(record, cat, b, ms, kind, p, fs, starts);
  }

  lemma KindScoredEnd(record: bool, cat: Catalog, b: Board, ms: seq<Meeple>, turn: int, kind: Kind, p: seq<Player>,
                      q: seq<Player>, fs: seq<Feature>, starts: seq<ZoneRef>, es: seq<Event>)
    requires ValidCatalog(cat) && WellPlaced(cat, b) && kind in {Road, City}
    requires KindScored(record, cat, b, ms, turn, kind, p, q, fs, starts, |fs|, es)
    ensures q == PayShares(cat, b, ms, kind, OccupiedClasses(cat, b, ms, kind), p)
    ensures PassBook(record, ms, p, q, UnionOf(OccupiedClasses(cat, b, ms, kind)), es)
    ensures record ==> KindEvents(cat, b, ms, turn, kind, fs, starts, |fs|, es)
  {
    ListIsOccupied(cat, b, ms, fs, starts, kind);
  }

  lemma KindScoredStep(record: bool, cat: Catalog, b: Board, ms: seq<Meeple>, turn: int, kind: Kind, p: seq<Player>,
                       q: seq<Player>, r: seq<Player>, fs: seq<Feature>, starts: seq<ZoneRef>, n: nat, es: seq<Event>,
                       more: seq<Event>)
    requires ValidCatalog(cat) && WellPlaced(cat, b)
    requires KindScored(record, cat, b, ms, turn, kind, p, q, fs, starts, n, es)
    requires n < |fs| && ListedScored(record, cat, b, ms, turn, kind, q, r, fs[n], starts[n], more)
    ensures KindScored(record, cat, b, ms, turn, kind, p, r, fs, starts, n + 1, es + more)
  {
    KindStep(record, cat, b, ms, kind, p, q, r, fs, starts, n, es, more);
    if record {
      if fs[n].kind == kind {
        assert (es + more)[|es + more| - 1] == more[0] && (es + more)[..|es + more| - 1] == es;
      } else {
        assert es + more == es;
      }
    }
  }

  /** Scores the next feature of the list if it is of the kind. */
  method ScoreListed(cat: Catalog, b: Board, ms: seq<Meeple>, turn: int, players: array<Player>, ghost p: seq<Player>,
                     ghost before: seq<Player>, kind: Kind, fs: seq<Feature>, ghost starts: seq<ZoneRef>, i: nat,
                     es: seq<Event>, record: bool)
    returns (more: seq<Event>, ghost after: seq<Player>)
    requires ValidCatalog(cat) && WellPlaced(cat, b) && kind in {Road, City} && before == players[..]
    requires KindScored(record, cat, b, ms, turn, kind, p, before, fs, starts, i, es) && i < |fs|
    modifies players
    ensures after == players[..] && KindScored(record, cat, b, ms, turn, kind, p, after, fs, starts, i + 1, more)
  {
    more := [];
    assert Found(cat, b, ms, fs[i], starts[i]);
    if fs[i].kind == kind {
      Reflexive(ZoneGraph(cat, b), starts[i]);
      more := ScoreFinalFeature(cat, b, ms, turn, players, kind, fs[i], starts[i], record);
    }
    after := players[..];
    KindScoredStep(record, cat, b, ms, turn, kind, p, before, after, fs, starts, i, es, more);
    more := es + more;
  }

  /** What an event says apart from its parts. */
  predicate SameAward(e: Event, f: Event) {
    e.turn == f.turn && e.kind == f.kind && e.total == f.total && e.awards == f.awards && e.returned == f.returned
  }

  /** The final events of roads and cities are determined by the board and the meeples: the order in which the features
      were found makes no difference. */
  lemma KindEventsAreFixed(cat: Catalog, b: Board, ms: seq<Meeple>, turn: int, kind: Kind, fs: seq<Feature>,
                           starts: seq<ZoneRef>, gs: seq<Feature>, begins: seq<ZoneRef>, es: seq<Event>, ds: seq<Event>)
    requires ValidCatalog(cat) && WellPlaced(cat, b) && InPlace(b, fs) && InPlace(b, gs)
    requires FinalList(cat, b, ms, |ms|, fs, starts) && FinalList(cat, b, ms, |ms|, gs, begins)
    requires KindEvents(cat, b, ms, turn, kind, fs, starts, |fs|, es)
    requires KindEvents(cat, b, ms, turn, kind, gs, begins, |gs|, ds)
    ensures |es| == |ds| && forall i :: 0 <= i < |es| ==> SameAward(es[i], ds[i])
  {
    FeatureOrderIsFixed(cat, b, ms, fs, starts, gs, begins);
    SameListSameEvents(cat, b, ms, turn, kind, fs, starts, gs, begins, |fs|, es, ds);
  }

  lemma {:induction false} SameListSameEvents(cat: Catalog, b: Board, ms: seq<Meeple>, turn: int, kind: Kind,
                                              fs: seq<Feature>, starts: seq<ZoneRef>, gs: seq<Feature>,
                                              begins: seq<ZoneRef>, n: nat, es: seq<Event>, ds: seq<Event>)
    requires n <= |fs| == |starts| == |gs| == |begins|
    requires forall i :: 0 <= i < |fs| ==> fs[i].kind == gs[i].kind && SameClass(cat, b, starts[i], begins[i])
    requires KindEvents(cat, b, ms, turn, kind, fs, starts, n, es)
    requires KindEvents(cat, b, ms, turn, kind, gs, begins, n, ds)
    ensures |es| == |ds| && forall i :: 0 <= i < |es| ==> SameAward(es[i], ds[i])
  {
    if n > 0 {
      assert SameClass(cat, b, starts[n - 1], begins[n - 1]);
      if fs[n - 1].kind == kind {
        SameListSameEvents(cat, b, ms, turn, kind, fs, starts, gs, begins, n - 1, es[..|es| - 1], ds[..|ds| - 1]);
        forall i | 0 <= i < |es|
          ensures SameAward(es[i], ds[i])
        {
          if i < |es| - 1 { assert SameAward(es[..|es| - 1][i], ds[..|ds| - 1][i]); }
        }
      } else {
        SameListSameEvents(cat, b, ms, turn, kind, fs, starts, gs, begins, n - 1, es, ds);
      }
    }
  }

  // ---------------------------------------------------------------- monks

  /** Pays the owner of one meeple on a monastery. */
  method PayOne(cat: Catalog, b: Board, ms: seq<Meeple>, turn: int, players: array<Player>, m: Meeple, record: bool)
    returns (es: seq<Event>)
    requires IsMonk(cat, b, m) && Taken(ms, {m.Ref()}) == [m]
    modifies players
    ensures players[..] == AddScore(old(players[..]), {m.actor}, MonkWorth(cat, b, m))
    ensures PassBook(record, ms, old(players[..]), players[..], {m.Ref()}, es)
    ensures es == if record then [MonkEvent(cat, b, turn, m)] else []
  {
    es := [];
    var t := TileById(b, m.tile).value;
    var score := 1 + AdjacentTileCount(b, t.x, t.y);
    if record {
      var contributions := [Contribution(m.tile, m.zone, score)];
      var e := NewEvent(turn, Monastery, FinalScoring, {m.actor}, score, contributions, [m]);
      PassOne(ms, players[..], {m.Ref()}, {m.actor}, score, e);
      es := [e];
    }
    ApplyScore(players, {m.actor}, score);
  }

  /** Scores the monks in board order, each in an event of its own. */
  method ScoreFinalMonasteries(cat: Catalog, b: Board, ms: seq<Meeple>, turn: int, players: array<Player>, record: bool)
    returns (es: seq<Event>)
    requires OnePerTile(ms)
    modifies players
    ensures players[..] == PayMonks(cat, b, Monks(cat, b, ms), old(players[..]))
    ensures PassBook(record, ms, old(players[..]), players[..], RefsOf(Monks(cat, b, ms)), es)
    ensures record ==> var monks := ArrangedMeeples(b, Monks(cat, b, ms)); MonkEvents(cat, b, turn, monks, |monks|, es)
  {
    es := [];
    ghost var p := players[..];
    ArrangedMonks(cat, b, ms, p);
    var monks := CollectMonks(cat, b, ms);
    monks := ArrangedMeeples(b, monks);
    BookEmpty(record, ms, p);
    assert RefsOf(monks[..0]) == {};
    for i := 0 to |monks|
      invariant MonksPaid(record, cat, b, ms, turn, monks, p, players[..], i, es)
    {
      ghost var before := players[..];
      RefsStep(cat, b, ms, monks, i);
      var more := PayOne(cat, b, ms, turn, players, monks[i], record);
      MonkStep(record, cat, b, ms, turn, monks, p, before, players[..], i, es, more);
      es := es + more;
    }
    assert monks[..|monks|] == monks;
  }

  // ---------------------------------------------------------------- fields

  /** The event that records the final payment of a field. */
  ghost function FieldEvent(cat: Catalog, b: Board, ms: seq<Meeple>, turn: int, field: set<ZoneRef>): Event {
    var points := FieldPoints(cat, b, field);
    Event(turn, Field, FinalScoring, [], points, Awards(Winners(ms, field), points),
        ArrangedMeeples(b, Taken(ms, field)))
  }

  /** One event for each of the first n fields, in the given order. */
  ghost predicate FieldEvents(cat: Catalog, b: Board, ms: seq<Meeple>, turn: int, firsts: seq<FieldSegment>, n: nat,
                              es: seq<Event>)
  {
    |es| == n <= |firsts| && forall i :: 0 <= i < n ==>
        es[i] == FieldEvent(cat, b, ms, turn, Class(cat, b, firsts[i].Zone()))
  }

  lemma FieldEventsStep(cat: Catalog, b: Board, ms: seq<Meeple>, turn: int, firsts: seq<FieldSegment>, n: nat,
                        es: seq<Event>, more: seq<Event>)
    requires n < |firsts| && FieldEvents(cat, b, ms, turn, firsts, n, es)
    requires more == [FieldEvent(cat, b, ms, turn, Class(cat, b, firsts[n].Zone()))]
    ensures FieldEvents(cat, b, ms, turn, firsts, n + 1, es + more)
  {}

  /** Scores the fields with recorded weights in the given order. */
  method ScoreRoots(cat: Catalog, b: Board, ms: seq<Meeple>, turn: int, players: array<Player>, g: FieldGraph,
                    fields: seq<OccupiedField>, record: bool)
    returns (es: seq<Event>)
    requires ValidCatalog(cat) && WellPlaced(cat, b) && g.Valid(cat, b, ms)
    requires Rooted(cat, b, fields, g.meeplesByRoot.Keys)
    modifies players, g.dsu`parent
    ensures FieldsScored(record, cat, b, ms, turn, old(players[..]), players[..], fields, |fields|, es)
  {
    es := [];
    ghost var p, q := players[..], players[..];
    FieldsStart(record, cat, b, ms, p);
    for i := 0 to |fields|
      invariant g.dsu.Valid() && q == players[..] && FieldsScored(record, cat, b, ms, turn, p, q, fields, i, es)
    {
      es, q := ScoreNext(cat, b, ms, turn, players, p, q, g, fields, i, es, record);
    }
  }

  method ScoreNext(cat: Catalog, b: Board, ms: seq<Meeple>, turn: int, players: array<Player>, ghost p: seq<Player>,
                   ghost before: seq<Player>, g: FieldGraph, fields: seq<OccupiedField>, i: nat, es: seq<Event>,
                   record: bool)
    returns (more: seq<Event>, ghost after: seq<Player>)
    requires ValidCatalog(cat) && WellPlaced(cat, b) && g.Valid(cat, b, ms)
    requires Rooted(cat, b, fields, g.meeplesByRoot.Keys)
    requires before == players[..] && i < |fields| && FieldsScored(record, cat, b, ms, turn, p, before, fields, i, es)
    modifies players, g.dsu`parent
    ensures g.dsu.Valid() && after == players[..]
    ensures FieldsScored(record, cat, b, ms, turn, p, after, fields, i + 1, more)
  {
    var r := fields[i].root;
    NextRoot(cat, b, fields, g.meeplesByRoot.Keys, i);
    more := ScoreField(cat, b, ms, turn, players, g, r, Class(cat, b, r.Zone()), record);
    after := players[..];
    ScoredStep(record, cat, b, ms, turn, p, before, after, g.dsu.root, g.meeplesByRoot, fields, i, es, more);
    more := es + more;
  }

  /** The first n fields are paid, and their events are in order. */
  ghost predicate FieldsScored(record: bool, cat: Catalog, b: Board, ms: seq<Meeple>, turn: int, p: seq<Player>,
                               q: seq<Player>, fields: seq<OccupiedField>, n: nat, es: seq<Event>)
    requires n <= |fields|
  {
    FieldsPaid(record, cat, b, ms, p, q, RootsIn(fields, n), es) &&
    (record ==> FieldEvents(cat, b, ms, turn, FirstsOf(fields), n, es))
  }

  lemma ScoredStep(record: bool, cat: Catalog, b: Board, ms: seq<Meeple>, turn: int, p: seq<Player>, q: seq<Player>,
                   r: seq<Player>, root: map<FieldSegment, FieldSegment>, weights: map<FieldSegment, map<Id, nat>>,
                   fields: seq<OccupiedField>, i: nat, es: seq<Event>, more: seq<Event>)
    requires ValidCatalog(cat) && WellPlaced(cat, b) && FieldPartition(cat, b, root)
    requires MeeplesWeighed(cat, b, root, ms, weights)
    requires Rooted(cat, b, fields, weights.Keys) && i < |fields|
    requires FieldsScored(record, cat, b, ms, turn, p, q, fields, i, es)
    requires var k := Class(cat, b, fields[i].root.Zone());
             && r == AddScore(q, Winners(ms, k), FinalWorth(cat, b, Field, k)) && PassBook(record, ms, q, r, k, more)
             && more == if record then [FieldEvent(cat, b, ms, turn, k)] else []
    ensures FieldsScored(record, cat, b, ms, turn, p, r, fields, i + 1, es + more)
  {
    NextRoot(cat, b, fields, weights.Keys, i);
    FieldsStep(record, cat, b, ms, p, q, r, root, weights, RootsIn(fields, i), fields[i].root, es, more);
    if record { FieldEventsStep(cat, b, ms, turn, FirstsOf(fields), i, es, more); }
  }

  lemma NextRoot(cat: Catalog, b: Board, fields: seq<OccupiedField>, roots: set<FieldSegment>, i: nat)
    requires Rooted(cat, b, fields, roots) && i < |fields|
    ensures RootsIn(fields, i) <= roots && fields[i].root in roots && fields[i].root !in RootsIn(fields, i)
  {
    forall r | r in RootsIn(fields, i)
      ensures r in roots && r != fields[i].root
    {
      RootsInMember(fields, i, r);
    }
  }

  lemma FieldIsOccupied(cat: Catalog, b: Board, ms: seq<Meeple>, root: map<FieldSegment, FieldSegment>,
                        weights: map<FieldSegment, map<Id, nat>>, r: FieldSegment)
    requires MeeplesWeighed(cat, b, root, ms, weights) && r in weights
    ensures Occupied(ms, Class(cat, b, r.Zone()))
  {
    assert WeighedAt(cat, b, root, ms, weights, r);
    WeighsActors(ms, Class(cat, b, r.Zone()), weights[r]);
    var a :| a in weights[r];
    assert a in ActorsOn(ms, Class(cat, b, r.Zone()));
  }

  method ScoreField(cat: Catalog, b: Board, ms: seq<Meeple>, turn: int, players: array<Player>, g: FieldGraph,
                    r: FieldSegment, ghost field: set<ZoneRef>, record: bool)
    returns (es: seq<Event>)
    requires ValidCatalog(cat) && WellPlaced(cat, b) && g.Valid(cat, b, ms) && r in g.meeplesByRoot
    requires field == Class(cat, b, r.Zone())
    modifies players, g.dsu`parent
    ensures g.dsu.Valid()
    ensures players[..] == AddScore(old(players[..]), Winners(ms, field), FinalWorth(cat, b, Field, field))
    ensures PassBook(record, ms, old(players[..]), players[..], field, es)
    ensures es == if record then [FieldEvent(cat, b, ms, turn, field)] else []
  {
    FieldIsOccupied(cat, b, ms, g.dsu.root, g.meeplesByRoot, r);
    var winners, points, returned := FieldResult(cat, b, ms, g, r, field);
    ArrangedMeeplesLaws(b, Taken(ms, field));
    es := PayShare(ms, turn, players, Field, winners, points, [], returned, field, record);
  }

  method FieldWinners(cat: Catalog, b: Board, ms: seq<Meeple>, ghost root: map<FieldSegment, FieldSegment>,
                      weights: map<FieldSegment, map<Id, nat>>, r: FieldSegment)
    returns (winners: set<Id>)
    requires MeeplesWeighed(cat, b, root, ms, weights) && r in weights
    ensures r in root && root[r] == r
    ensures var field := Class(cat, b, r.Zone());
            winners == Winners(ms, field) && (winners == {} <==> !Occupied(ms, field))
  {
    assert WeighedAt(cat, b, root, ms, weights, r);
    winners := WinningActors(weights[r]);
    WinnersOfWeights(ms, Class(cat, b, r.Zone()), weights[r]);
  }

  /** The winners and the points of one field, and the meeples that stand in it. */
  method FieldResult(cat: Catalog, b: Board, ms: seq<Meeple>, g: FieldGraph, r: FieldSegment, ghost field: set<ZoneRef>)
    returns (winners: set<Id>, points: nat, returned: seq<Meeple>)
    requires ValidCatalog(cat) && WellPlaced(cat, b) && g.Valid(cat, b, ms) && r in g.meeplesByRoot
    requires field == Class(cat, b, r.Zone())
    modifies g.dsu`parent
    ensures g.dsu.Valid()
    ensures winners == Winners(ms, field) && (winners == {} <==> !Occupied(ms, field))
    ensures points == FieldPoints(cat, b, field) && returned == ArrangedMeeples(b, Taken(ms, field))
  {
    winners := FieldWinners(cat, b, ms, g.dsu.root, g.meeplesByRoot, r);
    points := FieldScore(cat, b, g.dsu.root, g.segmentByRef, g.segmentsByZone, g.segmentsByRoot, r);
    forall m | m in ms
      ensures RootTest(cat, b, g.dsu.root, g.segmentsByZone, m, r, field)
    {
      RootsTest(cat, b, g.dsu.root, g.segmentByRef, g.segmentsByZone, m, r);
    }
    returned := MeeplesForField(cat, b, ms, g.dsu, g.segmentByRef, g.segmentsByZone, r, field);
  }

  /** Scores the occupied fields in board order, whatever order the weights are listed in. */
  method ScoreFinalFields(cat: Catalog, b: Board, ms: seq<Meeple>, turn: int, players: array<Player>, record: bool)
    returns (es: seq<Event>, ghost firsts: seq<FieldSegment>)
    requires ValidCatalog(cat) && WellPlaced(cat, b)
    modifies players
    ensures players[..] == PayShares(cat, b, ms, Field, OccupiedClasses(cat, b, ms, Field), old(players[..]))
    ensures PassBook(record, ms, old(players[..]), players[..], UnionOf(OccupiedClasses(cat, b, ms, Field)), es)
    ensures FieldOrder(cat, b, ms, firsts) && (record ==> FieldEvents(cat, b, ms, turn, firsts, |firsts|, es))
  {
    var g := BuildFieldGraph(cat, b, ms);
    RootsAreRoots(g.dsu);
    RecordedIsOccupied(cat, b, ms, g.dsu.root, g.meeplesByRoot);
    var fields := SortFields(cat, b, ms, g.dsu.root, g.segmentsByRoot, g.meeplesByRoot);
    firsts := FirstsOf(fields);
    FiledIsRooted(cat, b, fields, g.meeplesByRoot.Keys);
    es := ScoreRoots(cat, b, ms, turn, players, g, fields, record);
  }

  /** The final field events are determined by the board and the meeples: no choice of roots, and no order in which maps
      are listed, can change one of them or their order. */
  lemma FieldEventsAreFixed(cat: Catalog, b: Board, ms: seq<Meeple>, turn: int, us: seq<FieldSegment>,
                            vs: seq<FieldSegment>, es: seq<Event>, fs: seq<Event>)
    requires ValidCatalog(cat) && WellPlaced(cat, b) && FieldOrder(cat, b, ms, us) && FieldOrder(cat, b, ms, vs)
    requires FieldEvents(cat, b, ms, turn, us, |us|, es) && FieldEvents(cat, b, ms, turn, vs, |vs|, fs)
    ensures es == fs
  {
    FieldOrderIsFixed(cat, b, ms, us, vs);
  }

  // ---------------------------------------------------------------- everything

  /** The lists that the final passes go through, and the events of each pass. */
  datatype Finale = Finale(
    features: seq<Feature>, starts: seq<ZoneRef>, firsts: seq<FieldSegment>,
    roads: seq<Event>, cities: seq<Event>, monks: seq<Event>, fields: seq<Event>)

  ghost predicate IsFinale(cat: Catalog, b: Board, ms: seq<Meeple>, turn: int, f: Finale) {
    var monks := ArrangedMeeples(b, Monks(cat, b, ms));
    && FinalList(cat, b, ms, |ms|, f.features, f.starts) && InPlace(b, f.features) && FieldOrder(cat, b, ms, f.firsts)
    && KindEvents(cat, b, ms, turn, Road, f.features, f.starts, |f.features|, f.roads)
    && KindEvents(cat, b, ms, turn, City, f.features, f.starts, |f.features|, f.cities)
    && MonkEvents(cat, b, turn, monks, |monks|, f.monks)
    && FieldEvents(cat, b, ms, turn, f.firsts, |f.firsts|, f.fields)
  }

  /** Roads, cities, monasteries and fields, in this order, and each kind in board order. */
  ghost predicate FinalEvents(cat: Catalog, b: Board, ms: seq<Meeple>, turn: int, es: seq<Event>) {
    exists f: Finale :: IsFinale(cat, b, ms, turn, f) && es == f.roads + f.cities + f.monks + f.fields
  }

  method PayEverything(cat: Catalog, b: Board, ms: seq<Meeple>, turn: int, players: array<Player>, record: bool)
    returns (es: seq<Event>)
    requires ValidCatalog(cat) && WellPlaced(cat, b) && OnePerTile(ms)
    modifies players
    ensures players[..] == FinalPlayers(cat, b, ms, old(players[..]))
    ensures PassBook(record, ms, old(players[..]), players[..], PaidZones(cat, b, ms), es)
    ensures record ==> FinalEvents(cat, b, ms, turn, es)
  {
    ghost var p0 := players[..];
    var fs, starts := FinalOccupiedRoadsAndCities(cat, b, ms);
    var roads := ScoreFinalKind(cat, b, ms, turn, players, Road, fs, starts, record);
    ghost var p1 := players[..];
    var cities := ScoreFinalKind(cat, b, ms, turn, players, City, fs, starts, record);
    ghost var p2 := players[..];
    var monks := ScoreFinalMonasteries(cat, b, ms, turn, players, record);
    ghost var p3 := players[..];
    var fields, firsts := ScoreFinalFields(cat, b, ms, turn, players, record);
    PassesCompose(record, cat, b, ms, p0, p1, p2, p3, players[..], roads, cities, monks, fields);
    es := roads + cities + monks + fields;
    if record {
      ghost var f := Finale(fs, starts, firsts, roads, cities, monks, fields);
      assert IsFinale(cat, b, ms, turn, f);
    }
  }

  lemma SameAwards(es: seq<Event>, ds: seq<Event>, more: seq<Event>, extra: seq<Event>)
    requires |es| == |ds| && forall i :: 0 <= i < |es| ==> SameAward(es[i], ds[i])
    requires |more| == |extra| && forall i :: 0 <= i < |more| ==> SameAward(more[i], extra[i])
    ensures |es + more| == |ds + extra|
    ensures forall i :: 0 <= i < |es + more| ==> SameAward((es + more)[i], (ds + extra)[i])
  {}

  /** The board and the meeples determine the events of final scoring, their order included: neither the order in which
      features are found, nor the roots the disjoint sets choose, nor the order in which a map is listed can change
      them. */
  lemma FinalEventsAreFixed(cat: Catalog, b: Board, ms: seq<Meeple>, turn: int, es: seq<Event>, ds: seq<Event>)
    requires ValidCatalog(cat) && WellPlaced(cat, b)
    requires FinalEvents(cat, b, ms, turn, es) && FinalEvents(cat, b, ms, turn, ds)
    ensures |es| == |ds| && forall i :: 0 <= i < |es| ==> SameAward(es[i], ds[i])
  {
    var f: Finale :| IsFinale(cat, b, ms, turn, f) && es == f.roads + f.cities + f.monks + f.fields;
    var g: Finale :| IsFinale(cat, b, ms, turn, g) && ds == g.roads + g.cities + g.monks + g.fields;
    KindEventsAreFixed(cat, b, ms, turn, Road, f.features, f.starts, g.features, g.starts, f.roads, g.roads);
    KindEventsAreFixed(cat, b, ms, turn, City, f.features, f.starts, g.features, g.starts, f.cities, g.cities);
    FieldEventsAreFixed(cat, b, ms, turn, f.firsts, g.firsts, f.fields, g.fields);
    SameAwards(f.roads, g.roads, f.cities, g.cities);
    SameAwards(f.roads + f.cities, g.roads + g.cities, f.monks, g.monks);
    SameAwards(f.roads + f.cities + f.monks, g.roads + g.cities + g.monks, f.fields, g.fields);
  }
}
