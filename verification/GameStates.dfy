/** The state of a match, what one scoring pass does to it, and the ledger of scoring events. */
module GameStates {
  import opened Tiles
  import opened Topology
  import opened Pieces
  import opened Placements
  import opened FeatureGraph
  import opened FeatureScores

  datatype Phase = PlaceTile | PlaceMeeple | ResolveTurn | Finished

  datatype State = State(
    phase: Phase, turn: int, current: Id, players: seq<Player>, board: Board, deck: seq<Instance>,
    currentTile: Option<Instance>, last: Option<PlacedTile>, meeples: seq<Meeple>)

  datatype ScoringPhase = TurnScoring | FinalScoring

  datatype Event = Event(
    turn: int, kind: Kind, phase: ScoringPhase, contributions: seq<Contribution>, total: int,
    awards: map<Id, int>, returned: seq<Meeple>)

  // ---------------------------------------------------------------- completed features

  /** Awards points to the winners and takes the meeples on the zones off the board. */
  ghost function Settle(s: State, zones: set<ZoneRef>, winners: set<Id>, points: int): State {
    s.(players := GiveBack(AddScore(s.players, winners, points), Taken(s.meeples, zones)),
        meeples := Remaining(s.meeples, zones))
  }

  /** A closed feature that still carries meeples is settled; any other is left alone. */
  ghost function ScoreFeature(cat: Catalog, s: State, kind: Kind, ref: ZoneRef): State {
    var zones := Class(cat, s.board, ref);
    if Closed(cat, s.board, ref) && Occupied(s.meeples, zones)
    then Settle(s, zones, Winners(s.meeples, zones), CompletedPoints(cat, s.board, kind, zones))
    else s
  }

  ghost function ScoreFeatures(cat: Catalog, s: State, kind: Kind, refs: seq<ZoneRef>): State {
    if refs == [] then s
    else ScoreFeature(cat, ScoreFeatures(cat, s, kind, refs[..|refs| - 1]), kind, refs[|refs| - 1])
  }

  /** The zones of one kind on one tile, in definition order. */
  function ZonesOfKind(zones: seq<ZoneDef>, instance: Id, kind: Kind): seq<ZoneRef> {
    if zones == [] then []
    else ZonesOfKind(zones[..|zones| - 1], instance, kind)
         + (if zones[|zones| - 1].kind == kind then [ZoneRef(instance, zones[|zones| - 1].id)] else [])
  }

  function LastZones(cat: Catalog, last: Option<PlacedTile>, kind: Kind): seq<ZoneRef> {
    match last
    case None => []
    case Some(t) => if t.tile in cat then ZonesOfKind(cat[t.tile].zones, t.instance, kind) else []
  }

  // ---------------------------------------------------------------- monasteries

  function Around(x: int, y: int): seq<(int, int)> {
    [(x - 1, y - 1), (x, y - 1), (x + 1, y - 1), (x - 1, y), (x + 1, y), (x - 1, y + 1), (x, y + 1), (x + 1, y + 1)]
  }

  function OccupiedCells(b: Board, cells: seq<(int, int)>): nat {
    if cells == [] then 0
    else OccupiedCells(b, cells[..|cells| - 1])
         + (var c := cells[|cells| - 1]; if TileAt(b, c.0, c.1).Some? then 1 else 0)
  }

  function AdjacentTileCount(b: Board, x: int, y: int): nat {
    OccupiedCells(b, Around(x, y))
  }

  /** The meeple stands on a monastery whose eight neighbours are all there. */
  predicate OnCompleteMonastery(cat: Catalog, b: Board, m: Meeple) {
    match GetPlacedZone(cat, b, m.Ref())
    case None => false
    case Some(pz) => pz.def.kind == Monastery && AdjacentTileCount(b, pz.tile.x, pz.tile.y) == 8
  }

  function CompleteMonks(cat: Catalog, b: Board, ms: seq<Meeple>): seq<Meeple> {
    if ms == [] then []
    else CompleteMonks(cat, b, ms[..|ms| - 1])
         + (if OnCompleteMonastery(cat, b, ms[|ms| - 1]) then [ms[|ms| - 1]] else [])
  }

  ghost function ScoreMonks(s: State, monks: seq<Meeple>): State {
    if monks == [] then s
    else
      var m := monks[|monks| - 1];
      Settle(ScoreMonks(s, monks[..|monks| - 1]), {m.Ref()}, {m.actor}, 9)
  }

  // ---------------------------------------------------------------- the ledger

  function AwardTo(e: Event, actor: Id): int {
    if actor in e.awards then e.awards[actor] else 0
  }

  function Awarded(es: seq<Event>, actor: Id): int {
    if es == [] then 0 else Awarded(es[..|es| - 1], actor) + AwardTo(es[|es| - 1], actor)
  }

  function Returned(es: seq<Event>): multiset<Meeple> {
    if es == [] then multiset{} else Returned(es[..|es| - 1]) + multiset(es[|es| - 1].returned)
  }

  /** The parts of an event add up: every winner gets the total, and for all but fields the contributions sum to it. */
  predicate Balanced(e: Event) {
    && (forall a :: a in e.awards ==> e.awards[a] == e.total)
    && (e.kind != Field ==> Total(e.contributions) == e.total)
  }

  /** Score changes are exactly the awards of the events. */
  ghost predicate ScoresAgree(p: seq<Player>, q: seq<Player>, es: seq<Event>) {
    && |q| == |p|
    && forall i :: 0 <= i < |p| ==> q[i].actor == p[i].actor && q[i].score == p[i].score + Awarded(es, p[i].actor)
  }

  /** The events account for every score change and every meeple that left the board. */
  ghost predicate Ledger(s: State, t: State, es: seq<Event>) {
    && ScoresAgree(s.players, t.players, es)
    && multiset(s.meeples) == multiset(t.meeples) + Returned(es)
    && (forall e :: e in es ==> Balanced(e))
  }

  /** Events of the turn about completed features of one kind; each pays somebody. */
  ghost predicate Stamped(es: seq<Event>, turn: int, kind: Kind) {
    forall e :: e in es ==>
        e.turn == turn && e.kind == kind && e.phase == TurnScoring && e.awards != map[] && e.total > 0
  }

  lemma {:induction false} AwardedConcat(es: seq<Event>, fs: seq<Event>, actor: Id)
    ensures Awarded(es + fs, actor) == Awarded(es, actor) + Awarded(fs, actor)
  {
    if fs == [] {
      assert es + fs == es;
    } else {
      assert (es + fs)[..|es + fs| - 1] == es + fs[..|fs| - 1];
      AwardedConcat(es, fs[..|fs| - 1], actor);
    }
  }

  lemma {:induction false} ReturnedConcat(es: seq<Event>, fs: seq<Event>)
    ensures Returned(es + fs) == Returned(es) + Returned(fs)
  {
    if fs == [] {
      assert es + fs == es;
    } else {
      assert (es + fs)[..|es + fs| - 1] == es + fs[..|fs| - 1];
      ReturnedConcat(es, fs[..|fs| - 1]);
    }
  }

  lemma ScoresCompose(p: seq<Player>, q: seq<Player>, r: seq<Player>, es: seq<Event>, fs: seq<Event>)
    requires ScoresAgree(p, q, es) && ScoresAgree(q, r, fs)
    ensures ScoresAgree(p, r, es + fs)
  {
    forall i | 0 <= i < |p|
      ensures r[i].score == p[i].score + Awarded(es + fs, p[i].actor)
    {
      AwardedConcat(es, fs, p[i].actor);
    }
  }

  lemma LedgerComposes(s: State, t: State, u: State, es: seq<Event>, fs: seq<Event>)
    requires Ledger(s, t, es) && Ledger(t, u, fs)
    ensures Ledger(s, u, es + fs)
  {
    ScoresCompose(s.players, t.players, u.players, es, fs);
    ReturnedConcat(es, fs);
  }

  /** An event that awards the points to the winners and lists the meeples on the zones. */
  ghost predicate Records(e: Event, s: State, zones: set<ZoneRef>, winners: set<Id>, points: int) {
    && Balanced(e) && e.total == points && e.awards.Keys == winners && e.returned == Taken(s.meeples, zones)
  }

  lemma OneAward(e: Event, actor: Id)
    ensures Awarded([e], actor) == AwardTo(e, actor) && Returned([e]) == multiset(e.returned)
  {
    assert [e][..0] == [];
  }

  lemma SettleScores(s: State, zones: set<ZoneRef>, winners: set<Id>, points: int, e: Event)
    requires Records(e, s, zones, winners, points)
    ensures ScoresAgree(s.players, Settle(s, zones, winners, points).players, [e])
  {
    var scored := AddScore(s.players, winners, points);
    var paid := GiveBack(scored, Taken(s.meeples, zones));
    forall i | 0 <= i < |s.players|
      ensures paid[i].actor == s.players[i].actor
      ensures paid[i].score == s.players[i].score + Awarded([e], s.players[i].actor)
    {
      GiveBackKeepsActors(scored, Taken(s.meeples, zones), i);
      OneAward(e, s.players[i].actor);
    }
  }

  lemma SettleLedger(s: State, zones: set<ZoneRef>, winners: set<Id>, points: int, e: Event)
    requires Records(e, s, zones, winners, points)
    ensures Ledger(s, Settle(s, zones, winners, points), [e])
  {
    SettleScores(s, zones, winners, points, e);
    Splits(s.meeples, zones);
    OneAward(e, "");
  }

  lemma NothingHappened(s: State)
    ensures Ledger(s, s, [])
  {
    assert forall i :: 0 <= i < |s.players| ==> Awarded([], s.players[i].actor) == 0;
  }

  /** Recorded events account for everything; silent scoring emits none. */
  ghost predicate Bookkept(record: bool, s: State, t: State, es: seq<Event>) {
    if record then Ledger(s, t, es) else es == []
  }

  lemma BookkeptNothing(record: bool, s: State)
    ensures Bookkept(record, s, s, [])
  {
    NothingHappened(s);
  }

  lemma BookkeptComposes(record: bool, s: State, t: State, u: State, es: seq<Event>, fs: seq<Event>)
    requires Bookkept(record, s, t, es) && Bookkept(record, t, u, fs)
    ensures Bookkept(record, s, u, es + fs)
  {
    if record { LedgerComposes(s, t, u, es, fs); }
  }

  function Awards(winners: set<Id>, points: int): map<Id, int> {
    map a | a in winners :: points
  }

  /** An event awards the same points to every winner. */
  method NewEvent(turn: int, kind: Kind, phase: ScoringPhase, winners: set<Id>, total: int,
                  contributions: seq<Contribution>, returned: seq<Meeple>)
    returns (e: Event)
    requires kind != Field ==> Total(contributions) == total
    ensures Balanced(e) && e.total == total && e.awards.Keys == winners && e.returned == returned
    ensures e == Event(turn, kind, phase, contributions, total, Awards(winners, total), returned)
  {
    e := Event(turn, kind, phase, contributions, total, Awards(winners, total), returned);
  }

  method MeeplesForFeature(ms: seq<Meeple>, zones: seq<ZoneRef>, ghost members: set<ZoneRef>) returns (r: seq<Meeple>)
    requires Lists(zones, members)
    ensures r == Taken(ms, members)
  {
    r := [];
    for i := 0 to |ms|
      invariant r == Taken(ms[..i], members)
    {
      assert ms[..i + 1][..i] == ms[..i];
      if ms[i].Ref() in zones {
        r := r + [ms[i]];
      }
    }
    assert ms[..|ms|] == ms;
  }

  // ---------------------------------------------------------------- one meeple per tile

  ghost predicate OnePerTile(ms: seq<Meeple>) {
    forall i, j :: 0 <= i < j < |ms| ==> ms[i].tile != ms[j].tile
  }

  lemma {:induction false} RemainingOnePerTile(ms: seq<Meeple>, zones: set<ZoneRef>)
    requires OnePerTile(ms)
    ensures OnePerTile(Remaining(ms, zones))
  {
    if ms != [] {
      var init, m := ms[..|ms| - 1], ms[|ms| - 1];
      RemainingOnePerTile(init, zones);
      Splits(init, zones);
      forall i | 0 <= i < |Remaining(init, zones)|
        ensures Remaining(init, zones)[i].tile != m.tile
      {
        assert Remaining(init, zones)[i] in init;
      }
    }
  }

  lemma LastIsAlone(ms: seq<Meeple>, init: seq<Meeple>, k: Meeple)
    requires OnePerTile(ms) && ms == init + [k]
    ensures OnePerTile(init) && forall j :: j in init ==> j.Ref() != k.Ref()
  {
    assert forall i :: 0 <= i < |init| ==> ms[i] == init[i];
    forall j | j in init
      ensures j.Ref() != k.Ref()
    {
      var i :| 0 <= i < |init| && init[i] == j;
      assert ms[i] == j && ms[|init|] == k;
    }
  }

  lemma {:induction false} TakenSingle(ms: seq<Meeple>, m: Meeple)
    requires OnePerTile(ms) && m in ms
    ensures Taken(ms, {m.Ref()}) == [m]
  {
    var init, k := ms[..|ms| - 1], ms[|ms| - 1];
    LastIsAlone(ms, init, k);
    if m in init {
      TakenSingle(init, m);
      assert k.Ref() !in {m.Ref()};
    } else {
      assert k == m;
      NothingTaken(init, {m.Ref()});
    }
  }

  // ---------------------------------------------------------------- the monastery scan

  method CollectCompleteMonks(cat: Catalog, b: Board, ms: seq<Meeple>) returns (monks: seq<Meeple>)
    ensures monks == CompleteMonks(cat, b, ms)
  {
    monks := [];
    for i := 0 to |ms|
      invariant monks == CompleteMonks(cat, b, ms[..i])
    {
      assert ms[..i + 1][..i] == ms[..i];
      if OnCompleteMonastery(cat, b, ms[i]) {
        monks := monks + [ms[i]];
      }
    }
    assert ms[..|ms|] == ms;
  }

  lemma {:induction false} CompleteMonksMember(cat: Catalog, b: Board, ms: seq<Meeple>, m: Meeple)
    ensures m in CompleteMonks(cat, b, ms) <==> m in ms && OnCompleteMonastery(cat, b, m)
  {
    if ms != [] {
      CompleteMonksMember(cat, b, ms[..|ms| - 1], m);
      assert ms == ms[..|ms| - 1] + [ms[|ms| - 1]];
    }
  }

  lemma {:induction false} CompleteMonksOnePerTile(cat: Catalog, b: Board, ms: seq<Meeple>)
    requires OnePerTile(ms)
    ensures OnePerTile(CompleteMonks(cat, b, ms))
  {
    if ms != [] {
      var init, m := ms[..|ms| - 1], ms[|ms| - 1];
      CompleteMonksOnePerTile(cat, b, init);
      forall i | 0 <= i < |CompleteMonks(cat, b, init)|
        ensures CompleteMonks(cat, b, init)[i].tile != m.tile
      {
        CompleteMonksMember(cat, b, init, CompleteMonks(cat, b, init)[i]);
      }
    }
  }

  /** After the first i monks went home, the others still stand where they stood. */
  ghost predicate MonkScan(s: State, t: State, monks: seq<Meeple>, i: nat)
    requires i <= |monks|
  {
    && t == ScoreMonks(s, monks[..i]) && OnePerTile(t.meeples) && OnePerTile(monks)
    && forall k :: i <= k < |monks| ==> monks[k] in t.meeples
  }

  lemma MonkScanStarts(cat: Catalog, s: State)
    requires OnePerTile(s.meeples)
    ensures MonkScan(s, s, CompleteMonks(cat, s.board, s.meeples), 0)
  {
    var monks := CompleteMonks(cat, s.board, s.meeples);
    CompleteMonksOnePerTile(cat, s.board, s.meeples);
    forall k | 0 <= k < |monks|
      ensures monks[k] in s.meeples
    {
      CompleteMonksMember(cat, s.board, s.meeples, monks[k]);
    }
  }

  lemma MonkScanStep(s: State, t: State, monks: seq<Meeple>, i: nat)
    requires i < |monks| && MonkScan(s, t, monks, i)
    ensures MonkScan(s, Settle(t, {monks[i].Ref()}, {monks[i].actor}, 9), monks, i + 1)
    ensures Taken(t.meeples, {monks[i].Ref()}) == [monks[i]]
  {
    assert monks[..i + 1][..i] == monks[..i];
    TakenSingle(t.meeples, monks[i]);
    RemainingOnePerTile(t.meeples, {monks[i].Ref()});
    Splits(t.meeples, {monks[i].Ref()});
    forall k | i < k < |monks|
      ensures monks[k] in Remaining(t.meeples, {monks[i].Ref()})
    {
      assert monks[k].tile != monks[i].tile;
    }
  }
}
