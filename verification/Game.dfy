/** A running match: the engine's methods, which change the state in place, against the rules. */
module Games {
  import opened Tiles
  import opened Topology
  import opened Pieces
  import opened Hands
  import opened FeatureGraph
  import opened FeatureScores
  import opened Placements
  import opened MeeplePlacements
  import opened GameStates
  import opened TurnScoring
  import opened FinalScores
  import opened FinalFeatures
  import opened FinalPayments
  import opened Rules
  import opened Invariants
  import opened Runs
  import opened Sorting

  class Game {
    const cat: Catalog
    const room: Id
    const players: array<Player>
    var phase: Phase
    var turn: int
    var current: Id
    var board: Board
    var deck: seq<Instance>
    var currentTile: Option<Instance>
    var last: Option<PlacedTile>
    var slots: array<Meeple>
    var used: nat

    ghost predicate Valid()
      reads this
    {
      used <= slots.Length && ValidCatalog(cat) && WellPlaced(cat, board) && (last.Some? ==> last.value in board)
    }

    function Meeples(): seq<Meeple>
      requires used <= slots.Length
      reads this, slots
    {
      slots[..used]
    }

    function View(): State
      requires used <= slots.Length
      reads this, players, slots
    {
      State(phase, turn, current, players[..], board, deck, currentTile, last, Meeples())
    }

    // -------------------------------------------------------------- completed roads and cities

    /** Pays the winners and takes the meeples of the feature off the board. */
    method SettleFeature(zones: seq<ZoneRef>, ghost members: set<ZoneRef>, winners: set<Id>, points: int)
      requires Valid() && Lists(zones, members)
      modifies `used, players, slots
      ensures Valid() && View() == Settle(old(View()), members, winners, points)
    {
      ApplyScore(players, winners, points);
      used := ReturnMeeplesForFeature(slots, used, players, zones, members);
    }

    /** The event of a completed road or city; its self-check always succeeds. */
    method CompletedEvent(kind: Kind, f: Feature, ghost members: set<ZoneRef>, winners: set<Id>, points: nat)
      returns (e: Event)
      requires Valid() && kind in {Road, City} && NoTwice(f.zones) && Lists(f.zones, members)
      requires points == CompletedPoints(cat, board, kind, members)
      ensures Records(e, View(), members, winners, points) && e.turn == turn && e.kind == kind && e.phase == TurnScoring
      ensures var rate := if kind == Road then if HasInn(cat, board, members) then 2 else 1
                          else if HasCathedral(cat, board, members) then 3 else 2;
              forall c :: c in e.contributions ==> c.points == rate * TileUnits(cat, board, kind, members, c.tile)
    {
      var contributions := CompletedContributions(cat, board, kind, f.zones, members);
      assert Total(contributions) == points;
      var returned := MeeplesForFeature(Meeples(), f.zones, members);
      e := NewEvent(turn, kind, TurnScoring, winners, points, contributions, returned);
    }

    method CompletedEvents(kind: Kind, f: Feature, ghost members: set<ZoneRef>, winners: set<Id>, points: nat)
      returns (es: seq<Event>)
      requires Valid() && kind in {Road, City} && NoTwice(f.zones) && Lists(f.zones, members)
      requires points == CompletedPoints(cat, board, kind, members) && winners != {} && 0 < points
      ensures Ledger(View(), Settle(View(), members, winners, points), es) && Stamped(es, turn, kind)
    {
      var e := CompletedEvent(kind, f, members, winners, points);
      SettleLedger(View(), members, winners, points, e);
      assert e.awards.Keys != {};
      es := [e];
    }

    method ScoreClosedFeature(kind: Kind, f: Feature, ghost start: ZoneRef, record: bool) returns (es: seq<Event>)
      requires Valid() && kind in {Road, City} && IsFeature(cat, board, Meeples(), start, f) && f.openEdges == 0
      modifies `used, players, slots
      ensures Valid() && View() == ScoreFeature(cat, old(View()), kind, start)
      ensures Bookkept(record, old(View()), View(), es) && Stamped(es, turn, kind)
    {
      es := [];
      ghost var s := View();
      ghost var members := Class(cat, board, start);
      NoOpenEdgesIsClosed(cat, board, Meeples(), start, f);
      var winners := WinningActors(f.meeplesByActor);
      WinnersOfWeights(Meeples(), members, f.meeplesByActor);
      var points := CompletedScore(cat, board, kind, f.zones, members);
      OccupiedIsWorth(cat, board, Meeples(), kind, members);
      BookkeptNothing(record, s);
      if winners != {} && 0 < points {
        if record {
          es := CompletedEvents(kind, f, members, winners, points);
        }
        SettleFeature(f.zones, members, winners, points);
      }
    }

    /** Scores the features of one kind that pass through the last placed tile, each once. */
    method ScoreCompletedFeatures(kind: Kind, record: bool) returns (es: seq<Event>)
      requires Valid() && kind in {Road, City}
      modifies `used, players, slots
      ensures Valid() && View() == ScoreFeatures(cat, old(View()), kind, LastZones(cat, last, kind))
      ensures Bookkept(record, old(View()), View(), es) && Stamped(es, turn, kind)
    {
      es := [];
      var starts := LastZones(cat, last, kind);
      var visited: set<ZoneRef> := {};
      ghost var s := View();
      BookkeptNothing(record, s);
      for i := 0 to |starts|
        invariant Valid() && Scoring(record, cat, s, View(), kind, starts, i, visited, es)
        invariant Stamped(es, turn, kind)
      {
        ghost var before := View();
        if starts[i] in visited {
          ScoringSkips(record, cat, s, before, kind, starts, i, visited, es);
        } else {
          StartOnBoard(cat, board, last, kind, i);
          var more, zones := ScoreThrough(kind, starts[i], record);
          ScoringSteps(record, cat, s, before, View(), kind, starts, i, visited, es, zones, more);
          visited, es := visited + zones, es + more;
        }
      }
      assert starts[..|starts|] == starts;
    }

    /** Scores the feature through one zone if it is closed, and returns the zones of the feature. */
    method ScoreThrough(kind: Kind, start: ZoneRef, record: bool) returns (es: seq<Event>, zones: set<ZoneRef>)
      requires Valid() && kind in {Road, City} && start in Zones(cat, board)
      modifies `used, players, slots
      ensures Valid() && View() == ScoreFeature(cat, old(View()), kind, start)
      ensures zones == Class(cat, board, start)
      ensures Bookkept(record, old(View()), View(), es) && Stamped(es, turn, kind)
    {
      es := [];
      var found := BuildFeature(cat, board, Meeples(), start);
      var f := found.value;
      zones := ZoneSet(f.zones, Class(cat, board, start));
      if f.openEdges == 0 {
        es := ScoreClosedFeature(kind, f, start, record);
      } else {
        NoOpenEdgesIsClosed(cat, board, Meeples(), start, f);
        BookkeptNothing(record, View());
      }
    }

    // -------------------------------------------------------------- completed monasteries

    method ScoreCompletedMonasteries(record: bool) returns (es: seq<Event>)
      requires Valid() && OnePerTile(Meeples())
      modifies `used, players, slots
      ensures Valid() && View() == ScoreMonks(old(View()), CompleteMonks(cat, board, old(Meeples())))
      ensures Bookkept(record, old(View()), View(), es) && Stamped(es, turn, Monastery)
    {
      es := [];
      ghost var s := View();
      var monks := CollectCompleteMonks(cat, board, Meeples());
      MonkScanStarts(cat, s);
      BookkeptNothing(record, s);
      for i := 0 to |monks|
        invariant Valid() && MonkScan(s, View(), monks, i)
        invariant Bookkept(record, s, View(), es) && Stamped(es, turn, Monastery)
      {
        ghost var before := View();
        MonkScanStep(s, before, monks, i);
        var more := SendMonkHome(monks[i], record);
        BookkeptComposes(record, s, before, View(), es, more);
        es := es + more;
      }
      assert monks[..|monks|] == monks;
    }

    method SendMonkHome(m: Meeple, record: bool) returns (es: seq<Event>)
      requires Valid() && OnePerTile(Meeples()) && m in Meeples() && Taken(Meeples(), {m.Ref()}) == [m]
      modifies `used, players, slots
      ensures Valid() && View() == Settle(old(View()), {m.Ref()}, {m.actor}, 9)
      ensures Bookkept(record, old(View()), View(), es) && Stamped(es, turn, Monastery)
    {
      es := [];
      ghost var s := View();
      if record {
        es := RecordMonk(s, turn, m);
      }
      TakeMonk(m);
    }

    method TakeMonk(m: Meeple)
      requires Valid() && OnePerTile(Meeples()) && m in Meeples()
      modifies `used, players, slots
      ensures Valid() && View() == Settle(old(View()), {m.Ref()}, {m.actor}, 9)
    {
      OnlyOwner(Meeples(), m);
      OwnIsTaken(Meeples(), m.Ref(), m.actor);
      ApplyScore(players, {m.actor}, 9);
      used := ReturnMeeple(slots, used, players, m.Ref(), m.actor);
    }

    // -------------------------------------------------------------- final scoring

    /** Pays every occupied feature once and sends all meeples home. */
    method ScoreFinalFeatures(record: bool) returns (es: seq<Event>)
      requires Valid() && MeeplesStand()
      modifies `used, players
      ensures Valid() && View() == ScoreFinal(cat, old(View()))
      ensures Bookkept(record, old(View()), View(), es)
      ensures record ==> FinalEvents(cat, board, old(Meeples()), turn, es)
    {
      ghost var ms := Meeples();
      es := PayAll(record);
      assert Meeples() == ms;
      ReturnAllMeeples(slots, used, players);
      used := 0;
    }

    method PayAll(record: bool) returns (es: seq<Event>)
      requires Valid() && MeeplesStand()
      modifies players
      ensures players[..] == FinalPlayers(cat, board, Meeples(), old(players[..]))
      ensures var paid := old(View()).(players := GiveBack(players[..], Meeples()), meeples := []);
              Bookkept(record, old(View()), paid, es)
      ensures record ==> FinalEvents(cat, board, Meeples(), turn, es)
    {
      ghost var s := View();
      es := PayEverything(cat, board, Meeples(), turn, players, record);
      FinalLedger(record, cat, s, players[..], es);
    }

    // -------------------------------------------------------------- the end of a turn

    /** What the scoring and the end of a turn need of the meeples. */
    ghost predicate MeeplesStand()
      requires used <= slots.Length
      reads this, slots
    {
      OnePerTile(Meeples()) && forall m :: m in Meeples() ==> OnScoringZone(cat, board, m)
    }

    method CompleteTurnAndDrawNextTile(record: bool) returns (es: seq<Event>)
      requires Valid() && MeeplesStand()
      modifies this, players
      ensures Valid() && slots == old(slots) && View() == FinishTurn(cat, old(View()))
      ensures Bookkept(record, old(View()), View(), es)
      ensures if phase == Finished then (record ==> FinalEvents(cat, board, old(Meeples()), old(turn), es))
                else es == []
    {
      ghost var s := View();
      DrawTile();
      ghost var drawn := View();
      es := EndTheTurn(record);
      BookkeptMoved(record, drawn, View(), s, View(), es);
    }

    method DrawTile()
      requires Valid()
      modifies `deck, `currentTile, `last
      ensures Valid() && View() == AfterDraw(cat, old(View()))
    {
      var next, rest := DrawNextPlaceableTile(cat, deck, board);
      DrawIs(cat, deck, board, next, rest);
      deck, currentTile, last := rest, next, None;
    }

    method EndTheTurn(record: bool) returns (es: seq<Event>)
      requires Valid() && MeeplesStand()
      modifies `used, `phase, `current, `turn, players
      ensures Valid() && View() == EndTurn(cat, old(View()))
      ensures Bookkept(record, old(View()), View(), es)
      ensures if phase == Finished then (record ==> FinalEvents(cat, board, old(Meeples()), old(turn), es))
                else es == []
    {
      ghost var s := View();
      if currentTile.None? {
        es := FinishMatch(record);
      } else {
        es := [];
        NextTurn();
        BookkeptNothing(record, s);
        BookkeptMoved(record, s, s, s, View(), es);
      }
    }

    method NextTurn()
      modifies `current, `turn, `phase
      ensures current == NextPlayer(players[..], old(current)) && turn == old(turn) + 1 && phase == Phase.PlaceTile
    {
      current := FollowingPlayer();
      turn := turn + 1;
      phase := Phase.PlaceTile;
    }

    method FinishMatch(record: bool) returns (es: seq<Event>)
      requires Valid() && MeeplesStand()
      modifies `used, `phase, `current, players
      ensures Valid() && View() == ScoreFinal(cat, old(View())).(phase := Finished, current := "")
      ensures Bookkept(record, old(View()), View(), es)
      ensures record ==> FinalEvents(cat, board, old(Meeples()), turn, es)
    {
      ghost var s := View();
      es := ScoreFinalFeatures(record);
      ghost var t := View();
      phase, current := Finished, "";
      BookkeptMoved(record, s, t, s, View(), es);
    }

    /** The player in the next seat, the first one again after the last; an unknown player is followed by the first. */
    method FollowingPlayer() returns (next: Id)
      ensures forall i {:trigger players[i]} ::
                0 <= i < players.Length && DistinctActors(players[..]) && players[i].actor == current ==>
                next == players[SeatAfter(i, players.Length)].actor
      ensures players.Length > 0 ==>
                IsPlayer(players[..], next) && (!IsPlayer(players[..], current) ==> next == players[0].actor)
      ensures players.Length == 0 ==> next == current
      ensures next == NextPlayer(players[..], current)
    {
      if players.Length == 0 {
        return current;
      }
      NextSeatFollows(players[..], current);
      assert forall i :: 0 <= i < players.Length ==> players[..][i] == players[i];
      var i := IndexOf(players[..], current);
      if i == players.Length {
        next := players[0].actor;
      } else {
        SeatAfterIsRemainder(i, players.Length);
        next := players[(i + 1) % players.Length].actor;
      }
    }

    /** Scores the turn in the fixed order roads, cities, monasteries. */
    method ScoreCompleted(record: bool) returns (es: seq<Event>)
      requires Valid() && OnePerTile(Meeples())
      modifies `used, players, slots
      ensures Valid() && View() == ScoreTurn(cat, old(View()))
      ensures Bookkept(record, old(View()), View(), es) && InTurnOrder(es, turn)
    {
      ghost var s := View();
      var roads := ScoreCompletedFeatures(Road, record);
      ghost var s1 := View();
      ScoreFeaturesKeep(cat, s, Road, LastZones(cat, last, Road));
      var cities := ScoreCompletedFeatures(City, record);
      ghost var s2 := View();
      ScoreFeaturesKeep(cat, s1, City, LastZones(cat, last, City));
      var monks := ScoreCompletedMonasteries(record);
      BookkeptComposes(record, s, s1, s2, roads, cities);
      BookkeptComposes(record, s, s2, View(), roads + cities, monks);
      es := roads + cities + monks;
    }

    method ScoreThisTurn(record: bool) returns (es: seq<Event>)
      requires Valid() && MeeplesStand()
      modifies `used, `phase, players, slots
      ensures Valid() && MeeplesStand() && View() == ScoreTurn(cat, old(View()).(phase := Phase.ResolveTurn))
      ensures Bookkept(record, old(View()).(phase := Phase.ResolveTurn), View(), es) && InTurnOrder(es, turn)
    {
      phase := Phase.ResolveTurn;
      ScoreTurnKeeps(cat, View());
      es := ScoreCompleted(record);
    }

    method ResolveTurn(record: bool) returns (es: seq<Event>)
      requires Valid() && MeeplesStand()
      modifies this, players, slots
      ensures Valid() && slots == old(slots) && View() == Resolve(cat, old(View()))
      ensures Bookkept(record, old(View()), View(), es) && (record ==> TurnLog(cat, old(View()), View(), es))
    {
      ghost var s := View();
      var scored := ScoreThisTurn(record);
      ghost var t := View();
      var finished := CompleteTurnAndDrawNextTile(record);
      TurnBooks(record, cat, s, s.(phase := Phase.ResolveTurn), t, View(), scored, finished);
      es := scored + finished;
    }

    // -------------------------------------------------------------- actions

    /** The state is one a match can reach. */
    ghost predicate Reached(members: seq<Id>)
      reads this, players, slots
    {
      used <= slots.Length && Inv(cat, members, View())
    }

    /** Appends to the list of meeples, moving it to a larger buffer when it is full. */
    method AppendMeeple(m: Meeple)
      requires used <= slots.Length
      modifies `slots, `used, slots
      ensures used <= slots.Length && Meeples() == old(Meeples()) + [m]
      ensures slots == old(slots) || fresh(slots)
    {
      if used == slots.Length {
        var from := slots;
        slots := new Meeple[2 * from.Length + 1](i requires 0 <= i reads from =>
          if i < from.Length then from[i] else m);
      }
      slots[used] := m;
      used := used + 1;
    }

    method PlaceTile(ghost members: seq<Id>, actor: Id, a: Action) returns (err: Option<Error>)
      requires Reached(members) && a.PlaceTileAction?
      modifies `board, `last, `currentTile, `phase
      ensures used <= slots.Length
      ensures if TileAccepted(cat, room, old(View()), a)
              then err == None && View() == WithTile(old(View()), NewTile(old(View()), actor, a.x, a.y, a.rotation))
              else err == Some(InvalidMatchAction) && View() == old(View())
    {
      if phase != Phase.PlaceTile || currentTile.None? {
        return Some(InvalidMatchAction);
      }
      if !RoomFits(a.room, room) || !IsValidRotation(a.rotation) {
        return Some(InvalidMatchAction);
      }
      if !CanPlaceTile(cat, currentTile.value.tile, a.x, a.y, a.rotation, board) {
        return Some(InvalidMatchAction);
      }
      PutTile(actor, a.x, a.y, a.rotation);
      err := None;
    }

    method PutTile(actor: Id, x: int, y: int, rotation: int)
      requires used <= slots.Length && currentTile.Some?
      modifies `board, `last, `currentTile, `phase
      ensures used <= slots.Length && View() == WithTile(old(View()), NewTile(old(View()), actor, x, y, rotation))
    {
      var t := PlacedTile(currentTile.value.id, currentTile.value.tile, x, y, NormalizeRotation(rotation), actor, turn);
      board := board + [t];
      last := Some(t);
      currentTile := None;
      phase := Phase.PlaceMeeple;
    }

    /** The meeple an action asks for, if it may be placed. */
    method CheckMeeple(ghost members: seq<Id>, actor: Id, a: Action) returns (r: Option<Meeple>)
      requires Reached(members) && a.PlaceMeepleAction?
      ensures r.Some? <==> MeepleAccepted(cat, room, View(), actor, a)
      ensures r.Some? ==> IsNewMeeple(cat, room, View(), actor, a, r.value)
    {
      if phase != Phase.PlaceMeeple || last.None? || !RoomFits(a.room, room) {
        return None;
      }
      if a.tile != "" && a.tile != last.value.instance {
        return None;
      }
      var kind := NormalizeMeepleType(a.kind);
      ReachedIsValid(cat, members, View());
      var allowed := CanPlaceMeeple(cat, board, Meeples(), players[..], last, actor, a.zone, kind);
      if !allowed {
        return None;
      }
      var z := ZoneOfTile(cat, last.value, a.zone).value;
      var segment := PlacementSegment(z, last.value.rotation);
      if a.segment.Some? && a.segment != segment {
        return None;
      }
      AcceptedZone(cat, room, View(), actor, a);
      r := Some(Meeple(last.value.instance, a.zone, actor, kind, z.kind, segment.value));
    }

    method PlaceMeeple(ghost members: seq<Id>, actor: Id, a: Action) returns (err: Option<Error>, es: seq<Event>)
      requires Reached(members) && a.PlaceMeepleAction?
      modifies this, players, slots
      ensures slots == old(slots) || fresh(slots)
      ensures used <= slots.Length
      ensures if MeepleAccepted(cat, room, old(View()), actor, a)
              then err == None && PlacedMeeple(cat, room, old(View()), actor, a, View(), es)
              else err == Some(InvalidMatchAction) && View() == old(View())
    {
      var m := CheckMeeple(members, actor, a);
      if m.None? {
        return Some(InvalidMatchAction), [];
      }
      PlacingMeepleKeeps(cat, room, members, View(), actor, a);
      es := PutMeeple(members, m.value);
      err := None;
    }

    /** Puts a meeple down and resolves the turn. */
    method PutMeeple(ghost members: seq<Id>, m: Meeple) returns (es: seq<Event>)
      requires used <= slots.Length && Resolvable(cat, members, WithMeeple(View(), m))
      modifies this, players, slots
      ensures slots == old(slots) || fresh(slots)
      ensures used <= slots.Length && View() == Resolve(cat, WithMeeple(old(View()), m))
      ensures Ledger(WithMeeple(old(View()), m), View(), es)
      ensures TurnLog(cat, WithMeeple(old(View()), m), View(), es)
    {
      ghost var s := View();
      AppendMeeple(m);
      ChangeMeeples(players, m.actor, m.kind, -1);
      assert View() == WithMeeple(s, m);
      ResolvableIsValid(cat, members, View());
      es := ResolveTurn(true);
    }

    method SkipMeeple(ghost members: seq<Id>, a: Action) returns (err: Option<Error>, es: seq<Event>)
      requires Reached(members) && a.SkipMeepleAction?
      modifies this, players, slots
      ensures slots == old(slots) && used <= slots.Length
      ensures if SkipAccepted(room, old(View()), a)
              then err == None && View() == Resolve(cat, old(View())) && Ledger(old(View()), View(), es) &&
                   TurnLog(cat, old(View()), View(), es)
              else err == Some(InvalidMatchAction) && View() == old(View())
    {
      if phase != Phase.PlaceMeeple || last.None? || !RoomFits(a.room, room) {
        return Some(InvalidMatchAction), [];
      }
      ResolvableIsValid(cat, members, View());
      es := ResolveTurn(true);
      err := None;
    }

    /** Applies one action of one player: the state follows the rules, and the events account for the scoring. */
    method ApplyAction(members: seq<Id>, actor: Id, a: Action) returns (err: Option<Error>, es: seq<Event>)
      requires Reached(members)
      modifies this, players, slots
      ensures slots == old(slots) || fresh(slots)
      ensures Reached(members)
      ensures Follows(cat, room, members, old(View()), actor, a, View(), err, es)
    {
      es := [];
      ghost var s := View();
      if phase != Phase.PlaceTile && phase != Phase.PlaceMeeple {
        return Some(InvalidMatchAction), [];
      }
      if current != actor {
        return Some(NotYourTurn), [];
      }
      if actor !in members {
        return Some(InvalidMatchAction), [];
      }
      err, es := Dispatch(members, actor, a);
      Dispatched(cat, room, members, s, actor, a, View(), err, es);
    }

    method Dispatch(ghost members: seq<Id>, actor: Id, a: Action) returns (err: Option<Error>, es: seq<Event>)
      requires Reached(members)
      modifies this, players, slots
      ensures slots == old(slots) || fresh(slots)
      ensures used <= slots.Length
      ensures ActionDone(cat, room, old(View()), actor, a, View(), err, es)
    {
      es := [];
      match a {
        case PlaceTileAction(_, _, _, _) => err := PlaceTile(members, actor, a);
        case PlaceMeepleAction(_, _, _, _, _) => err, es := PlaceMeeple(members, actor, a);
        case SkipMeepleAction(_) => err, es := SkipMeeple(members, a);
        case UnknownAction => err := Some(InvalidMatchAction);
      }
    }

    /** Plays for the current player: a random legal placement without a meeple, or no meeple. */
    method ApplyTurnTimeout(members: seq<Id>) returns (err: Option<Error>, es: seq<Event>)
      requires Reached(members)
      modifies this, players, slots
      ensures slots == old(slots) && Reached(members)
      ensures if old(phase) == Finished then err == Some(InvalidMatchAction) && View() == old(View())
              else err == None && TimeoutResult(cat, old(View()), View()) && Ledger(old(View()), View(), es)
    {
      ghost var s := View();
      if (phase != Phase.PlaceTile && phase != Phase.PlaceMeeple) || current == "" || current !in members {
        if s.phase != Finished { CurrentIsMember(members, s); }
        return Some(InvalidMatchAction), [];
      }
      if phase == Phase.PlaceTile {
        es := PlaceForTimeout(members);
      } else {
        es := ResolvePlaced(members);
      }
      TimeoutKeepsInv(cat, room, members, s, View());
      err := None;
    }

    method PlaceForTimeout(ghost members: seq<Id>) returns (es: seq<Event>)
      requires Reached(members) && phase == Phase.PlaceTile
      modifies this, players, slots
      ensures slots == old(slots) && used <= slots.Length
      ensures TimeoutResult(cat, old(View()), View()) && Ledger(old(View()), View(), es)
    {
      ghost var s := View();
      var x, y, r := RandomTilePlacement(members);
      FourRotations(r);
      PlacingKeepsInv(cat, members, s, current, x, y, r);
      PutTile(current, x, y, r);
      ghost var placed := View();
      es := ResolvePlaced(members);
      BookkeptMoved(true, placed, View(), s, View(), es);
    }

    method ResolvePlaced(ghost members: seq<Id>) returns (es: seq<Event>)
      requires Reached(members) && phase == Phase.PlaceMeeple
      modifies this, players, slots
      ensures slots == old(slots) && used <= slots.Length && View() == Resolve(cat, old(View()))
      ensures Ledger(old(View()), View(), es)
    {
      ResolvableIsValid(cat, members, View());
      es := ResolveTurn(true);
    }

    /** Any of the listed placements; in the tile phase there always is one. */
    method RandomTilePlacement(ghost members: seq<Id>) returns (x: int, y: int, r: int)
      requires Reached(members) && phase == Phase.PlaceTile
      ensures r in ROTATIONS && CanPlaceTile(cat, currentTile.value.tile, x, y, r, board)
    {
      var ps := ValidTilePlacements(cat, currentTile.value.tile, board);
      SomePlacementListed(cat, currentTile.value.tile, board, ps);
      var i :| 0 <= i < |ps|;
      x, y := ps[i].x, ps[i].y;
      var k :| 0 <= k < |ps[i].rotations|;
      r := ps[i].rotations[k];
      assert ListedPlacement(ps, x, y, r);
      FourRotations(r);
    }

    // -------------------------------------------------------------- the start of a match

    /** Seats the players, puts down the start tile and draws the first tile that fits. */
    constructor (cat: Catalog, room: Id, members: seq<Id>, inns: bool, instance: Id, shuffled: seq<Instance>)
      requires ValidCatalog(cat)
      ensures this.cat == cat && this.room == room && fresh(players) && fresh(slots)
      ensures used <= slots.Length && View() == Start(cat, members, inns, instance, shuffled)
    {
      var b := [StartTile(instance)];
      var first, rest := DrawNextPlaceableTile(cat, shuffled, b);
      DrawIs(cat, shuffled, b, first, rest);
      var hands := StartPlayers(members, inns);
      this.cat, this.room := cat, room;
      players := new Player[|members|](i requires 0 <= i < |members| => hands[i]);
      phase := if first.Some? then Phase.PlaceTile else Finished;
      turn := 1;
      current := if first.Some? && members != [] then members[0] else "";
      board, deck, currentTile, last := b, rest, first, None;
      slots, used := new Meeple[0], 0;
      new;
      assert players[..] == hands;
    }

    /** A copy that shares no buffer with the original. */
    constructor Clone(g: Game)
      requires g.used <= g.slots.Length
      ensures cat == g.cat && room == g.room && fresh(players) && fresh(slots)
      ensures used <= slots.Length && View() == g.View()
    {
      var from, hands := g.slots, g.players;
      cat, room := g.cat, g.room;
      phase, turn, current, board, deck := g.phase, g.turn, g.current, g.board, g.deck;
      currentTile, last, used := g.currentTile, g.last, g.used;
      players := new Player[hands.Length](i requires 0 <= i < hands.Length reads hands => hands[i]);
      slots := new Meeple[from.Length](i requires 0 <= i < from.Length reads from => from[i]);
      new;
      assert players[..] == hands[..];
      assert slots[..] == from[..];
    }
  }

  method ZoneSet(zones: seq<ZoneRef>, ghost members: set<ZoneRef>) returns (r: set<ZoneRef>)
    requires Lists(zones, members)
    ensures r == members
  {
    r := set z | z in zones;
  }

  /** A feature that carries a meeple is never empty, so a completed one is worth something. */
  lemma OccupiedIsWorth(cat: Catalog, b: Board, ms: seq<Meeple>, kind: Kind, zones: set<ZoneRef>)
    ensures Occupied(ms, zones) ==> 0 < CompletedPoints(cat, b, kind, zones)
  {
    if Occupied(ms, zones) { CompletedWorthSomething(cat, b, kind, zones); }
  }

  lemma StartOnBoard(cat: Catalog, b: Board, last: Option<PlacedTile>, kind: Kind, i: nat)
    requires ValidCatalog(cat) && WellPlaced(cat, b) && (last.Some? ==> last.value in b)
    requires i < |LastZones(cat, last, kind)|
    ensures LastZones(cat, last, kind)[i] in Zones(cat, b)
  {
    LastZonesOnBoard(cat, b, last.value, kind, LastZones(cat, last, kind)[i]);
  }

  /** The event of a completed monastery: nine points for the monk's owner, and the monk goes home. */
  method RecordMonk(ghost s: State, turn: int, m: Meeple) returns (es: seq<Event>)
    requires Taken(s.meeples, {m.Ref()}) == [m]
    ensures Ledger(s, Settle(s, {m.Ref()}, {m.actor}, 9), es) && Stamped(es, turn, Monastery)
    ensures es == [Event(turn, Monastery, TurnScoring, [Contribution(m.tile, m.zone, 9)], 9, map[m.actor := 9], [m])]
  {
    var contributions := [Contribution(m.tile, m.zone, 9)];
    var e := NewEvent(turn, Monastery, TurnScoring, {m.actor}, 9, contributions, [m]);
    assert Awards({m.actor}, 9) == map[m.actor := 9];
    assert m.actor in e.awards;
    SettleLedger(s, {m.Ref()}, {m.actor}, 9, e);
    es := [e];
  }

  /** The ledger only looks at players and meeples. */
  lemma BookkeptMoved(record: bool, p: State, q: State, s: State, t: State, es: seq<Event>)
    requires Bookkept(record, p, q, es)
    requires p.players == s.players && p.meeples == s.meeples && q.players == t.players && q.meeples == t.meeples
    ensures Bookkept(record, s, t, es)
  {}

  lemma ReachedIsValid(cat: Catalog, members: seq<Id>, s: State)
    requires Inv(cat, members, s)
    ensures ValidCatalog(cat) && WellPlaced(cat, s.board) && (s.last.Some? ==> s.last.value in s.board)
  {}

  lemma ResolvableIsValid(cat: Catalog, members: seq<Id>, s: State)
    requires Resolvable(cat, members, s)
    ensures ValidCatalog(cat) && WellPlaced(cat, s.board) && (s.last.Some? ==> s.last.value in s.board)
    ensures OnePerTile(s.meeples) && forall m :: m in s.meeples ==> OnScoringZone(cat, s.board, m)
  {
    forall m | m in s.meeples
      ensures OnScoringZone(cat, s.board, m)
    {
      assert MeepleFits(cat, s, m);
    }
  }

  ghost predicate IsNewMeeple(cat: Catalog, room: Id, s: State, actor: Id, a: Action, m: Meeple)
    requires ValidCatalog(cat) && a.PlaceMeepleAction? && MeepleAccepted(cat, room, s, actor, a)
  {
    AcceptedZone(cat, room, s, actor, a);
    m == NewMeeple(s.last.value, ZoneOfTile(cat, s.last.value, a.zone).value, actor, a.kind)
  }

  /** The meeple of the action stands on the board, the turn is resolved, and the events account for the scoring. */
  ghost predicate PlacedMeeple(cat: Catalog, room: Id, s: State, actor: Id, a: Action, t: State, es: seq<Event>)
    requires ValidCatalog(cat) && a.PlaceMeepleAction? && MeepleAccepted(cat, room, s, actor, a)
  {
    AcceptedZone(cat, room, s, actor, a);
    var put := WithMeeple(s, NewMeeple(s.last.value, ZoneOfTile(cat, s.last.value, a.zone).value, actor, a.kind));
    t == Resolve(cat, put) && Ledger(put, t, es) && TurnLog(cat, put, t, es)
  }

  /** Roads first, then cities, then monasteries. */
  ghost predicate InTurnOrder(es: seq<Event>, turn: int) {
    exists roads, cities, monks :: && es == roads + cities + monks && Stamped(roads, turn, Road)
                                   && Stamped(cities, turn, City) && Stamped(monks, turn, Monastery)
  }

  /** The events of a turn: those of the completed features and, if the match is over, those of the final scoring of
      what was left on the board. */
  ghost predicate TurnLog(cat: Catalog, s: State, t: State, es: seq<Event>) {
    exists scored, final :: && es == scored + final && InTurnOrder(scored, s.turn)
                            && if t.phase == Finished then LeftIsScored(cat, s, final) else final == []
  }

  /** What was recorded while the turn was scored, and what was recorded when it ended. */
  lemma TurnBooks(record: bool, cat: Catalog, s: State, s1: State, s2: State, t: State, scored: seq<Event>,
                  final: seq<Event>)
    requires s1 == s.(phase := Phase.ResolveTurn) && s2 == ScoreTurn(cat, s1) && t == FinishTurn(cat, s2)
    requires Bookkept(record, s1, s2, scored) && Bookkept(record, s2, t, final) && InTurnOrder(scored, s.turn)
    requires if t.phase == Finished then (record ==> FinalEvents(cat, s2.board, s2.meeples, s2.turn, final))
             else final == []
    ensures Bookkept(record, s, t, scored + final) && (record ==> TurnLog(cat, s, t, scored + final))
  {
    ScoreTurnKeeps(cat, s1);
    BookkeptComposes(record, s1, s2, t, scored, final);
    BookkeptMoved(record, s1, t, s, t, scored + final);
  }

  ghost predicate LeftIsScored(cat: Catalog, s: State, final: seq<Event>) {
    FinalEvents(cat, s.board, ScoreTurn(cat, s.(phase := ResolveTurn)).meeples, s.turn, final)
  }

  lemma SomePlacementListed(cat: Catalog, tile: Id, b: Board, ps: seq<TilePlacement>)
    requires Placeable(cat, tile, b)
    requires forall x, y, q :: IsValidRotation(q) ==>
               (ListedPlacement(ps, x, y, NormalizeRotation(q)) <==> CanPlaceTile(cat, tile, x, y, q, b))
    ensures ps != []
  {
    var x, y, q :| IsValidRotation(q) && CanPlaceTile(cat, tile, x, y, q, b);
    assert ListedPlacement(ps, x, y, NormalizeRotation(q));
  }

  /** What the three kinds of action do, given that it is the actor's turn. */
  ghost predicate ActionDone(cat: Catalog, room: Id, s: State, actor: Id, a: Action, t: State, err: Option<Error>,
                             es: seq<Event>)
    requires ValidCatalog(cat)
  {
    match a
    case PlaceTileAction(_, x, y, rotation) =>
      if TileAccepted(cat, room, s, a) then
        err == None && t == WithTile(s, NewTile(s, actor, x, y, rotation)) && es == []
      else err == Some(InvalidMatchAction) && t == s
    case PlaceMeepleAction(_, _, _, _, _) =>
      if MeepleAccepted(cat, room, s, actor, a) then err == None && PlacedMeeple(cat, room, s, actor, a, t, es)
      else err == Some(InvalidMatchAction) && t == s
    case SkipMeepleAction(_) =>
      if SkipAccepted(room, s, a) then
        err == None && t == Resolve(cat, s) && Ledger(s, t, es) && TurnLog(cat, s, t, es)
      else err == Some(InvalidMatchAction) && t == s
    case UnknownAction => err == Some(InvalidMatchAction) && t == s
  }

  /** The state when the turn is scored: the one the events are measured against. */
  ghost function Entering(cat: Catalog, room: Id, s: State, actor: Id, a: Action): State
    requires ValidCatalog(cat) && (a.PlaceMeepleAction? ==> MeepleAccepted(cat, room, s, actor, a))
  {
    if a.PlaceMeepleAction? then
      AcceptedZone(cat, room, s, actor, a);
      WithMeeple(s, NewMeeple(s.last.value, ZoneOfTile(cat, s.last.value, a.zone).value, actor, a.kind))
    else s
  }

  /** The outcome is the one of the rules, and the events agree with every score and meeple that changed. */
  ghost predicate Follows(cat: Catalog, room: Id, members: seq<Id>, s: State, actor: Id, a: Action, t: State,
                          err: Option<Error>, es: seq<Event>)
    requires ValidCatalog(cat)
  {
    match Step(cat, room, members, s, actor, a)
    case Failed(e) => err == Some(e) && t == s
    case Done(next) =>
      && err == None && t == next && Ledger(Entering(cat, room, s, actor, a), t, es)
      && if a.PlaceTileAction? then es == [] else TurnLog(cat, Entering(cat, room, s, actor, a), t, es)
  }

  lemma Dispatched(cat: Catalog, room: Id, members: seq<Id>, s: State, actor: Id, a: Action, t: State,
                   err: Option<Error>, es: seq<Event>)
    requires Inv(cat, members, s) && s.phase in {PlaceTile, PlaceMeeple} && s.current == actor && actor in members
    requires ActionDone(cat, room, s, actor, a, t, err, es)
    ensures Follows(cat, room, members, s, actor, a, t, err, es) && Inv(cat, members, t)
  {
    var o := Step(cat, room, members, s, actor, a);
    if o.Done? {
      StepKeepsInv(cat, room, members, s, actor, a);
    }
    if a.PlaceTileAction? {
      NothingHappened(s);
    }
  }

  // ---------------------------------------------------------------- the result

  ghost predicate HasTopScore(players: seq<Player>, i: nat)
    requires i < |players|
  {
    forall k :: 0 <= k < |players| ==> players[k].score <= players[i].score
  }

  /** The winners are exactly the players with the highest score, in seat order. */
  method MatchResult(players: seq<Player>) returns (winners: seq<Id>, scores: seq<(Id, int)>)
    ensures |scores| == |players|
    ensures forall i :: 0 <= i < |players| ==> scores[i] == (players[i].actor, players[i].score)
    ensures forall a :: a in winners <==>
              exists i :: 0 <= i < |players| && players[i].actor == a && HasTopScore(players, i)
    ensures players != [] ==> winners != []
  {
    scores := [];
    var max := 0;
    for i := 0 to |players|
      invariant |scores| == i && forall k :: 0 <= k < i ==> scores[k] == (players[k].actor, players[k].score)
      invariant forall k :: 0 <= k < i ==> players[k].score <= max
      invariant i > 0 ==> exists k :: 0 <= k < i && players[k].score == max
    {
      scores := scores + [(players[i].actor, players[i].score)];
      if i == 0 || players[i].score > max {
        max := players[i].score;
      }
    }
    winners := [];
    for i := 0 to |players|
      invariant forall a :: a in winners <==> exists k :: 0 <= k < i && players[k].actor == a && players[k].score == max
    {
      if players[i].score == max {
        winners := winners + [players[i].actor];
      }
    }
    if players != [] {
      var k :| 0 <= k < |players| && players[k].score == max;
      assert players[k].actor in winners;
    }
  }

  /** The first i start zones are scored, the visited ones are settled, and the events agree. */
  ghost predicate Scoring(record: bool, cat: Catalog, s: State, t: State, kind: Kind, starts: seq<ZoneRef>, i: nat,
                          visited: set<ZoneRef>, es: seq<Event>)
  {
    && i <= |starts| && t == ScoreFeatures(cat, s, kind, starts[..i])
    && AllSettled(cat, t, visited) && Bookkept(record, s, t, es)
  }

  lemma ScoringSkips(record: bool, cat: Catalog, s: State, t: State, kind: Kind, starts: seq<ZoneRef>, i: nat,
                     visited: set<ZoneRef>, es: seq<Event>)
    requires Scoring(record, cat, s, t, kind, starts, i, visited, es) && i < |starts| && starts[i] in visited
    ensures Scoring(record, cat, s, t, kind, starts, i + 1, visited, es)
  {
    assert starts[..i + 1][..i] == starts[..i];
    assert Settled(cat, t, starts[i]);
    SettledNoChange(cat, t, kind, starts[i]);
  }

  lemma ScoringSteps(record: bool, cat: Catalog, s: State, t: State, u: State, kind: Kind, starts: seq<ZoneRef>, i: nat,
                     visited: set<ZoneRef>, es: seq<Event>, zones: set<ZoneRef>, more: seq<Event>)
    requires Scoring(record, cat, s, t, kind, starts, i, visited, es) && i < |starts|
    requires ValidCatalog(cat) && WellPlaced(cat, t.board) && zones == Class(cat, t.board, starts[i])
    requires u == ScoreFeature(cat, t, kind, starts[i]) && Bookkept(record, t, u, more)
    ensures Scoring(record, cat, s, u, kind, starts, i + 1, visited + zones, es + more)
  {
    assert starts[..i + 1][..i] == starts[..i];
    SettledStep(cat, t, kind, starts[i], visited, zones);
    BookkeptComposes(record, s, t, u, es, more);
  }
}
