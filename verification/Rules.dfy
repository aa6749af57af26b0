/** What each action does to the state of a match. */
module Rules {
  import opened Tiles
  import opened Topology
  import opened Pieces
  import opened Placements
  import opened MeeplePlacements
  import opened GameStates
  import opened FinalScores

  datatype Action =
    | PlaceTileAction(room: Id, x: int, y: int, rotation: int)
    | PlaceMeepleAction(room: Id, tile: Id, zone: Id, segment: Option<Segment>, kind: MeepleType)
    | SkipMeepleAction(room: Id)
    | UnknownAction

  datatype Error = InvalidMatchAction | NotYourTurn

  datatype Outcome<+S> = Done(state: S) | Failed(error: Error)

  // ---------------------------------------------------------------- turn scoring

  /** Scores the completed roads, cities and monasteries, looking for roads and cities only through the last tile. */
  ghost function ScoreTurn(cat: Catalog, s: State): State {
    var roads := ScoreFeatures(cat, s, Road, LastZones(cat, s.last, Road));
    var cities := ScoreFeatures(cat, roads, City, LastZones(cat, s.last, City));
    ScoreMonks(cities, CompleteMonks(cat, cities.board, cities.meeples))
  }

  // ---------------------------------------------------------------- the draw

  /** The position of the first tile that fits, or the length of the deck. */
  ghost function FirstFit(cat: Catalog, deck: seq<Instance>, b: Board): (i: nat)
    ensures i <= |deck| && (i < |deck| ==> Placeable(cat, deck[i].tile, b))
    ensures forall k :: 0 <= k < i ==> !Placeable(cat, deck[k].tile, b)
  {
    if deck == [] || Placeable(cat, deck[0].tile, b) then 0 else 1 + FirstFit(cat, deck[1..], b)
  }

  ghost function Drawn(cat: Catalog, deck: seq<Instance>, b: Board): Option<Instance> {
    var i := FirstFit(cat, deck, b);
    if i == |deck| then None else Some(deck[i])
  }

  ghost function Undrawn(cat: Catalog, deck: seq<Instance>, b: Board): seq<Instance> {
    var i := FirstFit(cat, deck, b);
    if i == |deck| then deck else deck[i + 1..] + deck[..i]
  }

  lemma DrawIs(cat: Catalog, deck: seq<Instance>, b: Board, tile: Option<Instance>, rest: seq<Instance>)
    ensures IsDraw(cat, deck, b, tile, rest) <==> tile == Drawn(cat, deck, b) && rest == Undrawn(cat, deck, b)
  {
    var i := FirstFit(cat, deck, b);
    if i < |deck| {
      assert DrawnAt(cat, deck, b, i, deck[i], deck[i + 1..] + deck[..i]);
    }
    assert IsDraw(cat, deck, b, Drawn(cat, deck, b), Undrawn(cat, deck, b));
    if IsDraw(cat, deck, b, tile, rest) {
      DrawUnique(cat, deck, b, tile, rest, Drawn(cat, deck, b), Undrawn(cat, deck, b));
    }
  }

  // ---------------------------------------------------------------- the end of a turn

  /** The next seat around the table. */
  function SeatAfter(i: nat, n: nat): (j: nat)
    requires i < n
    ensures j < n
  {
    if i + 1 == n then 0 else i + 1
  }

  lemma SeatAfterIsRemainder(i: nat, n: nat)
    requires i < n
    ensures (i + 1) % n == SeatAfter(i, n)
  {}

  /** The player after the current one; an unknown current player is followed by the first. */
  function NextPlayer(players: seq<Player>, current: Id): Id {
    if players == [] then current
    else
      var i := IndexOf(players, current);
      players[if i == |players| then 0 else SeatAfter(i, |players|)].actor
  }

  lemma SeatOfPlayer(players: seq<Player>, k: nat)
    requires DistinctActors(players) && k < |players|
    ensures IndexOf(players, players[k].actor) == k
  {
    var i := IndexOf(players, players[k].actor);
    assert i <= k;
  }

  /** The next player sits in the next seat, in the first one after the last; an unknown player is followed by the
      first. */
  lemma NextSeatFollows(players: seq<Player>, current: Id)
    requires players != []
    ensures IsPlayer(players, NextPlayer(players, current))
    ensures !IsPlayer(players, current) ==> NextPlayer(players, current) == players[0].actor
    ensures forall i :: 0 <= i < |players| && DistinctActors(players) && players[i].actor == current ==>
              NextPlayer(players, current) == players[SeatAfter(i, |players|)].actor
  {
    var k := IndexOf(players, current);
    forall i | 0 <= i < |players| && DistinctActors(players) && players[i].actor == current
      ensures k == i
    {
      SeatOfPlayer(players, i);
    }
    if k == |players| { assert players[0].actor == NextPlayer(players, current); }
  }

  lemma NextOfSeat(players: seq<Player>, j: nat)
    requires DistinctActors(players) && j < |players|
    ensures NextPlayer(players, players[j].actor) == players[SeatAfter(j, |players|)].actor
  {
    SeatOfPlayer(players, j);
  }

  /** The player k turns after the given one. */
  function Later(players: seq<Player>, actor: Id, k: nat): Id {
    if k == 0 then actor else NextPlayer(players, Later(players, actor, k - 1))
  }

  /** The seat k places further around the table. */
  function SeatLater(i: nat, k: nat, n: nat): (j: nat)
    requires i < n && k <= n
    ensures j < n
  {
    if i + k < n then i + k else i + k - n
  }

  /** Turns go around the table: seat by seat, everybody once, and then the first player again. */
  lemma {:induction false} SeatsGoRound(players: seq<Player>, i: nat, k: nat)
    requires DistinctActors(players) && i < |players| && k <= |players|
    ensures Later(players, players[i].actor, k) == players[SeatLater(i, k, |players|)].actor
  {
    if k > 0 {
      SeatsGoRound(players, i, k - 1);
      var before, seat := SeatLater(i, k - 1, |players|), SeatLater(i, k, |players|);
      assert SeatAfter(before, |players|) == seat;
      NextOfSeat(players, before);
      assert Later(players, players[i].actor, k) == NextPlayer(players, players[before].actor);
    }
  }

  ghost function AfterDraw(cat: Catalog, s: State): State {
    s.(deck := Undrawn(cat, s.deck, s.board), currentTile := Drawn(cat, s.deck, s.board), last := None)
  }

  /** With a tile in hand the next player is to move; without one, the match is scored and finished. */
  ghost function EndTurn(cat: Catalog, s: State): State {
    if s.currentTile.None? then ScoreFinal(cat, s).(phase := Finished, current := "")
    else s.(current := NextPlayer(s.players, s.current), turn := s.turn + 1, phase := PlaceTile)
  }

  /** Draws the next tile and ends the turn. */
  ghost function FinishTurn(cat: Catalog, s: State): State {
    EndTurn(cat, AfterDraw(cat, s))
  }

  ghost function Resolve(cat: Catalog, s: State): State {
    FinishTurn(cat, ScoreTurn(cat, s.(phase := ResolveTurn)))
  }

  // ---------------------------------------------------------------- actions

  predicate RoomFits(given: Id, room: Id) {
    given == "" || given == room
  }

  predicate TileAccepted(cat: Catalog, room: Id, s: State, a: Action)
    requires a.PlaceTileAction?
  {
    && s.phase == PlaceTile && s.currentTile.Some? && RoomFits(a.room, room) && IsValidRotation(a.rotation)
    && CanPlaceTile(cat, s.currentTile.value.tile, a.x, a.y, a.rotation, s.board)
  }

  function NewTile(s: State, actor: Id, x: int, y: int, rotation: int): PlacedTile
    requires s.currentTile.Some?
  {
    PlacedTile(s.currentTile.value.id, s.currentTile.value.tile, x, y, NormalizeRotation(rotation), actor, s.turn)
  }

  function WithTile(s: State, t: PlacedTile): State {
    s.(board := s.board + [t], last := Some(t), currentTile := None, phase := PlaceMeeple)
  }

  predicate SegmentFitsZone(given: Option<Segment>, z: ZoneDef, rotation: int) {
    given.Some? ==> given == PlacementSegment(z, rotation)
  }

  ghost predicate MeepleAccepted(cat: Catalog, room: Id, s: State, actor: Id, a: Action)
    requires a.PlaceMeepleAction?
  {
    && s.phase == PlaceMeeple && s.last.Some? && RoomFits(a.room, room)
    && (a.tile == "" || a.tile == s.last.value.instance)
    && HasMeepleLeft(s.players, actor, NormalizeMeepleType(a.kind))
    && FreeSpot(cat, s.board, s.meeples, s.last.value, a.zone)
    && SegmentFitsZone(a.segment, ZoneOfTile(cat, s.last.value, a.zone).value, s.last.value.rotation)
  }

  /** The meeple the action puts down. A definition without segments would leave its segment blank. */
  function NewMeeple(t: PlacedTile, z: ZoneDef, actor: Id, kind: MeepleType): Meeple
    requires z.segments != []
  {
    Meeple(t.instance, z.id, actor, NormalizeMeepleType(kind), z.kind, PlacementSegment(z, t.rotation).value)
  }

  function WithMeeple(s: State, m: Meeple): State {
    s.(meeples := s.meeples + [m], players := ChangeHand(s.players, m.actor, m.kind, -1))
  }

  predicate SkipAccepted(room: Id, s: State, a: Action)
    requires a.SkipMeepleAction?
  {
    s.phase == PlaceMeeple && s.last.Some? && RoomFits(a.room, room)
  }

  lemma AcceptedZone(cat: Catalog, room: Id, s: State, actor: Id, a: Action)
    requires ValidCatalog(cat) && a.PlaceMeepleAction? && MeepleAccepted(cat, room, s, actor, a)
    ensures s.last.value.tile in cat && ZoneOfTile(cat, s.last.value, a.zone).Some?
    ensures var z := ZoneOfTile(cat, s.last.value, a.zone).value;
            z in cat[s.last.value.tile].zones && z.id == a.zone && z.segments != [] &&
            z.kind in {Road, City, Monastery, Field}
  {
    FindZoneSound(cat[s.last.value.tile].zones, a.zone);
    var z := ZoneOfTile(cat, s.last.value, a.zone).value;
    assert ValidZone(z, cat[s.last.value.tile].edges);
  }

  /** The outcome of one action of one player. */
  ghost function Step(cat: Catalog, room: Id, members: seq<Id>, s: State, actor: Id, a: Action): Outcome<State>
    requires ValidCatalog(cat)
  {
    if s.phase != PlaceTile && s.phase != PlaceMeeple then Failed(InvalidMatchAction)
    else if s.current != actor then Failed(NotYourTurn)
    else if actor !in members then Failed(InvalidMatchAction)
    else match a
      case PlaceTileAction(_, x, y, rotation) =>
        if TileAccepted(cat, room, s, a) then Done(WithTile(s, NewTile(s, actor, x, y, rotation)))
        else Failed(InvalidMatchAction)
      case PlaceMeepleAction(_, _, zone, _, kind) =>
        if MeepleAccepted(cat, room, s, actor, a) then
          AcceptedZone(cat, room, s, actor, a);
          Done(Resolve(cat,
              WithMeeple(s, NewMeeple(s.last.value, ZoneOfTile(cat, s.last.value, zone).value, actor, kind))))
        else Failed(InvalidMatchAction)
      case SkipMeepleAction(_) =>
        if SkipAccepted(room, s, a) then Done(Resolve(cat, s)) else Failed(InvalidMatchAction)
      case UnknownAction => Failed(InvalidMatchAction)
  }
}
