/** Bots: their actions are always accepted, and their turns always come to an end. */
module Bots {
  import opened Tiles
  import opened Topology
  import opened Pieces
  import opened Hands
  import opened Placements
  import opened MeeplePlacements
  import opened GameStates
  import opened TurnScoring
  import opened Rules
  import opened Conservation
  import opened Invariants
  import opened Runs
  import opened Acceptance
  import opened Games

  const MAX_BOT_TURN_STEPS := 32
  const MAX_SEATS := 6

  // ---------------------------------------------------------------- what a bot may do

  /** The type a bot uses for a listed placement: a regular meeple if there is one. */
  function BotMeepleType(types: seq<MeepleType>): MeepleType {
    if Regular in types then Regular else if Big in types then Big else Regular
  }

  /** A bot takes a regular meeple as long as it has one, and its big one only then. */
  lemma BotSparesBig(players: seq<Player>, actor: Id)
    requires DistinctActors(players)
    ensures BotMeepleType(AvailableMeepleTypes(players, actor)) ==
            if !Holds(players, actor, Regular) && Holds(players, actor, Big) then Big else Regular
  {
    HoldsIff(players, actor, Regular);
    HoldsIff(players, actor, Big);
  }

  /** The action is a listed placement or a skip. */
  ghost predicate IsBotAction(cat: Catalog, room: Id, s: State, actor: Id, a: Action) {
    match a
    case PlaceTileAction(r, x, y, q) =>
      r == room && s.phase == PlaceTile && s.currentTile.Some? && q in ROTATIONS &&
      CanPlaceTile(cat, s.currentTile.value.tile, x, y, q, s.board)
    case PlaceMeepleAction(r, tile, zone, segment, kind) =>
      && r == room && s.phase == PlaceMeeple && s.last.Some? && tile == s.last.value.instance &&
         s.last.value.tile in cat
      && var types := AvailableMeepleTypes(s.players, actor);
         && types != [] && kind == BotMeepleType(types)
         && exists z :: z in cat[s.last.value.tile].zones && zone == z.id &&
                        segment == PlacementSegment(z, s.last.value.rotation)
              && FreeSpot(cat, s.board, s.meeples, s.last.value, z.id)
    case SkipMeepleAction(r) => r == room && s.phase == PlaceMeeple
    case UnknownAction => false
  }

  /** Whatever the bot chooses, the engine accepts it. */
  lemma BotActionAccepted(cat: Catalog, room: Id, members: seq<Id>, s: State, a: Action)
    requires Inv(cat, members, s) && IsBotAction(cat, room, s, s.current, a)
    ensures Step(cat, room, members, s, s.current, a).Done?
  {
    CurrentIsMember(members, s);
    if a.PlaceTileAction? {
      FourRotations(a.rotation);
    } else if a.PlaceMeepleAction? {
      BotMeepleAccepted(cat, room, members, s, a);
    }
  }

  lemma BotMeepleAccepted(cat: Catalog, room: Id, members: seq<Id>, s: State, a: Action)
    requires Inv(cat, members, s) && a.PlaceMeepleAction? && IsBotAction(cat, room, s, s.current, a)
    ensures MeepleAccepted(cat, room, s, s.current, a)
  {
    var t := s.last.value;
    var z :| z in cat[t.tile].zones && a.zone == z.id && a.segment == PlacementSegment(z, t.rotation) &&
             FreeSpot(cat, s.board, s.meeples, t, z.id);
    var types := AvailableMeepleTypes(s.players, s.current);
    assert types[0] in types;
    assert a.kind in types;
    FindZoneMeaning(cat[t.tile], z.id, z);
  }

  /** A bot's choice: any listed tile placement; any listed meeple placement, or none. */
  method BuildBotAction(game: Game, ghost members: seq<Id>) returns (a: Action)
    requires game.Reached(members) && game.phase in {PlaceTile, PlaceMeeple}
    ensures IsBotAction(game.cat, game.room, game.View(), game.current, a)
  {
    if game.phase == PlaceTile {
      var x, y, r := game.RandomTilePlacement(members);
      return PlaceTileAction(game.room, x, y, r);
    }
    ReachedIsValid(game.cat, members, game.View());
    var ps := ValidMeeplePlacements(game.cat, game.board, game.Meeples(), game.players[..], game.last, game.current);
    a := SkipMeepleAction(game.room);
    var wanted: bool := *;
    if ps != [] && wanted {
      var i :| 0 <= i < |ps|;
      var p := ps[i];
      var types := AvailableMeepleTypes(game.players[..], game.current);
      ghost var zones := game.cat[game.last.value.tile].zones;
      assert p in ps && FreeEntry(game.cat, game.board, game.Meeples(), game.last.value, zones, |zones|, types, p);
      a := PlaceMeepleAction(game.room, p.tile, p.zone, p.segment, BotMeepleType(p.types));
    }
  }

  // ---------------------------------------------------------------- look-ahead

  /** What scoring a position needs. */
  ghost predicate CanScore(cat: Catalog, s: State) {
    ValidCatalog(cat) && WellPlaced(cat, s.board) && (s.last.Some? ==> s.last.value in s.board) && OnePerTile(s.meeples)
  }

  /** What listing and scoring meeple placements on a position needs: a tile was just placed, and no meeple stands on
      it. */
  ghost predicate CanLookOn(cat: Catalog, s: State) {
    CanScore(cat, s) && s.phase == PlaceMeeple && s.last.Some? && NoMeepleOn(s.meeples, s.last.value.instance)
  }

  /** Every tile placement a bot weighs can be scored. */
  lemma PlacementCanBeScored(cat: Catalog, members: seq<Id>, s: State, actor: Id, x: int, y: int, r: int)
    requires Inv(cat, members, s) && s.phase == PlaceTile && r in ROTATIONS
    requires CanPlaceTile(cat, s.currentTile.value.tile, x, y, r, s.board)
    ensures CanLookOn(cat, WithTile(s, NewTile(s, actor, x, y, r)))
  {
    FourRotations(r);
    PlacingKeepsInv(cat, members, s, actor, x, y, r);
    InvCanLookOn(cat, members, WithTile(s, NewTile(s, actor, x, y, r)));
  }

  lemma InvCanLookOn(cat: Catalog, members: seq<Id>, s: State)
    requires Inv(cat, members, s) && s.phase == PlaceMeeple
    ensures CanLookOn(cat, s)
  {
    ReachedIsValid(cat, members, s);
  }

  /** After the position was scored, one may look on. */
  lemma ScoredCanLookOn(cat: Catalog, s: State)
    requires CanLookOn(cat, s)
    ensures CanLookOn(cat, ScoreTurn(cat, s)) && ScoreTurn(cat, s).current == s.current
  {
    ScoreTurnKeeps(cat, s);
  }

  /** The meeple a bot would put down for a listed placement. */
  function MeepleFor(p: MeeplePlacement, actor: Id): Meeple
    requires p.segment.Some?
  {
    Meeple(p.tile, p.zone, actor, BotMeepleType(p.types), p.feature, p.segment.value)
  }

  /** Every listed meeple placement can be scored, on the match and on every position looked at. */
  lemma MeepleCanBeScored(cat: Catalog, s: State, p: MeeplePlacement)
    requires CanLookOn(cat, s) && IsListed(cat, s, p) && p.types != []
    ensures p.segment.Some? && CanScore(cat, WithMeeple(s, MeepleFor(p, s.current)))
  {
    var a := PlaceMeepleAction("", p.tile, p.zone, p.segment, BotMeepleType(p.types));
    assert p.types[0] in p.types && BotMeepleType(p.types) in p.types;
    ListedMayStand(cat, "", s, a, p);
    AcceptedZone(cat, "", s, s.current, a);
    var zones := cat[s.last.value.tile].zones;
    var k :| 0 <= k < |zones| && p == EntryFor(s.last.value, zones[k], AvailableMeepleTypes(s.players, s.current)) &&
             FreeSpot(cat, s.board, s.meeples, s.last.value, zones[k].id);
    FindZoneMeaning(cat[s.last.value.tile], p.zone, zones[k]);
    assert MeepleFor(p, s.current).tile == s.last.value.instance;
  }

  /** Scores a position silently: the same changes, no events. */
  method ScoreCopy(copy: Game, ghost s: State) returns (after: seq<Player>)
    requires copy.used <= copy.slots.Length && copy.View() == s && CanScore(copy.cat, s)
    modifies copy`used, copy.players, copy.slots
    ensures copy.used <= copy.slots.Length && copy.View() == ScoreTurn(copy.cat, s)
    ensures after == ScoreTurn(copy.cat, s).players
  {
    var silent := copy.ScoreCompleted(false);
    after := copy.players[..];
  }

  /** The scores a meeple placement would bring at once, worked out on a copy. */
  method PreviewMeeple(game: Game, m: Meeple) returns (after: seq<Player>)
    requires game.used <= game.slots.Length && CanScore(game.cat, WithMeeple(game.View(), m))
    ensures after == ScoreTurn(game.cat, WithMeeple(game.View(), m)).players
  {
    ghost var placed := WithMeeple(game.View(), m);
    var copy := new Game.Clone(game);
    copy.AppendMeeple(m);
    ChangeMeeples(copy.players, m.actor, m.kind, -1);
    after := ScoreCopy(copy, placed);
  }

  /** What a bot sees of a tile placement: the scores it brings at once, the meeple placements that would be listed
      then, and the scores each of these would bring. */
  datatype TileWeight = TileWeight(after: seq<Player>, placements: seq<MeeplePlacement>, previews: seq<seq<Player>>)

  ghost predicate Weighs(cat: Catalog, scored: State, w: TileWeight) {
    && w.after == scored.players
    && (forall p :: p in w.placements <==> IsListed(cat, scored, p) && p.types != [])
    && MeeplesWeighed(cat, scored, w.placements, w.previews)
  }

  /** Looks ahead on a copy: the tile, what it completes, and every meeple that could follow, on copies of the copy. The
      match itself stays as it is. */
  method PreviewTile(game: Game, actor: Id, x: int, y: int, r: int) returns (w: TileWeight)
    requires game.used <= game.slots.Length && game.currentTile.Some? && actor == game.current
    requires CanLookOn(game.cat, WithTile(game.View(), NewTile(game.View(), actor, x, y, r)))
    ensures Weighs(game.cat, ScoreTurn(game.cat, WithTile(game.View(), NewTile(game.View(), actor, x, y, r))), w)
  {
    ghost var placed := WithTile(game.View(), NewTile(game.View(), actor, x, y, r));
    var copy := new Game.Clone(game);
    copy.PutTile(actor, x, y, r);
    var after := ScoreCopy(copy, placed);
    ScoredCanLookOn(copy.cat, placed);
    var ps, previews := WeighListed(copy, ScoreTurn(copy.cat, placed));
    w := TileWeight(after, ps, previews);
  }

  /** The options a bot weighs for its tile: exactly the legal placements, each with what it would bring. */
  method WeighTiles(game: Game, ghost members: seq<Id>)
    returns (options: seq<(int, int, int)>, weights: seq<TileWeight>)
    requires game.Reached(members) && game.phase == PlaceTile
    ensures forall x, y, r :: (x, y, r) in options <==>
              r in ROTATIONS && CanPlaceTile(game.cat, game.currentTile.value.tile, x, y, r, game.board)
    ensures TilesWeighed(game.cat, game.View(), options, weights)
  {
    var ps := ValidTilePlacements(game.cat, game.currentTile.value.tile, game.board);
    ListsAll(game.cat, game.currentTile.value.tile, game.board, ps);
    AllCanBeScored(game.cat, members, game.View(), ps);
    options, weights := WeighPlacements(game, game.View(), ps);
    OptionsAreListed(ps, options);
  }

  method WeighPlacements(game: Game, ghost s: State, ps: seq<TilePlacement>)
    returns (options: seq<(int, int, int)>, weights: seq<TileWeight>)
    requires game.used <= game.slots.Length && game.View() == s && Scorable(game.cat, s, ps)
    ensures OptionsBefore(ps, |ps|, options) && TilesWeighed(game.cat, s, options, weights)
  {
    options, weights := [], [];
    for i := 0 to |ps|
      invariant OptionsBefore(ps, i, options) && TilesWeighed(game.cat, s, options, weights)
    {
      var more, others := WeighRotations(game, s, ps, i);
      OptionsStep(ps, i, options, more);
      WeighedStep(game.cat, s, options, weights, more, others);
      options, weights := options + more, weights + others;
    }
  }

  /** Every listed placement can be scored. */
  ghost predicate Scorable(cat: Catalog, s: State, ps: seq<TilePlacement>) {
    s.currentTile.Some? &&
    forall i, r :: 0 <= i < |ps| && r in ps[i].rotations ==>
        CanLookOn(cat, WithTile(s, NewTile(s, s.current, ps[i].x, ps[i].y, r)))
  }

  lemma AllCanBeScored(cat: Catalog, members: seq<Id>, s: State, ps: seq<TilePlacement>)
    requires Inv(cat, members, s) && s.phase == PlaceTile
    requires forall x, y, r :: ListedPlacement(ps, x, y, r) <==>
               r in ROTATIONS && CanPlaceTile(cat, s.currentTile.value.tile, x, y, r, s.board)
    ensures Scorable(cat, s, ps)
  {
    forall i, r | 0 <= i < |ps| && r in ps[i].rotations
      ensures CanLookOn(cat, WithTile(s, NewTile(s, s.current, ps[i].x, ps[i].y, r)))
    {
      assert ListedPlacement(ps, ps[i].x, ps[i].y, r);
      PlacementCanBeScored(cat, members, s, s.current, ps[i].x, ps[i].y, r);
    }
  }

  lemma WeighedOne(cat: Catalog, s: State, options: seq<(int, int, int)>, weights: seq<TileWeight>,
                   o: (int, int, int), w: TileWeight)
    requires TilesWeighed(cat, s, options, weights) && Weighs(cat, TileScored(cat, s, o), w)
    ensures TilesWeighed(cat, s, options + [o], weights + [w])
  {}

  lemma WeighedStep(cat: Catalog, s: State, options: seq<(int, int, int)>, weights: seq<TileWeight>,
                    more: seq<(int, int, int)>, others: seq<TileWeight>)
    requires TilesWeighed(cat, s, options, weights) && TilesWeighed(cat, s, more, others)
    ensures TilesWeighed(cat, s, options + more, weights + others)
  {}

  /** The options are those of the first n listed cells. */
  ghost predicate OptionsBefore(ps: seq<TilePlacement>, n: nat, options: seq<(int, int, int)>)
    requires n <= |ps|
  {
    forall o :: o in options <==> exists i :: 0 <= i < n && ps[i].x == o.0 && ps[i].y == o.1 && o.2 in ps[i].rotations
  }

  lemma OptionsStep(ps: seq<TilePlacement>, i: nat, options: seq<(int, int, int)>, more: seq<(int, int, int)>)
    requires i < |ps| && OptionsBefore(ps, i, options)
    requires forall o :: o in more <==> ps[i].x == o.0 && ps[i].y == o.1 && o.2 in ps[i].rotations
    ensures OptionsBefore(ps, i + 1, options + more)
  {}

  lemma OptionsAreListed(ps: seq<TilePlacement>, options: seq<(int, int, int)>)
    requires OptionsBefore(ps, |ps|, options)
    ensures forall x, y, r :: (x, y, r) in options <==> ListedPlacement(ps, x, y, r)
  {
    forall x, y, r
      ensures (x, y, r) in options <==> ListedPlacement(ps, x, y, r)
    {
      var o := (x, y, r);
      assert o in options <==> exists i :: 0 <= i < |ps| && ps[i].x == o.0 && ps[i].y == o.1 && o.2 in ps[i].rotations;
    }
  }

  /** Each option is listed with what the rules give it. */
  ghost predicate TilesWeighed(cat: Catalog, s: State, options: seq<(int, int, int)>, weights: seq<TileWeight>) {
    && s.currentTile.Some? && |weights| == |options|
    && forall i :: 0 <= i < |options| ==> Weighs(cat, TileScored(cat, s, options[i]), weights[i])
  }

  ghost function TileScored(cat: Catalog, s: State, o: (int, int, int)): State
    requires s.currentTile.Some?
  {
    ScoreTurn(cat, WithTile(s, NewTile(s, s.current, o.0, o.1, o.2)))
  }

  lemma ListsAll(cat: Catalog, tile: Id, b: Board, ps: seq<TilePlacement>)
    requires forall x, y, q :: IsValidRotation(q) ==>
               (ListedPlacement(ps, x, y, NormalizeRotation(q)) <==> CanPlaceTile(cat, tile, x, y, q, b))
    requires forall x, y, r :: ListedPlacement(ps, x, y, r) ==> r in ROTATIONS
    ensures forall x, y, r :: ListedPlacement(ps, x, y, r) <==> r in ROTATIONS && CanPlaceTile(cat, tile, x, y, r, b)
  {
    forall x, y, r | r in ROTATIONS
      ensures ListedPlacement(ps, x, y, r) <==> CanPlaceTile(cat, tile, x, y, r, b)
    {
      FourRotations(r);
    }
  }

  method WeighRotations(game: Game, ghost s: State, ps: seq<TilePlacement>, i: nat)
    returns (options: seq<(int, int, int)>, weights: seq<TileWeight>)
    requires game.used <= game.slots.Length && game.View() == s && Scorable(game.cat, s, ps) && i < |ps|
    ensures forall o :: o in options <==> ps[i].x == o.0 && ps[i].y == o.1 && o.2 in ps[i].rotations
    ensures TilesWeighed(game.cat, s, options, weights)
  {
    var x, y, rotations := ps[i].x, ps[i].y, ps[i].rotations;
    options, weights := [], [];
    for j := 0 to |rotations|
      invariant |options| == j && forall k :: 0 <= k < j ==> options[k] == (x, y, rotations[k])
      invariant TilesWeighed(game.cat, s, options, weights)
    {
      assert rotations[j] in rotations;
      var w := PreviewTile(game, game.current, x, y, rotations[j]);
      assert Weighs(game.cat, TileScored(game.cat, s, (x, y, rotations[j])), w);
      WeighedOne(game.cat, s, options, weights, (x, y, rotations[j]), w);
      options, weights := options + [(x, y, rotations[j])], weights + [w];
    }
    OptionsOf(x, y, rotations, options);
  }

  lemma OptionsOf(x: int, y: int, rotations: seq<int>, options: seq<(int, int, int)>)
    requires |options| == |rotations| && forall k :: 0 <= k < |rotations| ==> options[k] == (x, y, rotations[k])
    ensures forall o :: o in options <==> x == o.0 && y == o.1 && o.2 in rotations
  {
    forall o
      ensures o in options <==> x == o.0 && y == o.1 && o.2 in rotations
    {
      if x == o.0 && y == o.1 && o.2 in rotations {
        var k :| 0 <= k < |rotations| && rotations[k] == o.2;
        assert options[k] == o;
      }
    }
  }

  /** The options a bot weighs for its meeple: the listed placements, each with the scores it would bring. */
  method WeighMeeples(game: Game, ghost members: seq<Id>) returns (ps: seq<MeeplePlacement>, afters: seq<seq<Player>>)
    requires game.Reached(members) && game.phase == PlaceMeeple
    ensures forall p :: p in ps <==> IsListed(game.cat, game.View(), p) && p.types != []
    ensures MeeplesWeighed(game.cat, game.View(), ps, afters)
  {
    InvCanLookOn(game.cat, members, game.View());
    ps, afters := WeighListed(game, game.View());
  }

  method WeighListed(game: Game, ghost s: State) returns (ps: seq<MeeplePlacement>, afters: seq<seq<Player>>)
    requires game.used <= game.slots.Length && game.View() == s && CanLookOn(game.cat, s)
    ensures forall p :: p in ps <==> IsListed(game.cat, s, p) && p.types != []
    ensures MeeplesWeighed(game.cat, s, ps, afters)
  {
    ps := ValidMeeplePlacements(game.cat, game.board, game.Meeples(), game.players[..], game.last, game.current);
    assert forall p :: p in ps <==> IsListed(game.cat, s, p) && p.types != [];
    forall p | p in ps
      ensures p.segment.Some? && CanScore(game.cat, WithMeeple(s, MeepleFor(p, s.current)))
    {
      MeepleCanBeScored(game.cat, s, p);
    }
    afters := WeighAll(game, s, ps);
  }

  ghost predicate MeeplesWeighed(cat: Catalog, s: State, ps: seq<MeeplePlacement>, afters: seq<seq<Player>>) {
    |afters| == |ps| && forall i :: 0 <= i < |ps| ==> ps[i].segment.Some? && afters[i] == MeepleScores(cat, s, ps[i])
  }

  method WeighAll(game: Game, ghost s: State, ps: seq<MeeplePlacement>) returns (afters: seq<seq<Player>>)
    requires game.used <= game.slots.Length && game.View() == s
    requires forall p :: p in ps ==> p.segment.Some? && CanScore(game.cat, WithMeeple(s, MeepleFor(p, s.current)))
    ensures MeeplesWeighed(game.cat, s, ps, afters)
  {
    afters := [];
    for i := 0 to |ps|
      invariant MeeplesWeighed(game.cat, s, ps[..i], afters)
    {
      assert ps[i] in ps && ps[..i + 1] == ps[..i] + [ps[i]];
      var after := PreviewMeeple(game, MeepleFor(ps[i], game.current));
      afters := afters + [after];
    }
    assert ps[..|ps|] == ps;
  }

  ghost function MeepleScores(cat: Catalog, s: State, p: MeeplePlacement): seq<Player>
    requires p.segment.Some?
  {
    ScoreTurn(cat, WithMeeple(s, MeepleFor(p, s.current))).players
  }

  // ---------------------------------------------------------------- the seats between a bot and the next human

  /** Steps around the table from seat i to seat h. */
  function Distance(i: nat, h: nat, n: nat): nat
    requires i < n && h < n
  {
    if i <= h then h - i else n - i + h
  }

  /** How many accepted actions it takes at most until seat h is to move at the start of a turn. */
  function Waiting(s: State, h: nat): int
    requires h < |s.players| && IndexOf(s.players, s.current) < |s.players|
  {
    2 * Distance(IndexOf(s.players, s.current), h, |s.players|) - (if s.phase == PlaceMeeple then 1 else 0)
  }

  lemma SeatsKept(p: seq<Player>, q: seq<Player>, actor: Id)
    requires DistinctActors(p) && |q| == |p| && forall i :: 0 <= i < |p| ==> q[i].actor == p[i].actor
    ensures IndexOf(q, actor) == IndexOf(p, actor)
  {}

  lemma TurnPasses(cat: Catalog, s: State)
    requires DistinctActors(s.players) && IsPlayer(s.players, s.current)
    ensures Resolve(cat, s).phase != Finished ==> Resolve(cat, s).current == NextPlayer(s.players, s.current)
  {
    var s1 := s.(phase := ResolveTurn);
    ScoreTurnKeeps(cat, s1);
    ScoreTurnConserves(cat, s1);
    KeptActors(s1, ScoreTurn(cat, s1));
    EndPasses(cat, s1, AfterDraw(cat, ScoreTurn(cat, s1)));
  }

  lemma EndPasses(cat: Catalog, s: State, t: State)
    requires DistinctActors(s.players) && IsPlayer(s.players, s.current) && t.current == s.current
    requires |t.players| == |s.players| && forall i :: 0 <= i < |s.players| ==> t.players[i].actor == s.players[i].actor
    ensures EndTurn(cat, t).phase != Finished ==> EndTurn(cat, t).current == NextPlayer(s.players, s.current)
  {
    SeatsKept(s.players, t.players, s.current);
    PlayerHasSeat(s.players, s.current);
    assert NextPlayer(t.players, s.current) == NextPlayer(s.players, s.current);
  }

  lemma PlayerHasSeat(players: seq<Player>, actor: Id)
    requires IsPlayer(players, actor)
    ensures IndexOf(players, actor) < |players|
  {
    var i :| 0 <= i < |players| && players[i].actor == actor;
    assert IndexOf(players, actor) <= i;
  }

  lemma OneCloser(i: nat, h: nat, n: nat)
    requires i < n && h < n && i != h
    ensures Distance(SeatAfter(i, n), h, n) == Distance(i, h, n) - 1 && 1 <= Distance(i, h, n)
  {}

  lemma NextSeat(players: seq<Player>, current: Id, h: nat)
    requires DistinctActors(players) && IsPlayer(players, current) && h < |players| && players[h].actor != current
    ensures IndexOf(players, current) < |players| && IndexOf(players, NextPlayer(players, current)) < |players|
    ensures Distance(IndexOf(players, NextPlayer(players, current)), h, |players|)
            == Distance(IndexOf(players, current), h, |players|) - 1
    ensures 1 <= Distance(IndexOf(players, current), h, |players|)
  {
    PlayerHasSeat(players, current);
    OneCloser(IndexOf(players, current), h, |players|);
    SeatOfPlayer(players, SeatAfter(IndexOf(players, current), |players|));
  }

  /** The same players, the next one to move, at the start of a turn. */
  ghost predicate Passed(s: State, t: State) {
    && |t.players| == |s.players| && (forall i :: 0 <= i < |s.players| ==> t.players[i].actor == s.players[i].actor)
    && (t.phase != Finished ==> t.current == NextPlayer(s.players, s.current) && t.phase == PlaceTile)
  }

  lemma ResolvePasses(cat: Catalog, s: State)
    requires DistinctActors(s.players) && IsPlayer(s.players, s.current) && s.currentTile.None?
    ensures Passed(s, Resolve(cat, s))
  {
    TurnPasses(cat, s);
    ResolveKeepsTiles(cat, s);
    ResolveConserves(cat, s);
    KeptActors(s, Resolve(cat, s));
  }

  lemma PassedShortens(s: State, t: State, h: nat)
    requires DistinctActors(s.players) && IsPlayer(s.players, s.current) && s.phase == PlaceMeeple && Passed(s, t)
    requires h < |s.players| && s.players[h].actor != s.current
    ensures IndexOf(s.players, s.current) < |s.players| && Waiting(s, h) >= 1
    ensures t.phase != Finished ==> IndexOf(t.players, t.current) < |t.players| && Waiting(t, h) == Waiting(s, h) - 1
  {
    NextSeat(s.players, s.current, h);
    SeatsKept(s.players, t.players, t.current);
  }

  /** Every accepted action of somebody else brings the turn of seat h closer. */
  lemma StepShortensWait(cat: Catalog, room: Id, members: seq<Id>, s: State, a: Action, h: nat)
    requires Inv(cat, members, s) && s.phase != Finished && Step(cat, room, members, s, s.current, a).Done?
    requires h < |members| && members[h] != s.current
    ensures var t := Step(cat, room, members, s, s.current, a).state;
            && IndexOf(s.players, s.current) < |s.players| && Waiting(s, h) >= 1
            && |t.players| == |s.players|
            && (t.phase != Finished ==>
                IndexOf(t.players, t.current) < |t.players| && Waiting(t, h) == Waiting(s, h) - 1)
  {
    if a.PlaceTileAction? {
      NextSeat(s.players, s.current, h);
    } else if a.SkipMeepleAction? {
      ResolvePasses(cat, s);
      PassedShortens(s, Resolve(cat, s), h);
    } else {
      MeepleShortensWait(cat, room, members, s, a, h);
    }
  }

  lemma MeepleShortensWait(cat: Catalog, room: Id, members: seq<Id>, s: State, a: Action, h: nat)
    requires Inv(cat, members, s) && a.PlaceMeepleAction? && Step(cat, room, members, s, s.current, a).Done?
    requires h < |members| && members[h] != s.current
    ensures var t := Step(cat, room, members, s, s.current, a).state;
            && IndexOf(s.players, s.current) < |s.players| && Waiting(s, h) >= 1
            && |t.players| == |s.players|
            && (t.phase != Finished ==>
                IndexOf(t.players, t.current) < |t.players| && Waiting(t, h) == Waiting(s, h) - 1)
  {
    PlacingMeepleKeeps(cat, room, members, s, s.current, a);
    var m := NewMeeple(s.last.value, ZoneOfTile(cat, s.last.value, a.zone).value, s.current, a.kind);
    var put := WithMeeple(s, m);
    ChangeKeepsActors(s.players, m.actor, m.kind, -1);
    SeatsKept(s.players, put.players, s.current);
    ResolvePasses(cat, put);
    PassedShortens(put, Resolve(cat, put), h);
  }

  // ---------------------------------------------------------------- the loop

  /** A bot is to move. */
  predicate BotToMove(phase: Phase, current: Id, bots: set<Id>) {
    phase in {PlaceTile, PlaceMeeple} && current in bots
  }

  /** With a human at the table the loop always ends with a human to move or a finished match, never at its bound. */
  method ApplyAutomaticBotTurns(game: Game, members: seq<Id>, bots: set<Id>, ghost human: nat)
    returns (ok: bool, es: seq<Event>, step: nat)
    requires game.Reached(members) && |members| <= MAX_SEATS && human < |members| && members[human] !in bots
    modifies game, game.players, game.slots
    ensures game.Reached(members)
    ensures ok && !BotToMove(game.phase, game.current, bots) && step <= 2 * (|members| - 1)
  {
    es, step := [], 0;
    Bounded(game.cat, members, game.View(), human);
    while step < MAX_BOT_TURN_STEPS && BotToMove(game.phase, game.current, bots)
      invariant game.Reached(members) && (game.slots == old(game.slots) || fresh(game.slots))
      invariant step <= 2 * (|members| - 1)
      invariant InTime(members, game.View(), human, step)
      decreases MAX_BOT_TURN_STEPS - step
    {
      ghost var s := game.View();
      var a := BuildBotAction(game, members);
      BotActionAccepted(game.cat, game.room, members, s, a);
      StepShortensWait(game.cat, game.room, members, s, a, human);
      var err, more := game.ApplyAction(members, game.current, a);
      es := es + more;
      step := step + 1;
    }
    ok := !BotToMove(game.phase, game.current, bots);
  }

  /** The steps done and the steps still to wait for stay within two per other seat. */
  ghost predicate InTime(members: seq<Id>, s: State, h: nat, step: nat) {
    && |s.players| == |members| && h < |members|
    && (s.phase != Finished ==>
        IndexOf(s.players, s.current) < |s.players| && step + Waiting(s, h) <= 2 * (|members| - 1))
  }

  lemma Bounded(cat: Catalog, members: seq<Id>, s: State, h: nat)
    requires Inv(cat, members, s) && h < |members|
    ensures InTime(members, s, h, 0)
  {
    if s.phase != Finished {
      var i :| 0 <= i < |s.players| && s.players[i].actor == s.current;
      assert IndexOf(s.players, s.current) <= i;
    }
  }
}
