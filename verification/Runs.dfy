/** Whole runs of a match: safety, conservation, progress and termination. */
module Runs {
  import opened Tiles
  import opened Graphs
  import opened Topology
  import opened Pieces
  import opened Placements
  import opened MeeplePlacements
  import opened GameStates
  import opened TurnScoring
  import opened Rules
  import opened Sorting
  import opened Conservation
  import opened Invariants

  // ---------------------------------------------------------------- one step

  lemma StepKeepsInv(cat: Catalog, room: Id, members: seq<Id>, s: State, actor: Id, a: Action)
    requires Inv(cat, members, s) && Step(cat, room, members, s, actor, a).Done?
    ensures Inv(cat, members, Step(cat, room, members, s, actor, a).state)
  {
    match a
    case PlaceTileAction(_, x, y, rotation) =>
      PlacingKeepsInv(cat, members, s, actor, x, y, rotation);
    case PlaceMeepleAction(_, _, zone, _, kind) =>
      PlacingMeepleKeeps(cat, room, members, s, actor, a);
      ResolveKeepsInv(cat, members,
          WithMeeple(s, NewMeeple(s.last.value, ZoneOfTile(cat, s.last.value, zone).value, actor, kind)));
    case SkipMeepleAction(_) =>
      ResolveKeepsInv(cat, members, s);
    case UnknownAction =>
  }

  lemma StepConserves(cat: Catalog, room: Id, members: seq<Id>, s: State, actor: Id, a: Action)
    requires Inv(cat, members, s) && Step(cat, room, members, s, actor, a).Done?
    ensures var t := Step(cat, room, members, s, actor, a).state;
            MeeplesKept(s, t) && TileBag(t) == TileBag(s)
  {
    match a
    case PlaceTileAction(_, x, y, rotation) =>
      PlacingKeepsTiles(s, actor, x, y, rotation);
      KeptSame(s);
      SamePieces(s, s, s, WithTile(s, NewTile(s, actor, x, y, rotation)));
    case PlaceMeepleAction(_, _, zone, _, kind) =>
      AcceptedZone(cat, room, s, actor, a);
      PlacedWasLeft(s.players, actor, kind);
      var m := NewMeeple(s.last.value, ZoneOfTile(cat, s.last.value, zone).value, actor, kind);
      PlacingKeepsMeeples(s, m);
      KeptActors(s, WithMeeple(s, m));
      ResolveConserves(cat, WithMeeple(s, m));
      KeptTransitive(s, WithMeeple(s, m), Resolve(cat, WithMeeple(s, m)));
      ResolveKeepsTiles(cat, WithMeeple(s, m));
    case SkipMeepleAction(_) =>
      ResolveConserves(cat, s);
      ResolveKeepsTiles(cat, s);
    case UnknownAction =>
  }

  lemma ResolveKeepsTiles(cat: Catalog, s: State)
    requires s.currentTile.None?
    ensures TileBag(Resolve(cat, s)) == TileBag(s) && Resolve(cat, s).board == s.board
    ensures |Resolve(cat, s).deck| + (if Resolve(cat, s).currentTile.Some? then 1 else 0) == |s.deck|
    ensures Resolve(cat, s).phase in {PlaceTile, Finished}
  {
    var s1 := s.(phase := ResolveTurn);
    ScoreTurnKeeps(cat, s1);
    FinishKeepsTiles(cat, ScoreTurn(cat, s1));
  }

  /** How many more actions can be accepted at most. */
  function ActionsLeft(s: State): nat {
    2 * (|s.deck| + (if s.currentTile.Some? then 1 else 0)) + (if s.phase == PlaceMeeple then 1 else 0)
  }

  lemma ResolveCounts(cat: Catalog, s: State)
    requires s.currentTile.None? && s.phase == PlaceMeeple
    ensures ActionsLeft(Resolve(cat, s)) == ActionsLeft(s) - 1
  {
    ResolveKeepsTiles(cat, s);
  }

  /** Every accepted action uses up exactly one. */
  lemma StepCounts(cat: Catalog, room: Id, members: seq<Id>, s: State, actor: Id, a: Action)
    requires Inv(cat, members, s) && Step(cat, room, members, s, actor, a).Done?
    ensures ActionsLeft(Step(cat, room, members, s, actor, a).state) == ActionsLeft(s) - 1
  {
    if a.PlaceMeepleAction? {
      AcceptedZone(cat, room, s, actor, a);
      ResolveCounts(cat,
          WithMeeple(s, NewMeeple(s.last.value, ZoneOfTile(cat, s.last.value, a.zone).value, actor, a.kind)));
    } else if a.SkipMeepleAction? {
      ResolveCounts(cat, s);
    }
  }

  // ---------------------------------------------------------------- runs

  datatype Request = Request(actor: Id, action: Action)

  /** Refused requests leave the state alone. */
  ghost function After(cat: Catalog, room: Id, members: seq<Id>, s: State, r: Request): State
    requires ValidCatalog(cat)
  {
    var o := Step(cat, room, members, s, r.actor, r.action);
    if o.Done? then o.state else s
  }

  /** Any requests, by anybody, accepted or not. */
  ghost function Run(cat: Catalog, room: Id, members: seq<Id>, s: State, rs: seq<Request>): State
    requires ValidCatalog(cat)
  {
    if rs == [] then s else After(cat, room, members, Run(cat, room, members, s, rs[..|rs| - 1]), rs[|rs| - 1])
  }

  ghost function Accepted(cat: Catalog, room: Id, members: seq<Id>, s: State, rs: seq<Request>): nat
    requires ValidCatalog(cat)
  {
    if rs == [] then 0
    else
      var init, r := rs[..|rs| - 1], rs[|rs| - 1];
      Accepted(cat, room, members, s, init)
      + (if Step(cat, room, members, Run(cat, room, members, s, init), r.actor, r.action).Done? then 1 else 0)
  }

  /** The invariant holds throughout; tiles and meeples are conserved; accepted actions are counted down one by one. */
  lemma {:induction false} RunIsSafe(cat: Catalog, room: Id, members: seq<Id>, s: State, rs: seq<Request>)
    requires Inv(cat, members, s)
    ensures var t := Run(cat, room, members, s, rs);
            && Inv(cat, members, t)
            && MeeplesKept(s, t) && TileBag(t) == TileBag(s)
            && Accepted(cat, room, members, s, rs) + ActionsLeft(t) == ActionsLeft(s)
  {
    KeptSame(s);
    if rs != [] {
      var init, r := rs[..|rs| - 1], rs[|rs| - 1];
      RunIsSafe(cat, room, members, s, init);
      var mid := Run(cat, room, members, s, init);
      if Step(cat, room, members, mid, r.actor, r.action).Done? {
        StepKeepsInv(cat, room, members, mid, r.actor, r.action);
        StepConserves(cat, room, members, mid, r.actor, r.action);
        StepCounts(cat, room, members, mid, r.actor, r.action);
        KeptTransitive(s, mid, Run(cat, room, members, s, rs));
      }
    }
  }

  /** A match with n tiles to place is over after at most 2n accepted actions. */
  lemma MatchIsFinite(cat: Catalog, room: Id, members: seq<Id>, s: State, rs: seq<Request>)
    requires Inv(cat, members, s) && s.phase == PlaceTile
    ensures Accepted(cat, room, members, s, rs) <= 2 * (|s.deck| + 1)
    ensures Accepted(cat, room, members, s, rs) == 2 * (|s.deck| + 1) ==>
              Run(cat, room, members, s, rs).phase == Finished
  {
    RunIsSafe(cat, room, members, s, rs);
  }

  /** After every turn the whole board is settled: scoring any features again, anywhere, changes nothing. */
  lemma {:induction false} RescanChangesNothing(cat: Catalog, members: seq<Id>, s: State, kind: Kind,
                                                refs: seq<ZoneRef>)
    requires Inv(cat, members, s) && s.phase == PlaceTile && kind in {Road, City}
    requires forall r :: r in refs ==> KindOf(cat, s.board, r) == Some(kind)
    ensures ScoreFeatures(cat, s, kind, refs) == s
    ensures CompleteMonks(cat, s.board, s.meeples) == []
  {
    if refs != [] {
      var ref := refs[|refs| - 1];
      RescanChangesNothing(cat, members, s, kind, refs[..|refs| - 1]);
      assert ref in refs;
      FeatureIsSettled(cat, members, s, kind, ref);
      SettledNoChange(cat, s, kind, ref);
    }
    NoCompleteMonks(cat, s.board, s.meeples);
  }

  lemma FeatureIsSettled(cat: Catalog, members: seq<Id>, s: State, kind: Kind, ref: ZoneRef)
    requires Inv(cat, members, s) && s.phase == PlaceTile && kind in {Road, City}
    requires KindOf(cat, s.board, ref) == Some(kind)
    ensures Settled(cat, s, ref)
  {
    ResolvesIff(cat, s.board, ref);
    NeighborsSymmetric(cat, s.board);
    if Closed(cat, s.board, ref) && Occupied(s.meeples, Class(cat, s.board, ref)) {
      var m :| m in s.meeples && m.Ref() in Class(cat, s.board, ref);
      ClassHasOneKind(cat, s.board, ref, m.Ref());
      SameComponent(ZoneGraph(cat, s.board), ref, m.Ref());
      var on := OnClosed(cat, s.board, m);
    }
  }

  lemma {:induction false} NoCompleteMonks(cat: Catalog, b: Board, ms: seq<Meeple>)
    requires forall m :: m in ms ==> !OnCompleteMonastery(cat, b, m)
    ensures CompleteMonks(cat, b, ms) == []
  {
    if ms != [] {
      assert ms[|ms| - 1] in ms;
      NoCompleteMonks(cat, b, ms[..|ms| - 1]);
    }
  }

  /** A finished match has no meeple on the board and everybody holds all meeples again. */
  lemma FinishedHandsAreFull(cat: Catalog, room: Id, members: seq<Id>, s: State, rs: seq<Request>, i: nat, big: bool)
    requires Inv(cat, members, s) && s.meeples == [] && i < |s.players|
    requires Run(cat, room, members, s, rs).phase == Finished
    ensures var t := Run(cat, room, members, s, rs);
            t.meeples == [] && |t.players| == |s.players| &&
            HandCount(t.players[i], big) == HandCount(s.players[i], big)
  {
    RunIsSafe(cat, room, members, s, rs);
    assert KeptAt(s, Run(cat, room, members, s, rs), i, big);
  }

  // ---------------------------------------------------------------- progress

  /** The current player is always a member and, while the match is active, always has an acceptable action. */
  lemma NotStuck(cat: Catalog, room: Id, members: seq<Id>, s: State)
    returns (a: Action)
    requires Inv(cat, members, s) && s.phase != Finished
    ensures s.current in members && Step(cat, room, members, s, s.current, a).Done?
  {
    CurrentIsMember(members, s);
    if s.phase == PlaceTile {
      var x, y, r :| IsValidRotation(r) && CanPlaceTile(cat, s.currentTile.value.tile, x, y, r, s.board);
      a := PlaceTileAction("", x, y, r);
    } else {
      a := SkipMeepleAction("");
    }
  }

  lemma CurrentIsMember(members: seq<Id>, s: State)
    requires PlayersFit(members, s.players) && IsPlayer(s.players, s.current)
    ensures s.current in members && s.current != ""
  {
    var i :| 0 <= i < |s.players| && s.players[i].actor == s.current;
    assert members[i] == s.current;
  }

  // ---------------------------------------------------------------- listed meeple placements

  /** The action names an entry of the list of meeple placements: its zone, its segment or none, and one of its
      types. */
  ghost predicate NamesEntry(cat: Catalog, s: State, a: Action, p: MeeplePlacement)
    requires a.PlaceMeepleAction? && s.last.Some?
  {
    && p.tile == s.last.value.instance && (a.tile == "" || a.tile == p.tile) && a.zone == p.zone
    && (a.segment.None? || a.segment == p.segment)
    && NormalizeMeepleType(NormalizeMeepleType(a.kind)) in p.types
  }

  /** p is listed for the current player. */
  ghost predicate IsListed(cat: Catalog, s: State, p: MeeplePlacement) {
    && s.last.Some? && s.last.value.tile in cat
    && var zones := cat[s.last.value.tile].zones;
       FreeEntry(cat, s.board, s.meeples, s.last.value, zones, |zones|, AvailableMeepleTypes(s.players, s.current), p)
  }

  /** Whatever meeple action the current player asks for, it is accepted if and only if it names a listed placement. */
  lemma ListedIsAccepted(cat: Catalog, room: Id, members: seq<Id>, s: State, a: Action)
    requires Inv(cat, members, s) && s.phase == PlaceMeeple && a.PlaceMeepleAction?
    ensures Step(cat, room, members, s, s.current, a).Done? <==>
            Rules.RoomFits(a.room, room) && exists p :: IsListed(cat, s, p) && NamesEntry(cat, s, a, p)
  {
    CurrentIsMember(members, s);
    var types := AvailableMeepleTypes(s.players, s.current);
    if Step(cat, room, members, s, s.current, a).Done? {
      var p := AcceptedIsListed(cat, room, s, a);
    }
    if p :| Rules.RoomFits(a.room, room) && IsListed(cat, s, p) && NamesEntry(cat, s, a, p) {
      ListedMayStand(cat, room, s, a, p);
    }
  }

  lemma AcceptedIsListed(cat: Catalog, room: Id, s: State, a: Action) returns (p: MeeplePlacement)
    requires ValidCatalog(cat) && a.PlaceMeepleAction? && MeepleAccepted(cat, room, s, s.current, a)
    ensures IsListed(cat, s, p) && NamesEntry(cat, s, a, p)
  {
    AcceptedZone(cat, room, s, s.current, a);
    var t := s.last.value;
    var zones, z := cat[t.tile].zones, ZoneOfTile(cat, t, a.zone).value;
    p := EntryFor(t, z, AvailableMeepleTypes(s.players, s.current));
    var k :| 0 <= k < |zones| && zones[k] == z;
  }

  lemma ListedMayStand(cat: Catalog, room: Id, s: State, a: Action, p: MeeplePlacement)
    requires ValidCatalog(cat) && a.PlaceMeepleAction? && s.phase == PlaceMeeple && Rules.RoomFits(a.room, room)
    requires IsListed(cat, s, p) && NamesEntry(cat, s, a, p)
    ensures MeepleAccepted(cat, room, s, s.current, a)
  {
    var t := s.last.value;
    var zones := cat[t.tile].zones;
    var k :| 0 <= k < |zones| && p == EntryFor(t, zones[k], AvailableMeepleTypes(s.players, s.current)) &&
             FreeSpot(cat, s.board, s.meeples, t, zones[k].id);
    FindZoneMeaning(cat[t.tile], zones[k].id, zones[k]);
  }

  /** A meeple of an unknown type is accepted exactly where a regular one is. */
  lemma UnknownTypeIsRegular(cat: Catalog, room: Id, members: seq<Id>, s: State, actor: Id, a: Action)
    requires ValidCatalog(cat) && a.PlaceMeepleAction? && a.kind != Big
    ensures Step(cat, room, members, s, actor, a).Done? <==>
              Step(cat, room, members, s, actor, a.(kind := Regular)).Done?
  {}

  // ---------------------------------------------------------------- timeouts

  /** What a timeout does in the tile phase: some legal placement, and the turn is resolved without a meeple. */
  ghost predicate TimeoutResult(cat: Catalog, s: State, t: State) {
    if s.phase == PlaceTile then
      s.currentTile.Some? &&
      exists x, y, r :: r in ROTATIONS && CanPlaceTile(cat, s.currentTile.value.tile, x, y, r, s.board)
        && t == Resolve(cat, WithTile(s, NewTile(s, s.current, x, y, r)))
    else s.phase == PlaceMeeple && t == Resolve(cat, s)
  }

  /** In the tile phase a timeout is a legal placement by the current player followed by a skip. */
  lemma TimeoutIsPlaceAndSkip(cat: Catalog, room: Id, members: seq<Id>, s: State, t: State)
    returns (place: Action)
    requires Inv(cat, members, s) && s.phase == PlaceTile && TimeoutResult(cat, s, t)
    ensures var first := Step(cat, room, members, s, s.current, place);
            && first.Done? && first.state.phase == PlaceMeeple && first.state.current == s.current
            && Step(cat, room, members, first.state, s.current, SkipMeepleAction(room)) == Done(t)
  {
    var x, y, r :| r in ROTATIONS && CanPlaceTile(cat, s.currentTile.value.tile, x, y, r, s.board)
      && t == Resolve(cat, WithTile(s, NewTile(s, s.current, x, y, r)));
    place := PlaceTileAction(room, x, y, r);
    FourRotations(r);
    CurrentIsMember(members, s);
    var mid := WithTile(s, NewTile(s, s.current, x, y, r));
    assert Step(cat, room, members, s, s.current, place) == Done(mid);
    StepKeepsInv(cat, room, members, s, s.current, place);
    TimeoutIsSkip(cat, room, members, mid);
  }

  lemma FourRotations(r: int)
    requires r in ROTATIONS
    ensures IsValidRotation(r) && NormalizeRotation(r) == r
  {}

  /** In the meeple phase a timeout is a skip. */
  lemma TimeoutIsSkip(cat: Catalog, room: Id, members: seq<Id>, s: State)
    requires Inv(cat, members, s) && s.phase == PlaceMeeple
    ensures Step(cat, room, members, s, s.current, SkipMeepleAction(room)) == Done(Resolve(cat, s))
  {
    CurrentIsMember(members, s);
    SkipIsAccepted(cat, room, members, s);
  }

  lemma SkipIsAccepted(cat: Catalog, room: Id, members: seq<Id>, s: State)
    requires ValidCatalog(cat) && s.phase == PlaceMeeple && s.last.Some? && s.current in members
    ensures Step(cat, room, members, s, s.current, SkipMeepleAction(room)) == Done(Resolve(cat, s))
  {}

  /** A timeout keeps the invariant, counts as the actions it stands for and conserves tiles and meeples. */
  lemma TimeoutKeepsInv(cat: Catalog, room: Id, members: seq<Id>, s: State, t: State)
    requires Inv(cat, members, s) && TimeoutResult(cat, s, t)
    ensures Inv(cat, members, t) && MeeplesKept(s, t) && TileBag(t) == TileBag(s) && ActionsLeft(t) < ActionsLeft(s)
  {
    var mid, rs := s, [];
    if s.phase == PlaceTile {
      var place := TimeoutIsPlaceAndSkip(cat, room, members, s, t);
      rs := [Request(s.current, place)];
      mid := Step(cat, room, members, s, s.current, place).state;
      assert rs[..0] == [];
      RunIsSafe(cat, room, members, s, rs);
    } else {
      KeptSame(s);
    }
    var skip := SkipMeepleAction(room);
    TimeoutIsSkip(cat, room, members, mid);
    StepKeepsInv(cat, room, members, mid, s.current, skip);
    StepConserves(cat, room, members, mid, s.current, skip);
    StepCounts(cat, room, members, mid, s.current, skip);
    KeptTransitive(s, mid, t);
  }

  // ---------------------------------------------------------------- the start of a match

  const MEEPLES_PER_PLAYER := 7
  const BIG_MEEPLES_PER_PLAYER := 1

  /** Seats in order, everybody with a full hand. */
  function StartPlayers(members: seq<Id>, inns: bool): (r: seq<Player>)
    ensures |r| == |members|
  {
    seq(|members|, i requires 0 <= i < |members| =>
      Player(members[i], i, 0, MEEPLES_PER_PLAYER, if inns then BIG_MEEPLES_PER_PLAYER else 0))
  }

  function StartTile(instance: Id): PlacedTile {
    PlacedTile(instance, START_TILE_ID, 0, 0, 0, "", 0)
  }

  /** The draw gives the first tile that fits and puts the ones passed over at the end. */
  ghost predicate DrawsFirst(cat: Catalog, deck: seq<Instance>, b: Board, tile: Instance, rest: seq<Instance>) {
    exists k :: && 0 <= k < |deck| && Placeable(cat, deck[k].tile, b)
                && (forall j :: 0 <= j < k ==> !Placeable(cat, deck[j].tile, b))
                && tile == deck[k] && rest == deck[k + 1..] + deck[..k]
  }

  /** The first state: a tile is drawn that fits the start tile, or the match is over before it began. */
  ghost function Start(cat: Catalog, members: seq<Id>, inns: bool, instance: Id, deck: seq<Instance>): State {
    var b := [StartTile(instance)];
    var drawn := Drawn(cat, deck, b);
    State(if drawn.Some? then PlaceTile else Finished, 1,
          if drawn.Some? && members != [] then members[0] else "",
          StartPlayers(members, inns), b, Undrawn(cat, deck, b), drawn, None, [])
  }

  /** Every run starts inside the invariant; it starts finished exactly when no deck tile fits the start tile. */
  lemma StartIsSafe(cat: Catalog, members: seq<Id>, inns: bool, instance: Id, deck: seq<Instance>)
    requires ValidCatalog(cat) && members != []
    requires forall i :: 0 <= i < |members| ==> members[i] != ""
    requires NoTwice(members)
    requires UniqueIds(multiset{Instance(instance, START_TILE_ID)} + multiset(deck))
    ensures Inv(cat, members, Start(cat, members, inns, instance, deck))
    ensures Start(cat, members, inns, instance, deck).phase == Finished <==>
              Unplaceable(cat, deck, [StartTile(instance)])
    ensures Start(cat, members, inns, instance, deck).phase == PlaceTile ==>
              ActionsLeft(Start(cat, members, inns, instance, deck)) == 2 * |deck|
  {
    var s, b := Start(cat, members, inns, instance, deck), [StartTile(instance)];
    StartTiles(cat, members, inns, instance, deck);
    StartPhase(cat, deck, b);
    OneTileIsLegal(cat, b);
    StartPlayersFit(members, inns);
  }

  /** Seats are in the order of the members, with no points, seven meeples and, if the settings ask for them, one big
      meeple each. The start tile lies in the middle, and the first member moves. */
  lemma StartMeaning(cat: Catalog, members: seq<Id>, inns: bool, instance: Id, deck: seq<Instance>, i: nat)
    requires i < |members|
    ensures var s := Start(cat, members, inns, instance, deck);
            && |s.players| == |members| && s.players[i].actor == members[i] && s.players[i].seat == i
            && s.players[i].score == 0 && s.players[i].meeples == 7 && s.meeples == []
            && s.players[i].bigMeeples == (if inns then 1 else 0) && s.last.None?
            && |s.board| == 1 && s.board[0].instance == instance && s.board[0].tile == "start_tile"
            && s.board[0].x == 0 && s.board[0].y == 0 && s.board[0].rotation == 0 && s.turn == 1
            && (if Unplaceable(cat, deck, s.board) then
                  s.phase == Finished && s.current == "" && s.currentTile.None? && s.deck == deck
                else
                  && s.phase == PlaceTile && s.current == members[0] && s.currentTile.Some?
                  && DrawsFirst(cat, deck, s.board, s.currentTile.value, s.deck))
  {
    StartPhase(cat, deck, [StartTile(instance)]);
  }

  lemma StartPhase(cat: Catalog, deck: seq<Instance>, b: Board)
    ensures var d := Drawn(cat, deck, b);
            && (d.None? <==> Unplaceable(cat, deck, b)) && (d.None? ==> Unplaceable(cat, Undrawn(cat, deck, b), b))
            && (d.Some? ==> Placeable(cat, d.value.tile, b) && |Undrawn(cat, deck, b)| == |deck| - 1)
  {
    DrawIs(cat, deck, b, Drawn(cat, deck, b), Undrawn(cat, deck, b));
    DrawConserves(cat, deck, b, Drawn(cat, deck, b), Undrawn(cat, deck, b));
  }

  lemma StartTiles(cat: Catalog, members: seq<Id>, inns: bool, instance: Id, deck: seq<Instance>)
    ensures TileBag(Start(cat, members, inns, instance, deck)) == multiset{Instance(instance, START_TILE_ID)}
            + multiset(deck)
  {
    var b := [StartTile(instance)];
    DrawIs(cat, deck, b, Drawn(cat, deck, b), Undrawn(cat, deck, b));
    DrawConserves(cat, deck, b, Drawn(cat, deck, b), Undrawn(cat, deck, b));
    assert b[..0] == [];
    assert BoardBag(b) == multiset{Instance(instance, START_TILE_ID)};
  }

  lemma StartPlayersFit(members: seq<Id>, inns: bool)
    requires members != [] && forall i :: 0 <= i < |members| ==> members[i] != ""
    requires NoTwice(members)
    ensures PlayersFit(members, StartPlayers(members, inns)) && HandsFit(StartPlayers(members, inns))
    ensures IsPlayer(StartPlayers(members, inns), members[0])
  {
    assert StartPlayers(members, inns)[0].actor == members[0];
  }

  lemma OneTileIsLegal(cat: Catalog, b: Board)
    requires |b| == 1 && b[0].tile in cat && b[0].rotation in {0, 90, 180, 270}
    ensures LegalBoard(cat, b)
  {
    forall t, n, side | t in b && n in b
      ensures !Beside(t, n, side)
    {
      NotBesideItself(t, side);
    }
  }

  lemma NotBesideItself(t: PlacedTile, side: Side)
    ensures !Beside(t, t, side)
  {}
}
