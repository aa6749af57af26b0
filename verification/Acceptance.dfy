/** Which actions are accepted, said in terms of the board, the meeples on it and the hands of the players. */
module Acceptance {
  import opened Tiles
  import opened Graphs
  import opened Topology
  import opened Pieces
  import opened Placements
  import opened MeeplePlacements
  import opened GameStates
  import opened Rules
  import opened Conservation
  import opened Invariants
  import opened Runs

  /** The action is for this match, and this player is to move. */
  predicate MayMove(room: Id, s: State, actor: Id, given: Id) {
    actor == s.current && (given == "" || given == room)
  }

  // ---------------------------------------------------------------- refusals

  /** Nobody but the current player acts, and a finished match takes no action: only out of turn is the error another
      one. */
  lemma OutOfTurnIff(cat: Catalog, room: Id, members: seq<Id>, s: State, actor: Id, a: Action)
    requires Inv(cat, members, s)
    ensures Step(cat, room, members, s, actor, a) == Failed(NotYourTurn) <==> s.phase != Finished && actor != s.current
    ensures s.phase == Finished ==> Step(cat, room, members, s, actor, a) == Failed(InvalidMatchAction)
  {
    if s.phase != Finished { CurrentIsMember(members, s); }
  }

  // ---------------------------------------------------------------- tiles

  /** The tile in hand, put down. */
  function PutDown(s: State, x: int, y: int, rotation: int): PlacedTile
    requires s.currentTile.Some?
  {
    PlacedTile(s.currentTile.value.id, s.currentTile.value.tile, x, y, rotation % 360, s.current, s.turn)
  }

  lemma QuarterTurnsOnly(rotation: int)
    ensures IsValidRotation(rotation) <==> rotation % 90 == 0
    ensures NormalizeRotation(rotation) == rotation % 360
  {
    NormalizeIsRemainder(rotation);
    var q, r := rotation / 360, rotation % 360;
    assert rotation == 360 * q + r;
    if rotation % 90 == 0 {
      var k := rotation / 90;
      assert rotation == 90 * k && r == 90 * (k - 4 * q);
      assert 0 <= k - 4 * q < 4;
    }
    if IsValidRotation(rotation) {
      var k := if r == 0 then 0 else if r == 90 then 1 else if r == 180 then 2 else 3;
      assert rotation == 90 * (4 * q + k);
    }
  }

  /** A tile may be put down if and only if the board is legal with it; then it is the last tile, and everything else
      but the phase stays. */
  lemma PlaceTileDoneIff(cat: Catalog, room: Id, members: seq<Id>, s: State, actor: Id, given: Id, x: int, y: int,
                         rotation: int)
    requires Inv(cat, members, s)
    ensures var o := Step(cat, room, members, s, actor, PlaceTileAction(given, x, y, rotation));
            && (o.Done? <==> s.phase == PlaceTile && MayMove(room, s, actor, given) && rotation % 90 == 0 &&
                             LegalBoard(cat, s.board + [PutDown(s, x, y, rotation)]))
            && (o.Done? ==> o.state == s.(board := s.board + [PutDown(s, x, y, rotation)], currentTile := None,
                                          last := Some(PutDown(s, x, y, rotation)), phase := PlaceMeeple))
  {
    QuarterTurnsOnly(rotation);
    if s.phase == PlaceTile {
      CurrentIsMember(members, s);
      if rotation % 90 == 0 {
        InHandIffLegal(cat, members, s, x, y, rotation);
      }
    }
  }

  lemma InHandIffLegal(cat: Catalog, members: seq<Id>, s: State, x: int, y: int, rotation: int)
    requires Inv(cat, members, s) && s.phase == PlaceTile && IsValidRotation(rotation)
    ensures CanPlaceTile(cat, s.currentTile.value.tile, x, y, rotation, s.board) <==>
            LegalBoard(cat, s.board + [PutDown(s, x, y, rotation)])
  {
    var t := PutDown(s, x, y, rotation);
    QuarterTurnsOnly(rotation);
    RotationClass(cat, t.tile, x, y, rotation, s.board);
    CurrentIsNew(s);
    InHandIsKnown(cat, s);
    AcceptedIffLegal(cat, s.board, t);
  }

  lemma InHandIsKnown(cat: Catalog, s: State)
    requires AwaitsTile(cat, s)
    ensures s.currentTile.value.tile in cat
  {}

  // ---------------------------------------------------------------- meeples

  /** The player has a meeple of the type at hand. */
  predicate Holds(players: seq<Player>, actor: Id, kind: MeepleType) {
    exists i :: 0 <= i < |players| && players[i].actor == actor &&
                (if kind == Big then players[i].bigMeeples > 0 else players[i].meeples > 0)
  }

  lemma HoldsIff(players: seq<Player>, actor: Id, kind: MeepleType)
    requires DistinctActors(players)
    ensures HasMeepleLeft(players, actor, NormalizeMeepleType(kind)) <==> Holds(players, actor, kind)
  {
    if i :| 0 <= i < |players| && players[i].actor == actor &&
            (if kind == Big then players[i].bigMeeples > 0 else players[i].meeples > 0) {
      SeatOfPlayer(players, i);
    }
  }

  /** What a meeple claims: the whole road, city or field, or just its monastery. */
  ghost function Area(cat: Catalog, b: Board, kind: Kind, ref: ZoneRef): set<ZoneRef> {
    if kind == Monastery then {ref} else Class(cat, b, ref)
  }

  /** The zone is one of the last tile, of a kind that scores, and the segment asked for is the one drawn. */
  ghost predicate Names(cat: Catalog, s: State, a: Action, z: ZoneDef)
    requires a.PlaceMeepleAction? && s.last.Some?
  {
    && s.last.value.tile in cat && z in cat[s.last.value.tile].zones && z.id == a.zone
    && z.kind in {Road, City, Field, Monastery} && (a.tile == "" || a.tile == s.last.value.instance)
    && (a.segment.Some? ==> a.segment == PlacementSegment(z, s.last.value.rotation))
  }

  /** The meeple that is put down: big if that was asked for, regular in all other cases. */
  function PutOn(s: State, a: Action, z: ZoneDef): Meeple
    requires a.PlaceMeepleAction? && s.last.Some? && z.segments != []
  {
    Meeple(s.last.value.instance, z.id, s.current, NormalizeMeepleType(a.kind), z.kind,
           PlacementSegment(z, s.last.value.rotation).value)
  }

  lemma MeepleStep(cat: Catalog, room: Id, members: seq<Id>, s: State, actor: Id, a: Action, z: ZoneDef)
    requires Inv(cat, members, s) && a.PlaceMeepleAction? && s.phase == PlaceMeeple && Names(cat, s, a, z)
    ensures z.segments != []
    ensures Step(cat, room, members, s, actor, a) ==
            if actor != s.current then Failed(NotYourTurn)
            else if !MeepleAccepted(cat, room, s, actor, a) then Failed(InvalidMatchAction)
            else Done(Resolve(cat, WithMeeple(s, PutOn(s, a, z))))
  {
    CurrentIsMember(members, s);
    ZoneNamed(cat, s.last.value, z);
  }

  lemma OnlyOneThere(ms: seq<Meeple>, m: Meeple, zones: set<ZoneRef>)
    requires Taken(ms, zones) == [] && m.Ref() in zones
    ensures Taken(ms + [m], zones) == [m]
  {
    assert (ms + [m])[..|ms|] == ms;
  }

  lemma AcceptedIffFree(cat: Catalog, room: Id, members: seq<Id>, s: State, a: Action, z: ZoneDef)
    requires Inv(cat, members, s) && a.PlaceMeepleAction? && s.phase == PlaceMeeple && Names(cat, s, a, z)
    ensures var area := Area(cat, s.board, z.kind, ZoneRef(s.last.value.instance, z.id));
            && ZoneRef(s.last.value.instance, z.id) in area
            && (MeepleAccepted(cat, room, s, s.current, a) <==>
                  (a.room == "" || a.room == room) && Holds(s.players, s.current, a.kind) &&
                  Taken(s.meeples, area) == [])
  {
    HoldsIff(s.players, s.current, a.kind);
    var ref := ZoneRef(s.last.value.instance, z.id);
    ZoneNamed(cat, s.last.value, z);
    FreeIffNoneTaken(cat, s, z, ref);
    Reflexive(ZoneGraph(cat, s.board), ref);
  }

  /** A meeple may be put down if and only if the player holds one, and nobody stands on the road, city or field that
      the zone belongs to. Then it is the only one there. */
  lemma PlaceMeepleDoneIff(cat: Catalog, room: Id, members: seq<Id>, s: State, actor: Id, a: Action, z: ZoneDef)
    requires Inv(cat, members, s) && a.PlaceMeepleAction? && s.phase == PlaceMeeple && Names(cat, s, a, z)
    ensures var o := Step(cat, room, members, s, actor, a);
            var area := Area(cat, s.board, z.kind, ZoneRef(s.last.value.instance, z.id));
            && (o.Done? <==> MayMove(room, s, actor, a.room) && Holds(s.players, actor, a.kind) &&
                             Taken(s.meeples, area) == [])
            && z.segments != []
            && (o.Done? ==> Taken(s.meeples + [PutOn(s, a, z)], area) == [PutOn(s, a, z)] &&
                            o.state == Resolve(cat, s.(meeples := s.meeples + [PutOn(s, a, z)],
                                                       players := ChangeHand(s.players, actor, a.kind, -1))))
  {
    MeepleStep(cat, room, members, s, actor, a, z);
    AcceptedIffFree(cat, room, members, s, a, z);
    if actor == s.current && MeepleAccepted(cat, room, s, actor, a) {
      OnlyOneThere(s.meeples, PutOn(s, a, z), Area(cat, s.board, z.kind, ZoneRef(s.last.value.instance, z.id)));
      SameHand(s.players, actor, a.kind);
    }
  }

  lemma ZoneNamed(cat: Catalog, t: PlacedTile, z: ZoneDef)
    requires ValidCatalog(cat) && t.tile in cat && z in cat[t.tile].zones
    ensures ZoneOfTile(cat, t, z.id) == Some(z) && z.segments != [] && z.id != ""
  {
    FindZoneMeaning(cat[t.tile], z.id, z);
    var i :| 0 <= i < |cat[t.tile].zones| && cat[t.tile].zones[i] == z;
    assert ValidZone(cat[t.tile].zones[i], cat[t.tile].edges);
  }

  lemma SameHand(players: seq<Player>, actor: Id, kind: MeepleType)
    ensures ChangeHand(players, actor, NormalizeMeepleType(kind), -1) == ChangeHand(players, actor, kind, -1)
  {}

  lemma FreeIffNoneTaken(cat: Catalog, s: State, z: ZoneDef, ref: ZoneRef)
    requires ValidCatalog(cat) && WellPlaced(cat, s.board) && s.last.Some? && s.last.value in s.board
    requires s.last.value.tile in cat && z in cat[s.last.value.tile].zones
    requires ref == ZoneRef(s.last.value.instance, z.id)
    requires z.kind in {Road, City, Field, Monastery}
    ensures FreeSpot(cat, s.board, s.meeples, s.last.value, z.id) <==>
            Taken(s.meeples, Area(cat, s.board, z.kind, ref)) == []
    ensures ref in Zones(cat, s.board)
  {
    ZoneNamed(cat, s.last.value, z);
    Resolves(cat, s.board, ref, PlacedZone(s.last.value, z));
    NoneTaken(s.meeples, Area(cat, s.board, z.kind, ref));
  }

  lemma {:induction false} NoneTaken(ms: seq<Meeple>, zones: set<ZoneRef>)
    ensures Taken(ms, zones) == [] <==> !Occupied(ms, zones)
  {
    if ms != [] {
      var init, m := ms[..|ms| - 1], ms[|ms| - 1];
      NoneTaken(init, zones);
      assert ms == init + [m];
      if k :| k in init && k.Ref() in zones { assert k in ms; }
      if m.Ref() in zones { assert m in ms; }
    }
  }

  /** An accepted meeple action names such a zone. */
  lemma AcceptedNames(cat: Catalog, room: Id, members: seq<Id>, s: State, actor: Id, a: Action)
    returns (z: ZoneDef)
    requires Inv(cat, members, s) && a.PlaceMeepleAction? && Step(cat, room, members, s, actor, a).Done?
    ensures s.phase == PlaceMeeple && s.last.Some? && Names(cat, s, a, z)
  {
    AcceptedZone(cat, room, s, actor, a);
    z := ZoneOfTile(cat, s.last.value, a.zone).value;
  }

  /** A turn may be ended without a meeple whenever one could be put down. */
  lemma SkipDoneIff(cat: Catalog, room: Id, members: seq<Id>, s: State, actor: Id, given: Id)
    requires Inv(cat, members, s)
    ensures var o := Step(cat, room, members, s, actor, SkipMeepleAction(given));
            && (o.Done? <==> s.phase == PlaceMeeple && MayMove(room, s, actor, given))
            && (o.Done? ==> o.state == Resolve(cat, s))
  {
    if s.phase != Finished { CurrentIsMember(members, s); }
  }

  // ---------------------------------------------------------------- what a hand loses

  /** Putting a meeple down takes exactly one meeple of its kind from the hand of its owner. */
  lemma HandLosesOne(players: seq<Player>, actor: Id, kind: MeepleType, i: nat)
    requires DistinctActors(players) && i < |players|
    ensures var p, q := players[i], ChangeHand(players, actor, kind, -1)[i];
            q == if p.actor != actor then p
                 else if kind == Big then p.(bigMeeples := p.bigMeeples - 1)
                 else p.(meeples := p.meeples - 1)
  {
    if players[i].actor == actor { SeatOfPlayer(players, i); }
  }
}
