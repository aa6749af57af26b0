/** Concrete runs of the whole system: two rooms at once, a match that is over before it begins, and two matches mixed
    up. */
module Scenarios {
  import opened Tiles
  import opened Catalogs
  import opened Sorting
  import opened Topology
  import opened Placements
  import opened MeeplePlacements
  import opened GameStates
  import opened TurnScoring
  import opened Conservation
  import opened Runs
  import opened Database
  import opened Transactions
  import opened Protocol
  import opened Matches
  import opened Lifecycles

  // ---------------------------------------------------------------- a small catalog

  const MEADOW: Id := "meadow"

  /** A tile that is nothing but field. */
  function Plain(id: Id, count: int): TileDef {
    TileDef(id, "image", count, Edges(Field, Field, Field, Field), [ZoneDef("field", Field, BOUNDARY, false, false)])
  }

  /** The start tile alone. */
  const START_ONLY: Catalog := map[START_TILE_ID := Plain(START_TILE_ID, 0)]

  /** The start tile and one tile that fits anywhere. */
  const MEADOWS: Catalog := map[START_TILE_ID := Plain(START_TILE_ID, 0), MEADOW := Plain(MEADOW, 2)]

  lemma PlainIsValid(id: Id, count: int)
    requires id != "" && 0 <= count
    ensures ValidDef(Plain(id, count))
  {
    var def := Plain(id, count);
    BoundaryHasNothingTwice();
    BoundaryIsAllButCenter(TopCenter);
    forall s: Segment | s != Center
      ensures ValidAt(def, s)
    {
      BoundaryIsAllButCenter(s);
      assert s in def.zones[0].segments && SegmentFits(def.edges, s, def.zones[0].kind);
    }
  }

  lemma BoundaryHasNothingTwice()
    ensures NoTwice(BOUNDARY)
  {}

  lemma CatalogsAreValid()
    ensures ValidCatalog(START_ONLY) && ValidCatalog(MEADOWS)
  {
    PlainIsValid(START_TILE_ID, 0);
    PlainIsValid(MEADOW, 2);
  }

  lemma OneTileAt(t: PlacedTile, x: int, y: int)
    ensures TileAt([t], x, y) == if t.x == x && t.y == y then Some(t) else None
  {
    assert [t][1..] == [];
  }

  lemma MeadowFits(instance: Id)
    ensures CanPlaceTile(MEADOWS, MEADOW, 1, 0, 0, [StartTile(instance)])
  {
    var t := StartTile(instance);
    OneTileAt(t, 1, 0);
    OneTileAt(t, 1, -1);
    OneTileAt(t, 2, 0);
    OneTileAt(t, 1, 1);
    OneTileAt(t, 0, 0);
    assert RotateEdges(MEADOWS[MEADOW].edges, 0) == Edges(Field, Field, Field, Field);
    assert RotateEdges(MEADOWS[START_TILE_ID].edges, 0) == Edges(Field, Field, Field, Field);
  }

  // ---------------------------------------------------------------- rooms with matches

  /** A match of two players, with one meadow to place. */
  ghost function MeadowTable(room: Id, a: Id, b: Id, start: Id, tile: Id): Table {
    NewTable(MEADOWS, room, [a, b], false, start, [Instance(tile, MEADOW)])
  }

  lemma MeadowDrawn(start: Id, tile: Id)
    ensures var deck := [Instance(tile, MEADOW)];
            Rules.Drawn(MEADOWS, deck, [StartTile(start)]) == Some(deck[0]) &&
            Rules.Undrawn(MEADOWS, deck, [StartTile(start)]) == []
  {
    MeadowFits(start);
    var deck := [Instance(tile, MEADOW)];
    assert Placeable(MEADOWS, deck[0].tile, [StartTile(start)]);
    assert Rules.FirstFit(MEADOWS, deck, [StartTile(start)]) == 0;
    assert deck[1..] + deck[..0] == [];
  }

  lemma TwoIds(start: Id, tile: Id)
    requires start != tile
    ensures UniqueIds(multiset{Instance(start, START_TILE_ID)} + multiset([Instance(tile, MEADOW)]))
  {}

  lemma MeadowTableFits(room: Id, a: Id, b: Id, start: Id, tile: Id)
    requires a != b && a != "" && b != "" && start != tile
    ensures ValidCatalog(MEADOWS) && TableFits(MEADOWS, MeadowTable(room, a, b, start, tile))
    ensures MeadowTable(room, a, b, start, tile).state ==
            State(PlaceTile, 1, a, StartPlayers([a, b], false), [StartTile(start)], [], Some(Instance(tile, MEADOW)),
                None, [])
  {
    CatalogsAreValid();
    MeadowDrawn(start, tile);
    TwoIds(start, tile);
    StartIsSafe(MEADOWS, [a, b], false, start, [Instance(tile, MEADOW)]);
  }

  /** Two people open a room, which may have been used before, and start a match in it. */
  lemma OpenRoom<S(!new), Q(!new)>(engine: (S, Q) -> Verdict<S>, db: Db<S, Q>, room: Id, a: Id, b: Id)
    returns (e: Db<S, Q>)
    requires Database.Valid(engine, db) && room !in db.ever && a != b
    ensures Database.Valid(engine, e) && e.log == db.log && e.games == db.games && e.born == db.born
    ensures e.receipts == db.receipts && e.outbox == db.outbox
    ensures e.ever == db.ever + {room} && e.rooms == db.rooms[room := Room(false, 2, {a, b}, {})]
  {
    CreateKeeps(engine, db, room, 2, {});
    var d1 := CreateRoom(db, room, 2, {});
    JoinKeeps(engine, d1, room, a, 0);
    var d2 := JoinRoom(d1, room, a, 0).0;
    assert d2.rooms[room].people == {a};
    JoinKeeps(engine, d2, room, b, 0);
    e := JoinRoom(d2, room, b, 0).0;
    assert e.rooms[room].people == {a, b};
  }

  lemma Begin<S(!new), Q(!new)>(engine: (S, Q) -> Verdict<S>, db: Db<S, Q>, room: Id, g: Id, state: S, active: bool)
    returns (e: Db<S, Q>)
    requires Database.Valid(engine, db) && room in db.rooms && !db.rooms[room].playing
    requires |db.rooms[room].people| == 2 <= db.rooms[room].maxPlayers
    requires g !in db.born
    ensures StartRoomWithMatch(db, room, g, 1, state, active, db.rooms[room].people, 2) == (e, Ok)
    ensures Database.Valid(engine, e)
    ensures e.log == db.log && e.ever == db.ever && e.receipts == db.receipts
    ensures e.rooms == db.rooms[room := db.rooms[room].(playing := true)]
    ensures e.games == db.games[g := Row(room, active, 1, state)] && e.born == db.born[g := Row(room, active, 1, state)]
  {
    StartKeeps(engine, db, room, g, 1, state, active, db.rooms[room].people, 2);
    e := StartRoomWithMatch(db, room, g, 1, state, active, db.rooms[room].people, 2).0;
  }

  /** Someone acts on the state that is stored now. */
  lemma Play<S(!new), Q(!new)>(engine: (S, Q) -> Verdict<S>, db: Db<S, Q>, g: Id, request: Q, next: S)
    returns (e: Db<S, Q>)
    requires Database.Valid(engine, db) && g in db.games && db.games[g].active
    requires engine(db.games[g].state, request) == Move(next, false)
    ensures Database.Valid(engine, e) && e.born == db.born
    ensures e.games == db.games[g := db.games[g].(version := db.games[g].version + 1, state := next)]
    ensures e.log == db.log + [Commit(g, g, false, db.games[g].version + 1, db.games[g].state, request, next, None)]
    ensures e.rooms == db.rooms && e.ever == db.ever
  {
    var c := Commit(g, g, false, db.games[g].version + 1, db.games[g].state, request, next, None);
    assert HistoryFits(db, g);
    CurrentIsKnown(db, g, db.games[g].version, db.games[g].state);
    PersistKeeps(engine, db, c, None);
    e := PersistActionResult(db, c, None).0;
  }

  // ---------------------------------------------------------------- two rooms at once

  const FIRST_ACTION: Rules.Action := Rules.PlaceTileAction("", 1, 0, 0)

  lemma FirstMove(room: Id, a: Id, b: Id, start: Id, tile: Id) returns (next: Table)
    requires a != b && a != "" && b != "" && start != tile
    ensures ValidCatalog(MEADOWS)
    ensures Judge(MEADOWS, MeadowTable(room, a, b, start, tile), Act(a, FIRST_ACTION)) == Move(next, false)
  {
    MeadowTableFits(room, a, b, start, tile);
    MeadowFits(start);
    var s := MeadowTable(room, a, b, start, tile).state;
    assert [a, b][0] == a;
    next := MeadowTable(room, a, b, start, tile).(state := Rules.WithTile(s, Rules.NewTile(s, a, 1, 0, 0)));
  }

  lemma FirstTable(engine: (Table, Demand) -> Verdict<Table>, room: Id, a: Id, b: Id, start: Id, tile: Id)
    returns (t: Table, next: Table)
    requires ValidCatalog(MEADOWS) && Plays(engine, MEADOWS) && a != b && a != "" && b != "" && start != tile
    ensures TableFits(MEADOWS, t) && t.room == room && t.members == [a, b]
    ensures engine(t, Act(a, FIRST_ACTION)) == Move(next, false)
  {
    t := MeadowTable(room, a, b, start, tile);
    MeadowTableFits(room, a, b, start, tile);
    next := FirstMove(room, a, b, start, tile);
  }

  /** Two matches in two rooms, each with one commit. */
  lemma TwoCommits<S(!new), Q(!new)>(engine: (S, Q) -> Verdict<S>, one: S, two: S, p: Q, q: Q, next1: S, next2: S)
    returns (db: Db<S, Q>)
    requires engine(one, p) == Move(next1, false) && engine(two, q) == Move(next2, false)
    ensures Database.Valid(engine, db)
    ensures db.born == map["one" := Row("attic", true, 1, one), "two" := Row("cellar", true, 1, two)]
    ensures db.log == [Commit("one", "one", false, 2, one, p, next1, None),
              Commit("two", "two", false, 2, two, q, next2, None)]
    ensures OwnCommits(db, "one") && OwnCommits(db, "two")
  {
    EmptyIsValid<S, Q>(engine);
    var d0 := OpenRoom(engine, Empty<S, Q>(), "attic", "ann", "bob");
    var d1 := OpenRoom(engine, d0, "cellar", "cid", "dan");
    var d2 := Begin(engine, d1, "attic", "one", one, true);
    var d3 := Begin(engine, d2, "cellar", "two", two, true);
    var d4 := Play(engine, d3, "one", p, next1);
    db := Play(engine, d4, "two", q, next2);
  }

  /** One engine, two rooms, four players: each match has a commit of its own, and every version of either is safe. */
  lemma TwoRoomsPlay(engine: (Table, Demand) -> Verdict<Table>) returns (db: Db<Table, Demand>, one: Table, two: Table)
    requires ValidCatalog(MEADOWS) && Plays(engine, MEADOWS)
    ensures one.room != two.room && one.members == ["ann", "bob"] && two.members == ["cid", "dan"]
    ensures Database.Valid(engine, db)
    ensures db.born == map["one" := Row("attic", true, 1, one), "two" := Row("cellar", true, 1, two)]
    ensures TableFits(MEADOWS, one) && TableFits(MEADOWS, two) && OwnCommits(db, "one") && OwnCommits(db, "two")
    ensures |db.log| == 2 && db.log[0].game == "one" && db.log[0].request == Act("ann", FIRST_ACTION)
    ensures db.log[1].game == "two" && db.log[1].request == Act("cid", FIRST_ACTION)
  {
    var next1, next2;
    one, next1 := FirstTable(engine, "attic", "ann", "bob", "s1", "t1");
    two, next2 := FirstTable(engine, "cellar", "cid", "dan", "s2", "t2");
    db := TwoCommits(engine, one, two, Act("ann", FIRST_ACTION), Act("cid", FIRST_ACTION), next1, next2);
  }

  // ---------------------------------------------------------------- a match that is over before it begins

  lemma NothingToPlay(start: Id)
    requires ValidCatalog(START_ONLY)
    ensures var t := NewTable(START_ONLY, "attic", ["ann", "bob"], false, start, []);
            TableFits(START_ONLY, t) && t.state.phase == Finished
  {
    assert UniqueIds(multiset{Instance(start, START_TILE_ID)} + multiset([]));
    StartIsSafe(START_ONLY, ["ann", "bob"], false, start, []);
  }

  /** Two people start a match whose deck has no tile for the start tile. Their room is playing without a match, for
      good. */
  lemma StartedAndDead(engine: (Table, Demand) -> Verdict<Table>) returns (db: Db<Table, Demand>, e: Db<Table, Demand>)
    requires ValidCatalog(START_ONLY) && Plays(engine, START_ONLY)
    ensures Database.Valid(engine, db) && Database.Valid(engine, e)
    ensures var t := NewTable(START_ONLY, "attic", ["ann", "bob"], false, "s", []);
            && TableFits(START_ONLY, t) && t.state.phase == Finished
            && StartRoomWithMatch(db, "attic", "one", 1, t, false, {"ann", "bob"}, 2) == (e, Ok)
    ensures "attic" in e.rooms && e.rooms["attic"].playing && ActiveIn(e, "attic") == {} && Dead(e, "attic")
  {
    var t := NewTable(START_ONLY, "attic", ["ann", "bob"], false, "s", []);
    NothingToPlay("s");
    EmptyIsValid<Table, Demand>(engine);
    db := OpenRoom(engine, Empty<Table, Demand>(), "attic", "ann", "bob");
    e := Begin(engine, db, "attic", "one", t, false);
  }

  // ---------------------------------------------------------------- two matches mixed up

  lemma ResolveKeepsBoard(cat: Catalog, s: State)
    ensures Rules.Resolve(cat, s).board == s.board
  {
    ScoreTurnKeeps(cat, s.(phase := ResolveTurn));
  }

  /** Whatever is asked of the engine, the tiles that lie on the board stay. */
  lemma BoardStays(cat: Catalog, t: Table, d: Demand, next: Table, over: bool)
    requires ValidCatalog(cat) && Judge(cat, t, d) == Move(next, over)
    ensures t.state.board <= next.state.board
  {
    match d
    case Act(actor, a) =>
      if a.SkipMeepleAction? {
        ResolveKeepsBoard(cat, t.state);
      } else if a.PlaceMeepleAction? {
        Rules.AcceptedZone(cat, t.room, t.state, actor, a);
        var z := ZoneOfTile(cat, t.state.last.value, a.zone).value;
        ResolveKeepsBoard(cat, Rules.WithMeeple(t.state, Rules.NewMeeple(t.state.last.value, z, actor, a.kind)));
      }
    case TimeOut(s) =>
      if t.state.phase == PlaceTile {
        var x, y, r :| r in ROTATIONS && CanPlaceTile(cat, t.state.currentTile.value.tile, x, y, r, t.state.board)
          && s == Rules.Resolve(cat, Rules.WithTile(t.state, Rules.NewTile(t.state, t.state.current, x, y, r)));
        ResolveKeepsBoard(cat, Rules.WithTile(t.state, Rules.NewTile(t.state, t.state.current, x, y, r)));
      } else {
        ResolveKeepsBoard(cat, t.state);
      }
  }

  lemma TimeoutAt(cat: Catalog, s: State, x: int, y: int, r: int)
    requires s.phase == PlaceTile && s.currentTile.Some? && r in ROTATIONS
    requires CanPlaceTile(cat, s.currentTile.value.tile, x, y, r, s.board)
    ensures TimeoutResult(cat, s, Rules.Resolve(cat, Rules.WithTile(s, Rules.NewTile(s, s.current, x, y, r))))
  {}

  /** A timeout that places the last tile ends the match. */
  lemma LastTimeout(room: Id, a: Id, b: Id, start: Id, tile: Id) returns (d: Demand, next: Table)
    requires a != b && a != "" && b != "" && start != tile
    ensures ValidCatalog(MEADOWS) && Judge(MEADOWS, MeadowTable(room, a, b, start, tile), d) == Move(next, true)
    ensures |next.state.board| > 0 && next.state.board[0] == StartTile(start)
  {
    MeadowTableFits(room, a, b, start, tile);
    MeadowFits(start);
    assert ROTATIONS[0] == 0;
    d, next := EndedByTimeout(MEADOWS, MeadowTable(room, a, b, start, tile), 1, 0, 0);
  }

  lemma EndedByTimeout(cat: Catalog, t: Table, x: int, y: int, r: int) returns (d: Demand, next: Table)
    requires ValidCatalog(cat) && t.state.phase == PlaceTile && t.state.currentTile.Some? && t.state.deck == []
    requires t.state.board != []
    requires r in ROTATIONS && CanPlaceTile(cat, t.state.currentTile.value.tile, x, y, r, t.state.board)
    ensures Judge(cat, t, d) == Move(next, true) && |next.state.board| > 0 && next.state.board[0] == t.state.board[0]
  {
    var placed := Rules.WithTile(t.state, Rules.NewTile(t.state, t.state.current, x, y, r));
    TimeoutAt(cat, t.state, x, y, r);
    ResolveKeepsBoard(cat, placed);
    NoTileLeft(cat, placed);
    d := TimeOut(Rules.Resolve(cat, placed));
    next := t.(state := Rules.Resolve(cat, placed));
  }

  lemma NoTileLeft(cat: Catalog, s: State)
    requires s.deck == []
    ensures Rules.Resolve(cat, s).phase == Finished
  {
    ScoreTurnKeeps(cat, s.(phase := ResolveTurn));
  }

  /** A room whose first match was ended without a new state, and in which a second match was started. */
  lemma SecondMatch<S(!new), Q(!new)>(engine: (S, Q) -> Verdict<S>, one: S, two: S) returns (db: Db<S, Q>)
    ensures Database.Valid(engine, db) && "attic" in db.rooms && db.log == [] && db.receipts == map[]
    ensures "one" in db.born && db.born["one"] == Row("attic", true, 1, one)
    ensures "two" in db.games && db.games["two"] == Row("attic", true, 1, two)
  {
    EmptyIsValid<S, Q>(engine);
    var d0 := OpenRoom(engine, Empty<S, Q>(), "attic", "ann", "bob");
    var d1 := Begin(engine, d0, "attic", "one", one, true);
    assert "one" in ActiveIn(d1, "attic");
    TerminateKeeps(engine, d1, "attic", Some("one"), None, None);
    var d2 := TerminateActiveMatch(d1, "attic", Some("one"), None, None).0;
    db := Begin(engine, d2, "attic", "two", two, true);
  }

  /** The final path finds the match by room. A caller who read one match can end the next one in the same room, if the
      versions happen to agree, and stores there a state that no demand on that match could have led to. */
  lemma FinalPathMixesMatches(engine: (Table, Demand) -> Verdict<Table>)
    returns (db: Db<Table, Demand>, e: Db<Table, Demand>, c: Commit<Table, Demand>)
    requires ValidCatalog(MEADOWS) && Plays(engine, MEADOWS)
    ensures Database.Valid(engine, db) && Honest(engine, db, c) && c.final && c.cause == None
    ensures "two" in ActiveIn(db, "attic") && c.readFrom == "one"
    ensures TerminateActiveMatch(db, "attic", Some("two"), Some(c), None) == (e, Ok)
    ensures "two" in db.games && "two" in e.games
    ensures forall d, over :: engine(db.games["two"].state, d) != Move(e.games["two"].state, over)
  {
    var one, two := MeadowTable("attic", "ann", "bob", "s1", "t1"), MeadowTable("attic", "ann", "bob", "s2", "t2");
    MeadowTableFits("attic", "ann", "bob", "s2", "t2");
    var d, next := LastTimeout("attic", "ann", "bob", "s1", "t1");
    db := SecondMatch(engine, one, two);
    c := Commit("one", "one", true, 2, one, d, next, None);
    assert Latest(db.log[..0], "one", db.born["one"]) == (1, one);
    e := TerminateActiveMatch(db, "attic", Some("two"), Some(c), None).0;
    OtherBoard(engine, two, next);
  }

  /** No demand turns one table into a state with another first tile. */
  lemma OtherBoard(engine: (Table, Demand) -> Verdict<Table>, t: Table, next: Table)
    requires ValidCatalog(MEADOWS) && Plays(engine, MEADOWS) && t.state.board != [] && next.state.board != []
    requires next.state.board[0] != t.state.board[0]
    ensures forall x, over :: engine(t, x) != Move(next, over)
  {
    forall x, over
      ensures engine(t, x) != Move(next, over)
    {
      if engine(t, x) == Move(next, over) {
        BoardStays(MEADOWS, t, x, next, over);
      }
    }
  }
}
