/** Reliable actions: callers retry, locks get lost, commits look failed; every action still counts at most once. */
module Protocol {
  import opened Tiles
  import opened Database
  import opened Transactions

  // ---------------------------------------------------------------- what the invariant gives

  /** A request never changes the state twice. */
  lemma AppliedAtMostOnce<S(!new), Q(!new)>(engine: (S, Q) -> Verdict<S>, db: Db<S, Q>, k: Key, i: nat, j: nat)
    requires Valid(engine, db) && i < |db.log| && j < |db.log| && db.log[i].cause == Some(k)
    requires db.log[j].cause == Some(k)
    ensures i == j
  {
    assert db.log[i].cause == db.log[j].cause;
  }

  /** While its room exists, a request has changed the state exactly when its receipt says so. */
  lemma AcceptedMeansApplied<S(!new), Q(!new)>(engine: (S, Q) -> Verdict<S>, db: Db<S, Q>, k: Key)
    requires Valid(engine, db) && k.room in db.rooms
    ensures (k in db.receipts && db.receipts[k].accepted) <==> exists c :: c in db.log && c.cause == Some(k)
  {
    if k in db.receipts && db.receipts[k].accepted {
      assert ReceiptFits(db, k);
      var c :| c in db.log && CausedBy(c, k, db.receipts[k]);
    }
    if c :| c in db.log && c.cause == Some(k) {
      var i: nat :| i < |db.log| && db.log[i] == c;
      assert CommitFits(engine, db, i);
    }
  }

  lemma {:induction false} LinkedAt<S(!new), Q>(log: seq<Commit<S, Q>>, g: Id, start: Row<S>, i: nat)
    requires Linked(log, g, start) && i < |log| && log[i].game == g
    ensures var c, before := log[i], Latest(log[..i], g, start);
            c.version == before.0 + 1 && (!c.final || c.readFrom == g ==> c.base == before.1)
  {
    if i + 1 < |log| {
      var init := log[..|log| - 1];
      assert init[..i] == log[..i];
      LinkedAt(init, g, start, i);
    }
  }

  /** Every committed state is the engine's result on the version just before it. A final commit is, too,
      when the match it was computed from is the match it is stored in. */
  lemma HistoryIsEngineRun<S(!new), Q(!new)>(engine: (S, Q) -> Verdict<S>, db: Db<S, Q>, i: nat)
    requires Valid(engine, db) && i < |db.log|
    requires db.log[i].final ==> db.log[i].readFrom == db.log[i].game
    ensures db.log[i].game in db.born
    ensures var c := db.log[i];
            var before := Latest(db.log[..i], c.game, db.born[c.game]);
            c.version == before.0 + 1 && engine(before.1, c.request) == Move(c.next, c.final)
  {
    assert CommitFits(engine, db, i);
    assert BornFits(db, db.log[i].game);
    LinkedAt(db.log, db.log[i].game, db.born[db.log[i].game], i);
  }

  /** No version of a match is produced twice, so no version is timed out twice. */
  lemma VersionOnce<S(!new), Q(!new)>(engine: (S, Q) -> Verdict<S>, db: Db<S, Q>, i: nat, j: nat)
    requires Valid(engine, db) && i < j < |db.log| && db.log[i].game == db.log[j].game
    ensures db.log[i].version < db.log[j].version
  {
    var g := db.log[i].game;
    assert CommitFits(engine, db, i);
    assert BornFits(db, g);
    LinkedAt(db.log, g, db.born[g], j);
    VersionsGrow(db.log, g, db.born[g], j);
    assert db.log[..j][..i + 1] == db.log[..i + 1];
    VersionsGrow(db.log[..j], g, db.born[g], i + 1);
  }

  function Empty<S, Q>(): Db<S, Q> {
    Db(map[], map[], map[], [], [], map[], {})
  }

  lemma EmptyIsValid<S(!new), Q(!new)>(engine: (S, Q) -> Verdict<S>)
    ensures Valid(engine, Empty<S, Q>())
  {}

  // ---------------------------------------------------------------- the final path finds the match by room

  /** The final state is stored in the match it was computed from if and only if that match is the active one of
      the room; and then it is the engine's result on the state it replaces. */
  lemma FinalPathIsRightIff<S(!new), Q(!new)>(engine: (S, Q) -> Verdict<S>, db: Db<S, Q>, room: Id, g: Id,
                                              c: Commit<S, Q>, receipt: Option<Receipt<Q>>)
    requires Valid(engine, db) && g in ActiveIn(db, room) && Honest(engine, db, c) && c.final && ReceiptOf(c, receipt)
    requires TerminateActiveMatch(db, room, Some(g), Some(c), receipt).1 == Ok
    ensures var e := TerminateActiveMatch(db, room, Some(g), Some(c), receipt).0;
            && g in e.games && e.games[g].state == c.next && |e.log| > 0
            && (e.log[|e.log| - 1].game == c.readFrom <==> ActiveIn(db, room) == {c.readFrom})
            && (ActiveIn(db, room) == {c.readFrom} ==>
                engine(db.games[g].state, c.request) == Move(e.games[g].state, true))
            && e.games[g].version == db.games[g].version + 1
  {
    assert RoomFits(db, room);
    assert HistoryFits(db, g);
    CurrentIsKnown(db, g, c.version - 1, c.base);
  }

  // ---------------------------------------------------------------- the system

  /** A snapshot of a match that somebody took and may still act on, however late. */
  datatype Read<S> = Read(game: Id, version: nat, state: S)

  datatype Reply =
    | Accepted(version: nat, replayed: bool)
    | Rejected(version: nat, code: Code, replayed: bool)
    | ActionIdConflict
    | NoActiveMatch
    | InvalidRequest
    | Refused(result: Result)
    | Unknown

  function Replayed<Q(==)>(r: Receipt<Q>, hash: Content<Q>): Reply {
    if r.hash != hash then ActionIdConflict
    else if r.accepted then Accepted(r.version, true)
    else Rejected(r.version, r.code, true)
  }

  /** The stored receipt says what the reply says. */
  ghost predicate Backed<S, Q>(db: Db<S, Q>, k: Key, hash: Content<Q>, reply: Reply) {
    match reply
    case Accepted(version, _) => k in db.receipts && db.receipts[k].accepted && db.receipts[k].hash == hash &&
                                 db.receipts[k].version == version
    case Rejected(version, code, _) =>
      k in db.receipts && !db.receipts[k].accepted && db.receipts[k].hash == hash &&
      db.receipts[k].version == version && db.receipts[k].code == code
    case ActionIdConflict => k in db.receipts && db.receipts[k].hash != hash
    case _ => true
  }

  /** A moment between two others. */
  ghost predicate During<S(!new), Q(!new)>(engine: (S, Q) -> Verdict<S>, a: Db<S, Q>, at: Db<S, Q>, b: Db<S, Q>) {
    Valid(engine, at) && Evolves(a, at) && Evolves(at, b)
  }

  /** What a call saw: the state it read, and the database when it looked for the bots of the room, for the people in
      it, and when it made its decision. */
  datatype Moments<S, Q> = Moments(from: Read<S>, first: Db<S, Q>, last: Db<S, Q>, at: Db<S, Q>)

  function BotsOf<S, Q>(db: Db<S, Q>, room: Id): set<Id> {
    if room in db.rooms then db.rooms[room].bots else {}
  }

  function PeopleOf<S, Q>(db: Db<S, Q>, room: Id): set<Id> {
    if room in db.rooms then db.rooms[room].people else {}
  }

  /** The actor was one of the bots at one moment, or one of the people at a later one. */
  ghost predicate Admitted<S, Q>(m: Moments<S, Q>, room: Id, actor: Id) {
    actor in BotsOf(m.first, room) || actor in PeopleOf(m.last, room)
  }

  /** The database and all the servers that work on it. */
  class Cluster<S(==, !new, 0), Q(==, !new, 0)> {
    const engine: (S, Q) -> Verdict<S>
    const agrees: (S, Q) -> bool
    const formed: Q -> bool
    const reliable: bool
    var rooms: map<Id, Room>
    var games: map<Id, Row<S>>
    var receipts: map<Key, Receipt<Q>>
    var outbox: seq<Id>
    var snapshots: seq<Read<S>>
    // what happened so far: every commit, every match as it started, every room id used
    var log: seq<Commit<S, Q>>
    var born: map<Id, Row<S>>
    var ever: set<Id>

    function View(): Db<S, Q>
      reads this
    {
      Db(rooms, games, receipts, outbox, log, born, ever)
    }

    ghost predicate Ok()
      reads this
    {
      Valid(engine, View()) && AllKnown(View(), snapshots)
    }

    constructor (engine: (S, Q) -> Verdict<S>, agrees: (S, Q) -> bool, formed: Q -> bool, reliable: bool)
      ensures this.engine == engine && this.agrees == agrees && this.formed == formed && this.reliable == reliable
      ensures Ok() && View() == Empty()
    {
      EmptyIsValid<S, Q>(engine);
      this.engine, this.agrees, this.formed, this.reliable := engine, agrees, formed, reliable;
      rooms, games, receipts, outbox, snapshots := map[], map[], map[], [], [];
      log, born, ever := [], map[], {};
    }

    // -------------------------------------------------------------- transactions

    /** Inserts the receipt and swaps the state in one transaction; any failure undoes both. */
    method Persist(c: Commit<S, Q>, receipt: Option<Receipt<Q>>) returns (r: Result)
      requires Ok() && Honest(engine, View(), c) && !c.final && ReceiptOf(c, receipt)
      modifies this
      ensures Ok() && Evolves(old(View()), View())
      ensures (View(), r) == PersistActionResult(old(View()), c, receipt)
      ensures r == Result.Ok <==>
                && c.game in old(games) && old(games)[c.game].active && old(games)[c.game].version + 1 == c.version
                && (receipt.Some? ==> c.cause.value !in old(receipts) && c.cause.value.room in rooms &&
                                      old(games)[c.game].room == c.cause.value.room)
    {
      ghost var db := View();
      PersistKeeps(engine, db, c, receipt);
      KnownAfter(db, PersistActionResult(db, c, receipt).0, snapshots);
      var saved := receipts;
      if receipt.Some? {
        var k := c.cause.value;
        if k in receipts {
          return AlreadySaved;
        }
        if k.room !in rooms || c.game !in games || games[c.game].room != k.room {
          return Failed;
        }
        saved := receipts[k := receipt.value];
      }
      if c.game !in games || !games[c.game].active || games[c.game].version != c.version - 1 {
        return Conflict;
      }
      receipts := saved;
      games := games[c.game := games[c.game].(version := c.version, state := c.next)];
      log := log + [c];
      r := Result.Ok;
    }

    method Save(k: Key, receipt: Receipt<Q>) returns (r: Result)
      requires Ok() && !receipt.accepted
      modifies this
      ensures Ok() && Evolves(old(View()), View())
      ensures (View(), r) == SaveActionReceipt(old(View()), k, receipt)
      ensures r == Result.Ok <==>
                k !in old(receipts) && k.room in rooms && receipt.game in games && games[receipt.game].room == k.room
      ensures receipts == if r == Result.Ok then old(receipts)[k := receipt] else old(receipts)
    {
      ghost var db := View();
      SaveKeeps(engine, db, k, receipt);
      KnownAfter(db, SaveActionReceipt(db, k, receipt).0, snapshots);
      if k in receipts {
        return AlreadySaved;
      }
      if k.room !in rooms || receipt.game !in games || games[receipt.game].room != k.room {
        return Failed;
      }
      receipts := receipts[k := receipt];
      r := Result.Ok;
    }

    method GetActive(room: Id) returns (found: Option<Id>)
      ensures if found.None? then ActiveIn(View(), room) == {} else found.value in ActiveIn(View(), room)
    {
      var active := set g | g in games && games[g].active && games[g].room == room;
      assert active == ActiveIn(View(), room);
      if active == {} {
        return None;
      }
      var g :| g in active;
      found := Some(g);
    }

    /** Ends the active match of the room: state, receipt, outbox event and room status in one transaction. */
    method Terminate(room: Id, update: Option<Commit<S, Q>>, receipt: Option<Receipt<Q>>)
      returns (r: Result, found: Option<Id>)
      requires Ok() && FinalHonest(engine, View(), update, receipt)
      modifies this
      ensures Ok() && Evolves(old(View()), View())
      ensures if found.None? then ActiveIn(old(View()), room) == {} else found.value in ActiveIn(old(View()), room)
      ensures (View(), r) == TerminateActiveMatch(old(View()), room, found, update, receipt)
      ensures r == Result.Ok <==>
                && room in old(rooms) && found.Some?
                && (update.Some? ==> old(games)[found.value].version + 1 == update.value.version)
                && (receipt.Some? ==> update.value.cause.value !in old(receipts) &&
                                      update.value.cause.value.room == room)
      ensures r == Result.Ok ==> outbox == old(outbox) + [found.value] && !games[found.value].active &&
                                 !rooms[room].playing
    {
      ghost var db := View();
      found := GetActive(room);
      TerminateKeeps(engine, db, room, found, update, receipt);
      KnownAfter(db, TerminateActiveMatch(db, room, found, update, receipt).0, snapshots);
      if room !in rooms || found.None? {
        return NotFound, found;
      }
      r := EndMatch(room, found.value, update, receipt);
    }

    method EndMatch(room: Id, g: Id, update: Option<Commit<S, Q>>, receipt: Option<Receipt<Q>>) returns (r: Result)
      requires room in rooms && g in ActiveIn(View(), room)
      requires update.Some? ==> update.value.version > 0 && (receipt.Some? <==> update.value.cause.Some?)
      requires receipt.Some? ==> update.Some?
      modifies this
      ensures snapshots == old(snapshots)
      ensures (View(), r) == TerminateActiveMatch(old(View()), room, Some(g), update, receipt)
    {
      if update.Some? && games[g].version != update.value.version - 1 {
        return Conflict;
      }
      if receipt.Some? {
        if update.value.cause.value in receipts {
          return AlreadySaved;
        }
        if update.value.cause.value.room != room {
          return Failed;
        }
        receipts := receipts[update.value.cause.value := receipt.value.(game := g)];
      }
      if update.Some? {
        games := games[g := games[g].(active := false, version := update.value.version, state := update.value.next)];
        log := log + [update.value.(game := g)];
      } else {
        games := games[g := games[g].(active := false)];
      }
      outbox := outbox + [g];
      rooms := rooms[room := rooms[room].(playing := false)];
      r := Result.Ok;
    }

    // -------------------------------------------------------------- rooms

    /** Takes the row of the room, counts who is in, and only then lets somebody enter. */
    method Join(room: Id, actor: Id, reserved: nat) returns (r: Result)
      requires Ok()
      modifies `rooms
      ensures Ok() && Evolves(old(View()), View())
      ensures (View(), r) == JoinRoom(old(View()), room, actor, reserved)
      ensures r == Result.Ok <==>
                && room in old(rooms)
                && var row := old(rooms)[room];
                   actor in row.people || (!row.playing && |row.people| + reserved < row.maxPlayers)
      ensures r == Result.Ok ==>
                rooms == old(rooms)[room := old(rooms)[room].(people := old(rooms)[room].people + {actor})]
    {
      ghost var db := View();
      JoinKeeps(engine, db, room, actor, reserved);
      KnownAfter(db, JoinRoom(db, room, actor, reserved).0, snapshots);
      if room !in rooms {
        return NotFound;
      }
      var row := rooms[room];
      var inside := actor in row.people;
      if row.playing && !inside {
        return NotJoinable;
      }
      if !inside && |row.people| + reserved >= row.maxPlayers {
        return Full;
      }
      rooms := rooms[room := row.(people := row.people + {actor})];
      r := Result.Ok;
    }

    method Leave(room: Id, actor: Id)
      requires Ok()
      modifies `rooms
      ensures Ok() && Evolves(old(View()), View()) && View() == LeaveRoom(old(View()), room, actor)
    {
      ghost var db := View();
      LeaveKeeps(engine, db, room, actor);
      KnownAfter(db, LeaveRoom(db, room, actor), snapshots);
      if room in rooms {
        rooms := rooms[room := rooms[room].(people := rooms[room].people - {actor})];
      }
    }

    method Create(room: Id, maxPlayers: nat, bots: set<Id>)
      requires Ok()
      modifies `rooms, `ever
      ensures Ok() && Evolves(old(View()), View()) && View() == CreateRoom(old(View()), room, maxPlayers, bots)
    {
      ghost var db := View();
      CreateKeeps(engine, db, room, maxPlayers, bots);
      KnownAfter(db, CreateRoom(db, room, maxPlayers, bots), snapshots);
      if room !in ever {
        rooms := rooms[room := Room(false, maxPlayers, {}, bots)];
        ever := ever + {room};
      }
    }

    /** Takes the row of the room, counts who is in, and refuses settings that leave no seat for somebody. */
    method ChangeSettings(room: Id, maxPlayers: nat, bots: set<Id>, reserved: nat) returns (r: Result)
      requires Ok()
      modifies `rooms
      ensures Ok() && Evolves(old(View()), View())
      ensures (View(), r) == UpdateSettings(old(View()), room, maxPlayers, bots, reserved)
      ensures r == Result.Ok <==>
                && room in old(rooms) && !old(rooms)[room].playing
                && |old(rooms)[room].people| + reserved <= maxPlayers
      ensures r == Result.Ok ==>
                rooms == old(rooms)[room := Room(false, maxPlayers, old(rooms)[room].people, bots)]
    {
      ghost var db := View();
      SettingsKeep(engine, db, room, maxPlayers, bots, reserved);
      KnownAfter(db, UpdateSettings(db, room, maxPlayers, bots, reserved).0, snapshots);
      if room !in rooms {
        return NotFound;
      }
      var row := rooms[room];
      if |row.people| + reserved > maxPlayers {
        return TooSmall;
      }
      if row.playing {
        return Locked;
      }
      rooms := rooms[room := row.(maxPlayers := maxPlayers, bots := bots)];
      r := Result.Ok;
    }

    /** Stores the match and sets the room to playing in one transaction. */
    method Start(room: Id, g: Id, version: nat, state: S, active: bool, humans: set<Id>, seats: nat) returns (r: Result)
      requires Ok()
      modifies `rooms, `games, `born
      ensures Ok() && Evolves(old(View()), View())
      ensures (View(), r) == StartRoomWithMatch(old(View()), room, g, version, state, active, humans, seats)
      ensures r == Result.Ok <==>
                && room in old(rooms) && !old(rooms)[room].playing && g !in old(born)
                && humans == old(rooms)[room].people && humans != {} && 2 <= seats <= old(rooms)[room].maxPlayers
      ensures r == Result.Ok ==> games == old(games)[g := Row(room, active, version, state)] && rooms[room].playing
    {
      ghost var db := View();
      StartKeeps(engine, db, room, g, version, state, active, humans, seats);
      KnownAfter(db, StartRoomWithMatch(db, room, g, version, state, active, humans, seats).0, snapshots);
      if room !in rooms {
        return NotFound;
      }
      var row := rooms[room];
      if row.playing {
        return NotReady;
      }
      if row.people == {} || seats < 2 {
        return NotEnoughPlayers;
      }
      if seats > row.maxPlayers {
        return Full;
      }
      if humans != row.people {
        return NotReady;
      }
      if g in born {
        return Failed;
      }
      games := games[g := Row(room, active, version, state)];
      born := born[g := Row(room, active, version, state)];
      rooms := rooms[room := row.(playing := true)];
      r := Result.Ok;
    }

    /** The guard on the status is part of the delete statement, so no active match can disappear. */
    method Delete(room: Id) returns (r: Result)
      requires Ok()
      modifies `rooms, `games, `receipts
      ensures Ok() && Evolves(old(View()), View())
      ensures (View(), r) == DeleteRoom(old(View()), room)
      ensures r == Result.Ok <==> room in old(rooms) && !old(rooms)[room].playing
      ensures r == Result.Ok ==> room !in rooms && forall g :: g in games ==> games[g].room != room
      ensures forall g :: g in old(games) && old(games)[g].active ==> g in games && games[g] == old(games)[g]
    {
      ghost var db := View();
      DeleteKeeps(engine, db, room);
      KnownAfter(db, DeleteRoom(db, room).0, snapshots);
      if room !in rooms {
        return NotFound;
      }
      if rooms[room].playing {
        return ForbiddenDelete;
      }
      rooms := rooms - {room};
      games := map g | g in games && games[g].room != room :: games[g];
      receipts := map k | k in receipts && k.room != room :: receipts[k];
      r := Result.Ok;
    }

    // -------------------------------------------------------------- everybody else

    /** Any number of steps by other callers, retries, bots, timeouts and room owners. Nobody holds a lock here. db is
        the database when the call began that waits for them. */
    method Others(ghost db: Db<S, Q>)
      requires Ok() && Valid(engine, db) && Evolves(db, View())
      modifies this
      ensures Ok() && Evolves(old(View()), View()) && Evolves(db, View())
    {
      ghost var start := View();
      Unchanged(engine, start);
      var n: int := *;
      for i := 0 to if n < 0 then 0 else n
        invariant Ok() && Evolves(start, View())
      {
        ghost var mid := View();
        AnyStep();
        Chain(engine, start, mid, View());
      }
      Chain(engine, db, start, View());
    }

    method AnyStep()
      requires Ok()
      modifies this
      ensures Ok() && Evolves(old(View()), View())
    {
      var pick: int := *;
      if pick == 0 {
        RoomStep();
      } else if pick == 1 {
        var k: Key, refusal: Receipt<Q> := *, *;
        var result := Save(k, refusal.(accepted := false));
      } else if pick == 2 {
        var room: Id := *;
        var found := Look(room);
      } else {
        Act();
      }
    }

    method RoomStep()
      requires Ok()
      modifies this
      ensures Ok() && Evolves(old(View()), View())
    {
      var pick: int, room: Id, actor: Id, n: nat, people: set<Id> := *, *, *, *, *;
      if pick == 0 {
        Create(room, n, people);
      } else if pick == 1 {
        var result := Join(room, actor, n);
      } else if pick == 2 {
        Leave(room, actor);
      } else if pick == 3 {
        var result := Delete(room);
      } else if pick == 4 {
        var state: S, active: bool, seats: nat := *, *, *;
        var result := Start(room, actor, n, state, active, people, seats);
      } else if pick == 5 {
        var seats: nat := *;
        var result := ChangeSettings(room, n, people, seats);
      } else {
        var result, found := Terminate(room, None, None);
      }
    }

    /** Reads the active match of a room; whoever reads it may act on it at any later time. */
    method Look(room: Id) returns (found: Option<Read<S>>)
      requires Ok()
      modifies `snapshots
      ensures Ok() && View() == old(View()) && Evolves(old(View()), View())
      ensures found.None? ==> ActiveIn(View(), room) == {}
      ensures found.Some? ==>
                && found.value in snapshots && Known(View(), found.value.game, found.value.version, found.value.state)
                && Current(View(), room, found.value.game, found.value.version)
                && games[found.value.game].state == found.value.state
    {
      Unchanged(engine, View());
      var g := GetActive(room);
      if g.None? {
        return None;
      }
      assert HistoryFits(View(), g.value);
      var row := games[g.value];
      CurrentIsKnown(View(), g.value, row.version, row.state);
      snapshots := snapshots + [Read(g.value, row.version, row.state)];
      found := Some(snapshots[|snapshots| - 1]);
    }

    /** Some caller applies some request, bot move or timeout to some snapshot, old or new. */
    method Act()
      requires Ok()
      modifies this
      ensures Ok() && Evolves(old(View()), View())
    {
      Unchanged(engine, View());
      if snapshots == [] {
        return;
      }
      var i :| 0 <= i < |snapshots|;
      var request: Q, room: Id, cause: Option<Key> := *, *, *;
      var from := snapshots[i];
      var verdict := engine(from.state, request);
      if verdict.Move? && (cause.Some? ==> cause.value.room == room) {
        var result := Store(room, from, request, verdict.next, verdict.finished, cause);
      }
    }

    /** Stores the engine's result: through the match id while the match goes on, through the room when it ends. Nothing
        is stored only if the request has a receipt,
            or the version that was read is no longer the one of the active match
        of the room. */
    method Store(room: Id, from: Read<S>, request: Q, next: S, finished: bool, cause: Option<Key>)
      returns (result: Result)
      requires Ok() && Known(View(), from.game, from.version, from.state)
      requires engine(from.state, request) == Move(next, finished) && (cause.Some? ==> cause.value.room == room)
      modifies this
      ensures Ok() && Evolves(old(View()), View()) && result != Forbidden
      ensures result == Result.Ok ==>
                && Stored(old(View()), View(), room, from, request, next, finished, cause)
                && (cause.Some? ==> Acknowledged(View(), cause.value, from, request))
      ensures result != Result.Ok ==>
                && View() == old(View())
                && if result == AlreadySaved then cause.Some? && cause.value in receipts
                   else !Current(View(), room, from.game, from.version)
    {
      ghost var db := View();
      var c := Commit(from.game, from.game, finished, from.version + 1, from.state, request, next, cause);
      var receipt :=
        if cause.Some?
        then Some(Receipt(from.game, Content(room, from.game, from.version, request), true, from.version + 1, NoCode))
        else None;
      if finished {
        var found;
        result, found := Terminate(room, Some(c), receipt);
        if result == Result.Ok {
          FinalIsStored(engine, db, room, found, from, c, receipt);
        } else {
          WhyNotEnded(engine, db, room, found, c, receipt);
        }
      } else {
        result := Persist(c, receipt);
        if result == Result.Ok {
          MoveIsStored(engine, db, room, from, c, receipt);
        } else {
          WhyNotMoved(engine, db, room, c, receipt);
        }
      }
    }

    // -------------------------------------------------------------- one caller

    /** The match is active in the room, at the expected version, turn and phase. */
    ghost predicate Meets(db: Db<S, Q>, room: Id, game: Id, version: nat, request: Q) {
      Current(db, room, game, version) && agrees(db.games[game].state, request)
    }

    /** Why the caller got this reply. What was accepted is the engine's result on the expected state, stored during the
        call; what was refused was refused by the engine on the expected state, or the room had another state at some
        moment of the call, or the match would have ended for somebody who was not in the room. */
    ghost predicate Explained(a: Db<S, Q>, b: Db<S, Q>, room: Id, actor: Id, cause: Option<Key>, game: Id, version: nat,
                              request: Q, reply: Reply, m: Moments<S, Q>)
    {
      match reply
      case Accepted(v, replayed) =>
        v == version + 1 &&
        (!replayed ==>
           && During(engine, a, m.at, b) && m.from == Read(game, version, m.from.state)
           && Known(b, game, version, m.from.state) && agrees(m.from.state, request)
           && var verdict := engine(m.from.state, request);
              && verdict.Move? && Stored(m.at, b, room, m.from, request, verdict.next, verdict.finished, cause)
              && (verdict.finished ==> && During(engine, a, m.first, m.last) && During(engine, a, m.last, b)
                                       && Admitted(m, room, actor)))
      case Rejected(v, code, replayed) =>
        !replayed ==>
          && v == m.from.version && Known(b, m.from.game, v, m.from.state)
          && ((m.from == Read(game, version, m.from.state) && agrees(m.from.state, request) &&
               engine(m.from.state, request) == Refuse(code))
              || (code == StateConflict && During(engine, a, m.at, b) && !Meets(m.at, room, game, version, request)))
      case NoActiveMatch => During(engine, a, m.at, b) && ActiveIn(m.at, room) == {}
      case Refused(Forbidden) =>
        During(engine, a, m.first, m.last) && During(engine, a, m.last, b) && !Admitted(m, room, actor)
      case Refused(_) => During(engine, a, m.at, b) && !Meets(m.at, room, game, version, request)
      case _ => true
    }

    /** A connection that breaks, or an answer that does not come: the caller does not learn what happened. */
    method Fault() returns (lost: bool)
      ensures reliable ==> !lost
    {
      lost := *;
      if reliable {
        lost := false;
      }
    }

    /** One reliable action, with everybody else free to act before every step. Any step may fail, and a commit may
        have happened although the caller is told it did not. */
    method ApplyAction(k: Key, game: Id, version: nat, request: Q) returns (reply: Reply, ghost m: Moments<S, Q>)
      requires Ok()
      modifies this
      ensures Ok() && Evolves(old(View()), View())
      ensures Backed(View(), k, Content(k.room, game, version, request), reply)
      ensures Explained(old(View()), View(), k.room, k.actor, Some(k), game, version, request, reply, m)
      ensures reply == InvalidRequest <==> k.action == "" || |k.action| > 128 || k.actor == "" || k.room == "" ||
                                           game == "" || !formed(request)
      ensures k in old(receipts) && k.room in rooms && reply != InvalidRequest ==>
                reply == Unknown || reply == Replayed(old(receipts)[k], Content(k.room, game, version, request))
      ensures reliable ==> reply != Unknown
    {
      ghost var db := View();
      Unchanged(engine, db);
      if k.action == "" || |k.action| > 128 || k.actor == "" || k.room == "" || game == "" || !formed(request) {
        var from: Read<S> := *;
        return InvalidRequest, Moments(from, db, db, db);
      }
      reply, m := Answer(k, game, version, request, Content(k.room, game, version, request), db);
    }

    /** A request that has a receipt gets the answer in it. */
    method Answer(k: Key, game: Id, version: nat, request: Q, hash: Content<Q>, ghost db: Db<S, Q>)
      returns (reply: Reply, ghost m: Moments<S, Q>)
      requires Ok() && Valid(engine, db) && Evolves(db, View()) && hash == Content(k.room, game, version, request)
      modifies this
      ensures Ok() && Evolves(db, View())
      ensures Backed(View(), k, hash, reply) && reply != InvalidRequest && (reliable ==> reply != Unknown)
      ensures Explained(db, View(), k.room, k.actor, Some(k), game, version, request, reply, m)
      ensures k in db.receipts && k.room in rooms ==> reply == Unknown || reply == Replayed(db.receipts[k], hash)
    {
      Others(db);
      var lost := Fault();
      var from: Read<S> := *;
      m := Moments(from, db, db, db);
      if lost {
        return Unknown, m;
      }
      if k in receipts {
        ReplayedVersion(engine, View(), k, hash);
        return Replayed(receipts[k], hash), m;
      }
      ghost var mid := View();
      reply, m := WithoutReceipt(k, game, version, request, hash, db);
      if k in db.receipts { Forgotten(engine, db, mid, View(), k); }
    }

    method WithoutReceipt(k: Key, game: Id, version: nat, request: Q, hash: Content<Q>, ghost db: Db<S, Q>)
      returns (reply: Reply, ghost m: Moments<S, Q>)
      requires Ok() && Valid(engine, db) && Evolves(db, View()) && hash == Content(k.room, game, version, request)
      modifies this
      ensures Ok() && Evolves(db, View()) && Evolves(old(View()), View())
      ensures Backed(View(), k, hash, reply) && reply != InvalidRequest && (reliable ==> reply != Unknown)
      ensures Explained(db, View(), k.room, k.actor, Some(k), game, version, request, reply, m)
    {
      ghost var mid := View();
      Unchanged(engine, mid);
      reply, m := FirstTime(k, game, version, request, hash, mid);
      Chain(engine, db, mid, View());
      ExplainedFromEarlier(db, mid, View(), k.room, k.actor, Some(k), game, version, request, reply, m);
    }

    lemma ExplainedFromEarlier(a: Db<S, Q>, c: Db<S, Q>, b: Db<S, Q>, room: Id, actor: Id, cause: Option<Key>, game: Id,
                               version: nat, request: Q, reply: Reply, m: Moments<S, Q>)
      requires Valid(engine, a) && Evolves(a, c)
      requires Explained(c, b, room, actor, cause, game, version, request, reply, m)
      ensures Explained(a, b, room, actor, cause, game, version, request, reply, m)
    {
      if Evolves(c, m.at) { Chain(engine, a, c, m.at); }
      if Evolves(c, m.first) { Chain(engine, a, c, m.first); }
      if Evolves(c, m.last) { Chain(engine, a, c, m.last); }
    }

    /** The request has no receipt yet, as far as the caller can see. */
    method FirstTime(k: Key, game: Id, version: nat, request: Q, hash: Content<Q>, ghost db: Db<S, Q>)
      returns (reply: Reply, ghost m: Moments<S, Q>)
      requires Ok() && Valid(engine, db) && Evolves(db, View()) && hash == Content(k.room, game, version, request)
      modifies this
      ensures Ok() && Evolves(db, View())
      ensures Backed(View(), k, hash, reply) && reply != InvalidRequest && (reliable ==> reply != Unknown)
      ensures Explained(db, View(), k.room, k.actor, Some(k), game, version, request, reply, m)
    {
      Others(db);
      var found := Look(k.room);
      if found.None? {
        var none: Read<S> := *;
        m := Moments(none, View(), View(), View());
        return NoActiveMatch, m;
      }
      var from := found.value;
      var verdict := engine(from.state, request);
      if from.game != game || from.version != version || !agrees(from.state, request) {
        reply, m := RejectStale(k, from, game, version, request, hash, db);
      } else if verdict.Refuse? {
        reply, m := Reject(k, from, hash, verdict.code, db);
      } else {
        reply, m := StoreAndReply(k, from, request, verdict.next, verdict.finished, hash, db);
      }
    }

    /** The room has another match, version, turn or phase than the request expects. */
    method RejectStale(k: Key, from: Read<S>, game: Id, version: nat, request: Q, hash: Content<Q>, ghost db: Db<S, Q>)
      returns (reply: Reply, ghost m: Moments<S, Q>)
      requires Ok() && Valid(engine, db) && Evolves(db, View()) && hash == Content(k.room, game, version, request)
      requires Known(View(), from.game, from.version, from.state) && Current(View(), k.room, from.game, from.version)
      requires View().games[from.game].state == from.state
      requires from.game != game || from.version != version || !agrees(from.state, request)
      modifies this
      ensures Ok() && Evolves(db, View())
      ensures Backed(View(), k, hash, reply) && reply != InvalidRequest && (reliable ==> reply != Unknown)
      ensures Explained(db, View(), k.room, k.actor, Some(k), game, version, request, reply, m)
    {
      ghost var looked := View();
      Unchanged(engine, looked);
      LookedElsewhere(engine, looked, k.room, from, game);
      reply, m := Reject(k, from, hash, StateConflict, looked);
      Chain(engine, db, looked, View());
      m := m.(at := looked);
    }

    /** Stores the result; if that seems to have failed, the receipt decides. */
    method StoreAndReply(k: Key, from: Read<S>, request: Q, next: S, finished: bool, hash: Content<Q>,
                         ghost db: Db<S, Q>)
      returns (reply: Reply, ghost m: Moments<S, Q>)
      requires Ok() && Valid(engine, db) && Evolves(db, View())
      requires Known(View(), from.game, from.version, from.state) && agrees(from.state, request)
      requires engine(from.state, request) == Move(next, finished)
      requires hash == Content(k.room, from.game, from.version, request)
      modifies this
      ensures Ok() && Evolves(db, View())
      ensures Backed(View(), k, hash, reply) && reply != InvalidRequest && (reliable ==> reply != Unknown)
      ensures Explained(db, View(), k.room, k.actor, Some(k), from.game, from.version, request, reply, m)
    {
      var result;
      result, m := StoreFor(k.room, k.actor, from, request, next, finished, Some(k), db);
      var lost := Fault();
      if result == Result.Ok && !lost {
        return Accepted(from.version + 1, false), m;
      }
      reply, m := AfterFailure(k, from, request, hash, result, lost, db, m);
    }

    /** Storing failed, or seemed to: the receipt decides, then the state of the match. */
    method AfterFailure(k: Key, from: Read<S>, request: Q, hash: Content<Q>, result: Result, lost: bool,
                        ghost db: Db<S, Q>, ghost seen: Moments<S, Q>)
      returns (reply: Reply, ghost m: Moments<S, Q>)
      requires Ok() && Valid(engine, db) && Evolves(db, View()) && (lost ==> !reliable)
      requires (result == Result.Ok ==> lost)
      requires hash == Content(k.room, from.game, from.version, request)
      requires NotStored(db, View(), k.room, k.actor, Some(k), from, result, seen)
      modifies this
      ensures Ok() && Evolves(db, View())
      ensures Backed(View(), k, hash, reply) && reply != InvalidRequest && (reliable ==> reply != Unknown)
      ensures Explained(db, View(), k.room, k.actor, Some(k), from.game, from.version, request, reply, m)
    {
      ghost var mid := View();
      m := seen;
      Others(db);
      var broken := Fault();
      if !broken && k in receipts {
        ReplayedVersion(engine, View(), k, hash);
        return Replayed(receipts[k], hash), m;
      }
      if result == Conflict && from.game in games {
        reply, m := RejectChanged(k, from, request, hash, db, mid, m);
      } else if lost || broken {
        reply := Unknown;
      } else {
        reply, m := GiveUp(k, from, request, result, db, mid, m);
      }
    }

    /** No receipt, and the match is gone or was not allowed to end: the caller gets the error. */
    method GiveUp(k: Key, from: Read<S>, request: Q, result: Result, ghost db: Db<S, Q>, ghost mid: Db<S, Q>,
                  ghost seen: Moments<S, Q>)
      returns (reply: Reply, ghost m: Moments<S, Q>)
      requires Ok() && Valid(engine, db) && Valid(engine, mid) && Evolves(db, View()) && Evolves(mid, View())
      requires NotStored(db, mid, k.room, k.actor, Some(k), from, result, seen)
      requires k !in receipts && result != Result.Ok
      ensures reply == Refused(result)
      ensures Explained(db, View(), k.room, k.actor, Some(k), from.game, from.version, request, reply, m)
    {
      m := seen;
      if result == AlreadySaved {
        RoomIsGone(engine, mid, View(), k);
        Unchanged(engine, View());
        m := m.(at := View());
      } else if result == Forbidden {
        Chain(engine, m.last, mid, View());
      } else {
        Chain(engine, m.at, mid, View());
      }
      reply := Refused(result);
    }

    /** The match went on in the meantime: the request is refused at the version the match has now. */
    method RejectChanged(k: Key, from: Read<S>, request: Q, hash: Content<Q>, ghost db: Db<S, Q>, ghost mid: Db<S, Q>,
                         ghost seen: Moments<S, Q>)
      returns (reply: Reply, ghost m: Moments<S, Q>)
      requires Ok() && Valid(engine, db) && Evolves(db, View()) && from.game in games
      requires hash == Content(k.room, from.game, from.version, request)
      requires During(engine, db, seen.at, mid) && Evolves(mid, View())
      requires !Current(seen.at, k.room, from.game, from.version)
      modifies this
      ensures Ok() && Evolves(db, View())
      ensures Backed(View(), k, hash, reply) && reply != InvalidRequest && (reliable ==> reply != Unknown)
      ensures Explained(db, View(), k.room, k.actor, Some(k), from.game, from.version, request, reply, m)
    {
      ghost var before := View();
      Chain(engine, seen.at, mid, before);
      assert HistoryFits(before, from.game);
      var current := Read(from.game, games[from.game].version, games[from.game].state);
      CurrentIsKnown(before, from.game, current.version, current.state);
      reply, m := Reject(k, current, hash, StateConflict, seen.at);
      m := m.(at := seen.at);
      Chain(engine, db, seen.at, View());
    }

    /** Stores a refusal, unless the request already has a receipt; then that one is the answer. */
    method Reject(k: Key, from: Read<S>, hash: Content<Q>, code: Code, ghost db: Db<S, Q>)
      returns (reply: Reply, ghost m: Moments<S, Q>)
      requires Ok() && Valid(engine, db) && Evolves(db, View())
      requires hash.room == k.room && Known(View(), from.game, from.version, from.state)
      modifies this
      ensures Ok() && Evolves(db, View()) && Known(View(), from.game, from.version, from.state)
      ensures Backed(View(), k, hash, reply) && (reliable ==> reply != Unknown)
      ensures m.from == from && !reply.NoActiveMatch? && !reply.InvalidRequest? && reply != Refused(Forbidden)
      ensures reply.Accepted? ==> reply.replayed && reply.version == hash.version + 1
      ensures reply.Rejected? ==> reply.replayed || reply == Rejected(from.version, code, false)
      ensures reply.Refused? ==> During(engine, db, m.at, View()) && from.game !in ActiveIn(m.at, k.room)
    {
      ghost var start := View();
      Others(db);
      StaysKnown(start, View(), from.game, from.version, from.state);
      ghost var mid := View();
      m := Moments(from, mid, mid, mid);
      var result := Save(k, Receipt(from.game, hash, false, from.version, code));
      Chain(engine, db, mid, View());
      StaysKnown(mid, View(), from.game, from.version, from.state);
      var lost := Fault();
      if result == Result.Ok {
        return if lost then Unknown else Rejected(from.version, code, false), m;
      }
      if result == AlreadySaved {
        reply, m := Saved(k, from, hash, lost, db);
      } else {
        GamesAreBorn(engine, mid);
        Unchanged(engine, mid);
        reply := if lost then Unknown else Refused(result);
      }
    }

    /** The receipt that was stored first is the answer, unless it is gone with its room. */
    method Saved(k: Key, from: Read<S>, hash: Content<Q>, lost: bool, ghost db: Db<S, Q>)
      returns (reply: Reply, ghost m: Moments<S, Q>)
      requires Ok() && Valid(engine, db) && Evolves(db, View()) && (lost ==> !reliable) && k in receipts
      requires Known(View(), from.game, from.version, from.state)
      modifies this
      ensures Ok() && Evolves(db, View()) && Known(View(), from.game, from.version, from.state)
      ensures Backed(View(), k, hash, reply) && (reliable ==> reply != Unknown)
      ensures m.from == from && !reply.NoActiveMatch? && !reply.InvalidRequest? && reply != Refused(Forbidden)
      ensures reply.Accepted? ==> reply.replayed && reply.version == hash.version + 1
      ensures reply.Rejected? ==> reply.replayed
      ensures reply.Refused? ==> During(engine, db, m.at, View()) && ActiveIn(m.at, k.room) == {}
    {
      ghost var mid := View();
      Others(db);
      StaysKnown(mid, View(), from.game, from.version, from.state);
      Unchanged(engine, View());
      m := Moments(from, View(), View(), View());
      if k in receipts {
        ReplayedVersion(engine, View(), k, hash);
        reply := if lost then Unknown else Replayed(receipts[k], hash);
      } else {
        RoomIsGone(engine, mid, View(), k);
        reply := if lost then Unknown else Refused(NotFound);
      }
    }

    /** The actor is one of the bots of the room, or a human who joined it. The two are read one after the other. */
    method Admit(room: Id, actor: Id, ghost db: Db<S, Q>)
      returns (result: Result, ghost first: Db<S, Q>, ghost last: Db<S, Q>)
      requires Ok() && Valid(engine, db) && Evolves(db, View())
      modifies this
      ensures Ok() && Evolves(db, View()) && During(engine, db, first, last) && During(engine, db, last, View())
      ensures result == NotFound <==> room !in first.rooms
      ensures result == Result.Ok <==>
                room in first.rooms && (actor in BotsOf(first, room) || actor in PeopleOf(last, room))
      ensures result in {Result.Ok, NotFound, Forbidden}
    {
      first, last := View(), View();
      Unchanged(engine, first);
      if room !in rooms {
        return NotFound, first, last;
      }
      var bots := rooms[room].bots;
      Others(db);
      last := View();
      Unchanged(engine, last);
      var people := if room in rooms then rooms[room].people else {};
      result := if actor in bots || actor in people then Result.Ok else Forbidden;
    }

    /** Why nothing was stored: there is a receipt, the actor is not in the room, or the room has moved on. */
    ghost predicate NotStored(a: Db<S, Q>, b: Db<S, Q>, room: Id, actor: Id, cause: Option<Key>, from: Read<S>,
                              result: Result, m: Moments<S, Q>)
    {
      match result
      case Ok => true
      case AlreadySaved => cause.Some? && cause.value in b.receipts
      case Forbidden =>
        During(engine, a, m.first, m.last) && During(engine, a, m.last, b) && !Admitted(m, room, actor)
      case _ => During(engine, a, m.at, b) && !Current(m.at, room, from.game, from.version)
    }

    /** Before a match is ended: the actor must be in the room. */
    method AdmitToEnd(room: Id, actor: Id, from: Read<S>, cause: Option<Key>, ghost db: Db<S, Q>)
      returns (result: Result, ghost m: Moments<S, Q>)
      requires Ok() && Valid(engine, db) && Evolves(db, View())
      modifies this
      ensures Ok() && Evolves(db, View()) && Evolves(old(View()), View()) && m.from == from
      ensures During(engine, db, m.first, m.last) && During(engine, db, m.last, View())
      ensures if result == Result.Ok then Admitted(m, room, actor)
              else result != AlreadySaved && NotStored(db, View(), room, actor, cause, from, result, m)
    {
      ghost var start, first, last := View(), View(), View();
      Unchanged(engine, start);
      result, first, last := Admit(room, actor, start);
      Chain(engine, db, start, first);
      Chain(engine, db, start, last);
      m := Moments(from, first, last, first);
      if result == Result.Ok {
        Others(last);
        Chain(engine, start, last, View());
      } else {
        GamesAreBorn(engine, first);
        Chain(engine, first, last, View());
      }
      Chain(engine, db, start, View());
    }

    /** Stores a result for an actor: the end of a match is refused unless the actor was still in the room. */
    method StoreFor(room: Id, actor: Id, from: Read<S>, request: Q, next: S, finished: bool, cause: Option<Key>,
                    ghost db: Db<S, Q>)
      returns (result: Result, ghost m: Moments<S, Q>)
      requires Ok() && Valid(engine, db) && Evolves(db, View()) && Known(View(), from.game, from.version, from.state)
      requires engine(from.state, request) == Move(next, finished) && (cause.Some? ==> cause.value.room == room)
      modifies this
      ensures Ok() && Evolves(db, View()) && m.from == from && Known(View(), from.game, from.version, from.state)
      ensures result == Result.Ok ==>
                && During(engine, db, m.at, View())
                && Stored(m.at, View(), room, from, request, next, finished, cause)
                && (cause.Some? ==> Acknowledged(View(), cause.value, from, request))
                && (finished ==> && During(engine, db, m.first, m.last) && During(engine, db, m.last, View())
                                 && Admitted(m, room, actor))
      ensures NotStored(db, View(), room, actor, cause, from, result, m)
    {
      ghost var start := View();
      Others(db);
      StaysKnown(start, View(), from.game, from.version, from.state);
      ghost var mid := View();
      Unchanged(engine, mid);
      result, m := Result.Ok, Moments(from, mid, mid, mid);
      if finished {
        result, m := AdmitToEnd(room, actor, from, cause, db);
        StaysKnown(mid, View(), from.game, from.version, from.state);
      }
      if result == Result.Ok {
        result, m := StoreNow(room, actor, from, request, next, finished, cause, db, m);
      }
    }

    /** The last step: nobody interferes with it. */
    method StoreNow(room: Id, actor: Id, from: Read<S>, request: Q, next: S, finished: bool, cause: Option<Key>,
                    ghost db: Db<S, Q>, ghost seen: Moments<S, Q>)
      returns (result: Result, ghost m: Moments<S, Q>)
      requires Ok() && Valid(engine, db) && Evolves(db, View()) && Known(View(), from.game, from.version, from.state)
      requires engine(from.state, request) == Move(next, finished) && (cause.Some? ==> cause.value.room == room)
      requires seen.from == from && Valid(engine, seen.last) && Evolves(seen.last, View())
      modifies this
      ensures Ok() && Evolves(db, View()) && m == seen.(at := old(View())) && Evolves(m.last, View())
      ensures Known(View(), from.game, from.version, from.state)
      ensures result == Result.Ok ==>
                && During(engine, db, m.at, View())
                && Stored(m.at, View(), room, from, request, next, finished, cause)
                && (cause.Some? ==> Acknowledged(View(), cause.value, from, request))
      ensures NotStored(db, View(), room, actor, cause, from, result, m) && result != Forbidden
    {
      ghost var before := View();
      Unchanged(engine, before);
      result := Store(room, from, request, next, finished, cause);
      StaysKnown(before, View(), from.game, from.version, from.state);
      Chain(engine, db, before, View());
      Chain(engine, seen.last, before, View());
      m := seen.(at := before);
    }

    // -------------------------------------------------------------- timeouts

    /** A timeout acts only on the version, phase, turn and player it was set for, and stores its result without a
        receipt. When the match ends by it, the player it was set for is still in the room. */
    method ApplyTurnTimeout(room: Id, actor: Id, game: Id, version: nat, request: Q)
      returns (reply: Reply, ghost m: Moments<S, Q>)
      requires Ok()
      modifies this
      ensures Ok() && Evolves(old(View()), View())
      ensures Explained(old(View()), View(), room, actor, None, game, version, request, reply, m)
      ensures !reply.ActionIdConflict? && !reply.InvalidRequest?
      ensures reply.Accepted? || reply.Rejected? ==> !reply.replayed
      ensures reliable ==> reply != Unknown
    {
      ghost var db := View();
      Unchanged(engine, db);
      Others(db);
      Unchanged(engine, View());
      var found := Look(room);
      if found.None? {
        var none: Read<S> := *;
        return NoActiveMatch, Moments(none, View(), View(), View());
      }
      var from := found.value;
      m := Moments(from, View(), View(), View());
      if from.game != game || from.version != version || !agrees(from.state, request) {
        LookedElsewhere(engine, View(), room, from, game);
        return Rejected(from.version, StateConflict, false), m;
      }
      var verdict := engine(from.state, request);
      if verdict.Refuse? {
        return Rejected(version, verdict.code, false), m;
      }
      var result;
      result, m := StoreFor(room, actor, from, request, verdict.next, verdict.finished, None, db);
      var lost := Fault();
      reply := if lost then Unknown else if result == Result.Ok then Accepted(version + 1, false) else Refused(result);
    }
  }

  // ---------------------------------------------------------------- proofs about single steps

  lemma Chain<S(!new), Q(!new)>(engine: (S, Q) -> Verdict<S>, a: Db<S, Q>, b: Db<S, Q>, c: Db<S, Q>)
    requires Valid(engine, a) && Evolves(a, b) && Evolves(b, c)
    ensures Evolves(a, c)
  {
    GamesAreBorn(engine, a);
    EvolvesTransitive(a, b, c);
  }

  /** An accepted receipt is about the version after the one its hash covers. */
  lemma ReplayedVersion<S(!new), Q(!new)>(engine: (S, Q) -> Verdict<S>, db: Db<S, Q>, k: Key, hash: Content<Q>)
    requires Valid(engine, db) && k in db.receipts
    ensures var reply := Replayed(db.receipts[k], hash);
            && (reply.Accepted? ==> reply.replayed && reply.version == hash.version + 1)
            && (reply.Rejected? ==> reply.replayed)
  {
    assert ReceiptFits(db, k);
    if db.receipts[k].accepted {
      var c :| c in db.log && CausedBy(c, k, db.receipts[k]);
    }
  }

  /** A receipt disappears only with its room. */
  lemma RoomIsGone<S(!new), Q(!new)>(engine: (S, Q) -> Verdict<S>, db: Db<S, Q>, e: Db<S, Q>, k: Key)
    requires Evolves(db, e) && Valid(engine, e) && k in db.receipts
    ensures k in e.receipts || ActiveIn(e, k.room) == {}
  {
    GamesAreBorn(engine, e);
  }

  lemma Forgotten<S(!new), Q(!new)>(engine: (S, Q) -> Verdict<S>, a: Db<S, Q>, b: Db<S, Q>, c: Db<S, Q>, k: Key)
    requires Valid(engine, a) && Evolves(a, b) && Evolves(b, c) && k in a.receipts && k !in b.receipts
    ensures k.room !in c.rooms
  {
    GamesAreBorn(engine, a);
  }

  /** A room has one active match, so a match that is not the one found is not active there. */
  lemma LookedElsewhere<S(!new), Q(!new)>(engine: (S, Q) -> Verdict<S>, db: Db<S, Q>, room: Id, from: Read<S>, game: Id)
    requires Valid(engine, db) && from.game in ActiveIn(db, room)
    ensures game != from.game ==> game !in ActiveIn(db, room)
  {
    GamesAreBorn(engine, db);
    StatusIsRight(engine, db, room);
  }

  lemma WhyNotMoved<S(!new), Q(!new)>(engine: (S, Q) -> Verdict<S>, db: Db<S, Q>, room: Id, c: Commit<S, Q>,
                                      receipt: Option<Receipt<Q>>)
    requires Valid(engine, db) && ReceiptOf(c, receipt) && c.version > 0
    requires c.cause.Some? ==> c.cause.value.room == room
    ensures var r := PersistActionResult(db, c, receipt).1;
            && r != Forbidden
            && (r == AlreadySaved ==> c.cause.Some? && c.cause.value in db.receipts)
            && (r != Ok && r != AlreadySaved ==> !Current(db, room, c.game, c.version - 1))
  {
    GamesAreBorn(engine, db);
  }

  lemma WhyNotEnded<S(!new), Q(!new)>(engine: (S, Q) -> Verdict<S>, db: Db<S, Q>, room: Id, found: Option<Id>,
                                      c: Commit<S, Q>, receipt: Option<Receipt<Q>>)
    requires Valid(engine, db) && ReceiptOf(c, receipt) && c.version > 0
    requires if found.None? then ActiveIn(db, room) == {} else found.value in ActiveIn(db, room)
    requires c.cause.Some? ==> c.cause.value.room == room
    ensures var r := TerminateActiveMatch(db, room, found, Some(c), receipt).1;
            && r != Forbidden
            && (r == AlreadySaved ==> c.cause.Some? && c.cause.value in db.receipts)
            && (r != Ok && r != AlreadySaved ==> !Current(db, room, c.game, c.version - 1))
  {
    GamesAreBorn(engine, db);
    if found.Some? { StatusIsRight(engine, db, room); }
  }

  /** The receipt says that the request was applied to the state that was read. */
  ghost predicate Acknowledged<S, Q>(db: Db<S, Q>, k: Key, from: Read<S>, request: Q) {
    && k in db.receipts && db.receipts[k].accepted && db.receipts[k].version == from.version + 1
    && db.receipts[k].hash == Content(k.room, from.game, from.version, request)
  }

  /** One commit leads from before to after: the engine's result on a state that was read is the next version of an
      active match. While the match goes on, it is the match that was read. When it ends, it is the active match of the
      room, which is the one that was read if and only if that one is active there. And then the state that was read is
      the state replaced. */
  ghost predicate Stored<S(!new), Q(!new)>(before: Db<S, Q>, after: Db<S, Q>, room: Id, from: Read<S>, request: Q,
                                           next: S, finished: bool, cause: Option<Key>)
  {
    |after.log| > 0 &&
    var c := after.log[|after.log| - 1];
    && after.log == before.log + [c] &&
       c == Commit(c.game, from.game, finished, from.version + 1, from.state, request, next, cause)
    && c.game in before.games && before.games[c.game].active && before.games[c.game].version == from.version
    && c.game in after.games && after.games[c.game].version == from.version + 1 && after.games[c.game].state == next
    && (if finished then c.game in ActiveIn(before, room) &&
                         (c.game == from.game <==> ActiveIn(before, room) == {from.game}) else c.game == from.game)
    && (c.game == from.game ==> before.games[c.game].state == from.state)
  }

  lemma FinalIsStored<S(!new), Q(!new)>(engine: (S, Q) -> Verdict<S>, db: Db<S, Q>, room: Id, found: Option<Id>,
                                        from: Read<S>, c: Commit<S, Q>, receipt: Option<Receipt<Q>>)
    requires Valid(engine, db) && (found.Some? ==> found.value in ActiveIn(db, room)) && Honest(engine, db, c)
    requires ReceiptOf(c, receipt)
    requires c == Commit(from.game, from.game, true, from.version + 1, from.state, c.request, c.next, c.cause)
    requires TerminateActiveMatch(db, room, found, Some(c), receipt).1 == Ok
    ensures Stored(db, TerminateActiveMatch(db, room, found, Some(c), receipt).0, room, from, c.request, c.next, true,
              c.cause)
  {
    var e := TerminateActiveMatch(db, room, found, Some(c), receipt).0;
    FinalPathIsRightIff(engine, db, room, found.value, c, receipt);
    assert HistoryFits(db, found.value);
    CurrentIsKnown(db, found.value, from.version, from.state);
    assert e.log[|e.log| - 1] == c.(game := found.value);
  }

  lemma MoveIsStored<S(!new), Q(!new)>(engine: (S, Q) -> Verdict<S>, db: Db<S, Q>, room: Id, from: Read<S>,
                                       c: Commit<S, Q>, receipt: Option<Receipt<Q>>)
    requires Valid(engine, db) && Honest(engine, db, c) && ReceiptOf(c, receipt)
    requires c == Commit(from.game, from.game, false, from.version + 1, from.state, c.request, c.next, c.cause)
    requires PersistActionResult(db, c, receipt).1 == Ok
    ensures Stored(db, PersistActionResult(db, c, receipt).0, room, from, c.request, c.next, false, c.cause)
  {
    PersistKeeps(engine, db, c, receipt);
    assert PersistActionResult(db, c, receipt).0.log[|db.log|] == c;
  }

  ghost predicate AllKnown<S(!new), Q(!new)>(db: Db<S, Q>, snapshots: seq<Read<S>>) {
    forall i {:trigger snapshots[i]} :: 0 <= i < |snapshots| ==>
        Known(db, snapshots[i].game, snapshots[i].version, snapshots[i].state)
  }

  lemma KnownAfter<S(!new), Q(!new)>(db: Db<S, Q>, e: Db<S, Q>, snapshots: seq<Read<S>>)
    requires Evolves(db, e) && AllKnown(db, snapshots)
    ensures AllKnown(e, snapshots)
  {
    forall i | 0 <= i < |snapshots|
      ensures Known(e, snapshots[i].game, snapshots[i].version, snapshots[i].state)
    {
      StaysKnown(db, e, snapshots[i].game, snapshots[i].version, snapshots[i].state);
    }
  }
}
