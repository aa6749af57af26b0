/** Every transaction keeps the invariant of the database and makes only changes that last. */
module Transactions {
  import opened Tiles
  import opened Database

  lemma SameGames<S(!new), Q(!new)>(db: Db<S, Q>, e: Db<S, Q>, room: Id)
    requires e.games == db.games && e.born == db.born
    ensures ActiveIn(e, room) == ActiveIn(db, room)
    ensures forall g :: Stillborn(e, g) <==> Stillborn(db, g)
  {}

  /** Rooms, matches and history unchanged: everything about them stays. */
  ghost predicate SameCore<S(!new), Q(!new)>(db: Db<S, Q>, e: Db<S, Q>) {
    e.games == db.games && e.log == db.log && e.born == db.born && e.outbox == db.outbox
  }

  // ---------------------------------------------------------------- rooms

  lemma CreateKeeps<S(!new), Q(!new)>(engine: (S, Q) -> Verdict<S>, db: Db<S, Q>, room: Id, maxPlayers: nat,
                                      bots: set<Id>)
    requires Valid(engine, db)
    ensures var e := CreateRoom(db, room, maxPlayers, bots);
            Valid(engine, e) && Evolves(db, e)
  {
    var e := CreateRoom(db, room, maxPlayers, bots);
    if room !in db.ever {
      forall r | r in e.rooms
        ensures RoomFits(e, r)
      {
        SameGames(db, e, r);
        if r == room {
          forall g | g in db.games
            ensures db.games[g].room != room
          {
            assert HistoryFits(db, g);
            assert RoomFits(db, db.games[g].room);
          }
        } else {
          assert RoomFits(db, r);
        }
      }
      RestKept(engine, db, e);
    }
  }

  /** With the same matches, history and receipts, the rest of the invariant stays if no room in use disappears. */
  lemma RestKept<S(!new), Q(!new)>(engine: (S, Q) -> Verdict<S>, db: Db<S, Q>, e: Db<S, Q>)
    requires Valid(engine, db) && SameCore(db, e) && e.receipts == db.receipts
    requires db.rooms.Keys <= e.rooms.Keys && db.ever <= e.ever
    requires forall r :: r in e.rooms && r !in db.rooms ==> r !in db.ever
    requires forall r :: r in e.rooms ==> RoomFits(e, r)
    ensures Valid(engine, e) && Evolves(db, e)
  {
    forall g | g in e.games
      ensures HistoryFits(e, g) && e.games[g].room in e.rooms
    {
      assert HistoryFits(db, g);
    }
    forall g
      ensures OutboxFits(e, g) && BornFits(e, g)
    {
      assert OutboxFits(db, g) && BornFits(db, g);
    }
    forall i: nat | i < |e.log|
      ensures CommitFits(engine, e, i)
    {
      assert CommitFits(engine, db, i);
    }
    forall k | k in e.receipts
      ensures ReceiptFits(e, k)
    {
      assert ReceiptFits(db, k);
    }
  }

  lemma JoinedRoom<S(!new), Q(!new)>(db: Db<S, Q>, room: Id, actor: Id, reserved: nat)
    requires room in db.rooms && RoomFits(db, room)
    ensures RoomFits(JoinRoom(db, room, actor, reserved).0, room)
  {
    var e := JoinRoom(db, room, actor, reserved).0;
    SameGames(db, e, room);
    if actor in db.rooms[room].people {
      assert db.rooms[room].people + {actor} == db.rooms[room].people;
    }
  }

  lemma JoinKeeps<S(!new), Q(!new)>(engine: (S, Q) -> Verdict<S>, db: Db<S, Q>, room: Id, actor: Id, reserved: nat)
    requires Valid(engine, db)
    ensures var e := JoinRoom(db, room, actor, reserved).0;
            Valid(engine, e) && Evolves(db, e)
  {
    var e := JoinRoom(db, room, actor, reserved).0;
    forall r | r in e.rooms
      ensures RoomFits(e, r)
    {
      assert RoomFits(db, r);
      if r == room {
        JoinedRoom(db, room, actor, reserved);
      } else {
        SameGames(db, e, r);
      }
    }
    RestKept(engine, db, e);
  }

  /** New settings never push the capacity below the number of humans who are in. */
  lemma SettingsKeep<S(!new), Q(!new)>(engine: (S, Q) -> Verdict<S>, db: Db<S, Q>, room: Id, maxPlayers: nat,
                                       bots: set<Id>, reserved: nat)
    requires Valid(engine, db)
    ensures var e := UpdateSettings(db, room, maxPlayers, bots, reserved).0;
            Valid(engine, e) && Evolves(db, e)
  {
    var e := UpdateSettings(db, room, maxPlayers, bots, reserved).0;
    forall r | r in e.rooms
      ensures RoomFits(e, r)
    {
      assert RoomFits(db, r);
      SameGames(db, e, r);
    }
    RestKept(engine, db, e);
  }

  lemma LeaveKeeps<S(!new), Q(!new)>(engine: (S, Q) -> Verdict<S>, db: Db<S, Q>, room: Id, actor: Id)
    requires Valid(engine, db)
    ensures var e := LeaveRoom(db, room, actor);
            Valid(engine, e) && Evolves(db, e)
  {
    var e := LeaveRoom(db, room, actor);
    forall r | r in e.rooms
      ensures RoomFits(e, r)
    {
      assert RoomFits(db, r);
      SameGames(db, e, r);
      if r == room { Fewer(db.rooms[room].people, actor); }
    }
    RestKept(engine, db, e);
  }

  lemma Fewer(people: set<Id>, actor: Id)
    ensures |people - {actor}| <= |people|
  {
    if actor in people { assert people == (people - {actor}) + {actor}; } else { assert people - {actor} == people; }
  }

  // ---------------------------------------------------------------- starting a match

  lemma NoCommitYet<S(!new), Q(!new)>(engine: (S, Q) -> Verdict<S>, db: Db<S, Q>, g: Id, start: Row<S>, n: nat)
    requires Valid(engine, db) && g !in db.born && n <= |db.log|
    ensures Linked(db.log[..n], g, start) && Latest(db.log[..n], g, start) == (start.version, start.state)
    decreases n
  {
    if n > 0 {
      assert CommitFits(engine, db, n - 1);
      NoCommitYet(engine, db, g, start, n - 1);
      assert db.log[..n][..n - 1] == db.log[..n - 1];
    }
  }

  lemma GamesAreBorn<S(!new), Q(!new)>(engine: (S, Q) -> Verdict<S>, db: Db<S, Q>)
    requires Valid(engine, db)
    ensures forall g :: g in db.games ==> g in db.born && db.games[g].room in db.rooms
    ensures forall k :: k in db.receipts ==> k.room in db.rooms && k.room in db.ever
    ensures forall r :: r in db.rooms ==> r in db.ever
  {
    forall g | g in db.games
      ensures g in db.born && db.games[g].room in db.rooms
    {
      assert HistoryFits(db, g);
    }
    forall r | r in db.rooms
      ensures r in db.ever
    {
      assert RoomFits(db, r);
    }
    forall k | k in db.receipts
      ensures k.room in db.rooms
    {
      assert ReceiptFits(db, k);
    }
  }

  lemma StartedRooms<S(!new), Q(!new)>(engine: (S, Q) -> Verdict<S>, db: Db<S, Q>, room: Id, g: Id, version: nat,
                                       state: S, active: bool, humans: set<Id>, seats: nat, x: Id)
    requires Valid(engine, db) && x in db.rooms
    requires StartRoomWithMatch(db, room, g, version, state, active, humans, seats).1 == Ok
    ensures var e := StartRoomWithMatch(db, room, g, version, state, active, humans, seats).0;
            x in e.rooms && RoomFits(e, x) &&
            (x == room ==> (StatusFits(e, x) <==> active) && (Stuck(e, x) <==> !active))
  {
    var e := StartRoomWithMatch(db, room, g, version, state, active, humans, seats).0;
    GamesAreBorn(engine, db);
    assert RoomFits(db, x);
    if x == room && active {
      assert ActiveIn(e, x) == ActiveIn(db, x) + {g} == {g};
    } else {
      assert ActiveIn(e, x) == ActiveIn(db, x);
      if Stuck(db, x) {
        var h :| h in db.games && db.games[h].room == x && Stillborn(db, h);
        assert h in e.games && e.games[h].room == x && Stillborn(e, h);
      } else if x == room {
        assert g in e.games && e.games[g].room == x && Stillborn(e, g);
      }
    }
  }

  /** After a match was started, the status of its room fits if and only if the match was not over from the start. */
  lemma StartFitsIffActive<S(!new), Q(!new)>(engine: (S, Q) -> Verdict<S>, db: Db<S, Q>, room: Id, g: Id, version: nat,
                                             state: S, active: bool, humans: set<Id>, seats: nat)
    requires Valid(engine, db) && StartRoomWithMatch(db, room, g, version, state, active, humans, seats).1 == Ok
    ensures var e := StartRoomWithMatch(db, room, g, version, state, active, humans, seats).0;
            room in e.rooms && (StatusFits(e, room) <==> active) && (Stuck(e, room) <==> !active)
  {
    StartedRooms(engine, db, room, g, version, state, active, humans, seats, room);
  }

  lemma StartKeeps<S(!new), Q(!new)>(engine: (S, Q) -> Verdict<S>, db: Db<S, Q>, room: Id, g: Id, version: nat,
                                     state: S, active: bool, humans: set<Id>, seats: nat)
    requires Valid(engine, db)
    ensures var e := StartRoomWithMatch(db, room, g, version, state, active, humans, seats).0;
            Valid(engine, e) && Evolves(db, e)
  {
    var (e, r) := StartRoomWithMatch(db, room, g, version, state, active, humans, seats);
    if r == Ok {
      forall x | x in e.rooms
        ensures RoomFits(e, x)
      {
        StartedRooms(engine, db, room, g, version, state, active, humans, seats, x);
      }
      NoCommitYet(engine, db, g, e.born[g], |db.log|);
      assert db.log[..|db.log|] == db.log;
      StartRest(engine, db, e, room, g);
    } else {
      Unchanged(engine, db);
    }
  }

  /** A room none of whose matches was finished from the start is playing exactly when it has exactly one active
      match. */
  lemma StatusIsRight<S(!new), Q(!new)>(engine: (S, Q) -> Verdict<S>, db: Db<S, Q>, room: Id)
    requires Valid(engine, db) && room in db.rooms
    ensures StatusFits(db, room) || Stuck(db, room)
    ensures (forall g :: g in db.games && db.games[g].room == room ==> !Stillborn(db, g)) ==>
              (db.rooms[room].playing <==> exists g :: ActiveIn(db, room) == {g})
    ensures forall g, h :: g in ActiveIn(db, room) && h in ActiveIn(db, room) ==> g == h
  {
    assert RoomFits(db, room);
    if StatusFits(db, room) && db.rooms[room].playing {
      var k :| ActiveIn(db, room) == {k};
    }
  }

  lemma Unchanged<S(!new), Q(!new)>(engine: (S, Q) -> Verdict<S>, db: Db<S, Q>)
    requires Valid(engine, db)
    ensures Evolves(db, db)
  {}

  lemma StartedHistory<S(!new), Q(!new)>(engine: (S, Q) -> Verdict<S>, db: Db<S, Q>, e: Db<S, Q>, room: Id, g: Id,
                                         x: Id)
    requires Valid(engine, db) && g !in db.born && g in e.born && room in db.rooms && x in e.games
    requires e.log == db.log && e.rooms.Keys == db.rooms.Keys
    requires e.games == db.games[g := e.born[g]] && e.born == db.born[g := e.born[g]] && e.born[g].room == room
    requires Linked(db.log, g, e.born[g]) && Latest(db.log, g, e.born[g]) == (e.born[g].version, e.born[g].state)
    ensures HistoryFits(e, x) && e.games[x].room in e.rooms
  {
    if x != g { assert HistoryFits(db, x); }
  }

  lemma StartRest<S(!new), Q(!new)>(engine: (S, Q) -> Verdict<S>, db: Db<S, Q>, e: Db<S, Q>, room: Id, g: Id)
    requires Valid(engine, db) && g !in db.born && g in e.born && room in db.rooms
    requires e.log == db.log && e.outbox == db.outbox && e.receipts == db.receipts && e.ever == db.ever
    requires e.rooms.Keys == db.rooms.Keys
    requires e.games == db.games[g := e.born[g]] && e.born == db.born[g := e.born[g]] && e.born[g].room == room
    requires Linked(db.log, g, e.born[g]) && Latest(db.log, g, e.born[g]) == (e.born[g].version, e.born[g].state)
    requires forall r :: r in e.rooms ==> RoomFits(e, r)
    ensures Valid(engine, e) && Evolves(db, e)
  {
    forall x | x in e.games
      ensures HistoryFits(e, x) && e.games[x].room in e.rooms
    {
      StartedHistory(engine, db, e, room, g, x);
    }
    forall x | x in db.games
      ensures x != g
    {
      assert HistoryFits(db, x);
    }
    forall x
      ensures OutboxFits(e, x) && BornFits(e, x)
    {
      assert OutboxFits(db, x) && BornFits(db, x);
    }
    forall i: nat | i < |e.log|
      ensures CommitFits(engine, e, i)
    {
      assert CommitFits(engine, db, i);
    }
    forall k | k in e.receipts
      ensures ReceiptFits(e, k)
    {
      assert ReceiptFits(db, k);
    }
  }

  // ---------------------------------------------------------------- commits

  /** The commit was computed by the engine from a version that was really read. */
  ghost predicate Honest<S(!new), Q(!new)>(engine: (S, Q) -> Verdict<S>, db: Db<S, Q>, c: Commit<S, Q>) {
    && c.version > 0 && Known(db, c.readFrom, c.version - 1, c.base) &&
       engine(c.base, c.request) == Move(c.next, c.final)
    && (!c.final ==> c.readFrom == c.game)
  }

  /** An accepted receipt for the commit, with the hash of what was really applied. */
  ghost predicate ReceiptOf<S, Q>(c: Commit<S, Q>, receipt: Option<Receipt<Q>>) {
    && (receipt.Some? <==> c.cause.Some?)
    && (receipt.Some? ==>
          && c.version > 0
          && receipt.value == Receipt(c.game, Content(c.cause.value.room, c.readFrom, c.version - 1, c.request), true,
                                      c.version, NoCode))
  }

  /** A room stays stuck when matches keep their rooms and nothing in it becomes active. */
  lemma StuckStays<S(!new), Q(!new)>(db: Db<S, Q>, e: Db<S, Q>, room: Id)
    requires room in db.rooms && room in e.rooms && e.rooms[room].playing == db.rooms[room].playing && Stuck(db, room)
    requires ActiveIn(e, room) == ActiveIn(db, room)
    requires forall g :: g in db.born ==> g in e.born && e.born[g] == db.born[g]
    requires forall g :: g in db.games && db.games[g].room == room ==> g in e.games && e.games[g].room == room
    ensures Stuck(e, room)
  {
    var g :| g in db.games && db.games[g].room == room && Stillborn(db, g);
    assert Stillborn(e, g);
  }

  /** A request without a receipt has caused no commit. */
  lemma NotAppliedYet<S(!new), Q(!new)>(engine: (S, Q) -> Verdict<S>, db: Db<S, Q>, k: Key)
    requires Valid(engine, db) && k.room in db.rooms && k !in db.receipts
    ensures forall i :: 0 <= i < |db.log| ==> db.log[i].cause != Some(k)
  {
    forall i: nat | i < |db.log|
      ensures db.log[i].cause != Some(k)
    {
      assert CommitFits(engine, db, i);
    }
  }

  lemma OnceMore<S(!new), Q(!new)>(log: seq<Commit<S, Q>>, c: Commit<S, Q>)
    requires AtMostOnce(log) && (c.cause.Some? ==> forall i :: 0 <= i < |log| ==> log[i].cause != c.cause)
    ensures AtMostOnce(log + [c])
  {
    var next := log + [c];
    forall i, j | 0 <= i < j < |next| && next[i].cause.Some?
      ensures next[i].cause != next[j].cause
    {
      if j < |log| { assert log[i].cause != log[j].cause; }
    }
  }

  /** The database after a commit to one match: everything else about history and receipts stays. */
  ghost predicate Committed<S(!new), Q(!new)>(db: Db<S, Q>, e: Db<S, Q>, c: Commit<S, Q>, receipt: Option<Receipt<Q>>) {
    && (receipt.Some? <==> c.cause.Some?)
    && c.game in db.games && e.log == db.log + [c] && e.born == db.born && e.ever == db.ever &&
       e.rooms.Keys == db.rooms.Keys
    && e.games.Keys == db.games.Keys && (forall g :: g in db.games && g != c.game ==> e.games[g] == db.games[g])
    && e.games[c.game].room == db.games[c.game].room && (e.games[c.game].active ==> db.games[c.game].active) &&
       e.games[c.game].version == c.version && e.games[c.game].state == c.next
    && db.games[c.game].version == c.version - 1
    && e.receipts == (if receipt.Some? then db.receipts[c.cause.value := receipt.value] else db.receipts)
    && (receipt.Some? ==> c.cause.value !in db.receipts && c.cause.value.room == db.games[c.game].room)
  }

  lemma CommittedHistory<S(!new), Q(!new)>(engine: (S, Q) -> Verdict<S>, db: Db<S, Q>, e: Db<S, Q>, c: Commit<S, Q>,
                                           receipt: Option<Receipt<Q>>, g: Id)
    requires Valid(engine, db) && Honest(engine, db, c) && Committed(db, e, c, receipt) && g in e.games
    ensures HistoryFits(e, g)
  {
    assert HistoryFits(db, g);
    assert (db.log + [c])[..|db.log|] == db.log;
    if g == c.game && c.readFrom == g {
      CurrentIsKnown(db, g, c.version - 1, c.base);
    }
  }

  lemma CommittedBorn<S(!new), Q(!new)>(engine: (S, Q) -> Verdict<S>, db: Db<S, Q>, e: Db<S, Q>, c: Commit<S, Q>,
                                        receipt: Option<Receipt<Q>>, g: Id)
    requires Valid(engine, db) && Honest(engine, db, c) && Committed(db, e, c, receipt)
    ensures BornFits(e, g)
  {
    assert BornFits(db, g);
    assert (db.log + [c])[..|db.log|] == db.log;
    if g == c.game {
      CommittedHistory(engine, db, e, c, receipt, g);
    }
  }

  lemma CommittedReceipts<S(!new), Q(!new)>(engine: (S, Q) -> Verdict<S>, db: Db<S, Q>, e: Db<S, Q>, c: Commit<S, Q>,
                                            receipt: Option<Receipt<Q>>, k: Key)
    requires Valid(engine, db) && Committed(db, e, c, receipt) && ReceiptOf(c, receipt) && k in e.receipts
    ensures ReceiptFits(e, k)
  {
    GamesAreBorn(engine, db);
    if k in db.receipts {
      assert ReceiptFits(db, k);
      if db.receipts[k].accepted {
        var d :| d in db.log && CausedBy(d, k, db.receipts[k]);
        assert d in e.log;
      }
    } else {
      assert c in e.log && CausedBy(c, k, e.receipts[k]);
    }
  }

  lemma CommittedCommits<S(!new), Q(!new)>(engine: (S, Q) -> Verdict<S>, db: Db<S, Q>, e: Db<S, Q>, c: Commit<S, Q>,
                                           receipt: Option<Receipt<Q>>, i: nat)
    requires Valid(engine, db) && Honest(engine, db, c) && Committed(db, e, c, receipt) && ReceiptOf(c, receipt)
    requires i < |e.log|
    ensures CommitFits(engine, e, i)
  {
    GamesAreBorn(engine, db);
    if i < |db.log| { assert CommitFits(engine, db, i); }
  }

  /** A commit by compare-and-swap keeps history, receipts and at-most-once; rooms and outbox are up to the caller. */
  lemma CommittedKeeps<S(!new), Q(!new)>(engine: (S, Q) -> Verdict<S>, db: Db<S, Q>, e: Db<S, Q>, c: Commit<S, Q>,
                                         receipt: Option<Receipt<Q>>)
    requires Valid(engine, db) && Honest(engine, db, c) && Committed(db, e, c, receipt) && ReceiptOf(c, receipt)
    requires db.games[c.game].active
    requires (forall r :: r in e.rooms ==> RoomFits(e, r)) && (forall g :: OutboxFits(e, g)) && db.outbox <= e.outbox
    ensures Valid(engine, e) && Evolves(db, e)
  {
    GamesAreBorn(engine, db);
    forall g | g in e.games
      ensures HistoryFits(e, g) && e.games[g].room in e.rooms
    {
      CommittedHistory(engine, db, e, c, receipt, g);
    }
    forall g
      ensures BornFits(e, g)
    {
      CommittedBorn(engine, db, e, c, receipt, g);
    }
    forall k | k in e.receipts
      ensures ReceiptFits(e, k)
    {
      CommittedReceipts(engine, db, e, c, receipt, k);
    }
    forall i: nat | i < |e.log|
      ensures CommitFits(engine, e, i)
    {
      CommittedCommits(engine, db, e, c, receipt, i);
    }
    CommittedOnce(engine, db, e, c, receipt);
    CommittedEvolves(engine, db, e, c, receipt);
  }

  lemma CommittedOnce<S(!new), Q(!new)>(engine: (S, Q) -> Verdict<S>, db: Db<S, Q>, e: Db<S, Q>, c: Commit<S, Q>,
                                        receipt: Option<Receipt<Q>>)
    requires Valid(engine, db) && Committed(db, e, c, receipt)
    ensures AtMostOnce(e.log)
  {
    if c.cause.Some? {
      assert HistoryFits(db, c.game);
      NotAppliedYet(engine, db, c.cause.value);
    }
    OnceMore(db.log, c);
  }

  lemma CommittedEvolves<S(!new), Q(!new)>(engine: (S, Q) -> Verdict<S>, db: Db<S, Q>, e: Db<S, Q>, c: Commit<S, Q>,
                                           receipt: Option<Receipt<Q>>)
    requires Valid(engine, db) && Committed(db, e, c, receipt) && db.games[c.game].active && db.outbox <= e.outbox
    ensures Evolves(db, e)
  {
    GamesAreBorn(engine, db);
  }

  /** A commit that goes on with a match leaves rooms and outbox alone. */
  lemma PersistedRooms<S(!new), Q(!new)>(engine: (S, Q) -> Verdict<S>, db: Db<S, Q>, c: Commit<S, Q>,
                                         receipt: Option<Receipt<Q>>)
    requires Valid(engine, db) && c.version > 0 && (receipt.Some? <==> c.cause.Some?)
    requires PersistActionResult(db, c, receipt).1 == Ok
    ensures var e := PersistActionResult(db, c, receipt).0;
            (forall x {:trigger RoomFits(e, x)} :: x in e.rooms ==> RoomFits(e, x)) &&
            (forall g {:trigger OutboxFits(e, g)} :: OutboxFits(e, g))
  {
    var e := PersistActionResult(db, c, receipt).0;
    forall x | x in e.rooms
      ensures RoomFits(e, x)
    {
      assert RoomFits(db, x);
      assert ActiveIn(e, x) == ActiveIn(db, x);
      if Stuck(db, x) { StuckStays(db, e, x); }
    }
    forall g
      ensures OutboxFits(e, g)
    {
      assert OutboxFits(db, g);
    }
  }

  /** An accepted action and its receipt are stored together, once, over the version the action was computed from. */
  lemma PersistKeeps<S(!new), Q(!new)>(engine: (S, Q) -> Verdict<S>, db: Db<S, Q>, c: Commit<S, Q>,
                                       receipt: Option<Receipt<Q>>)
    requires Valid(engine, db) && Honest(engine, db, c) && !c.final && ReceiptOf(c, receipt)
    ensures var (e, r) := PersistActionResult(db, c, receipt);
            && Valid(engine, e) && Evolves(db, e)
            && (r == Ok ==> c.game in db.games && db.games[c.game].state == c.base)
            && (r != Ok ==> e == db)
  {
    var (e, r) := PersistActionResult(db, c, receipt);
    if r == Ok {
      assert HistoryFits(db, c.game);
      CurrentIsKnown(db, c.game, c.version - 1, c.base);
      PersistedRooms(engine, db, c, receipt);
      CommittedKeeps(engine, db, e, c, receipt);
    } else {
      Unchanged(engine, db);
    }
  }

  lemma SaveKeeps<S(!new), Q(!new)>(engine: (S, Q) -> Verdict<S>, db: Db<S, Q>, k: Key, receipt: Receipt<Q>)
    requires Valid(engine, db) && !receipt.accepted
    ensures var e := SaveActionReceipt(db, k, receipt).0;
            Valid(engine, e) && Evolves(db, e)
  {
    var (e, r) := SaveActionReceipt(db, k, receipt);
    if r == Ok {
      NotAppliedYet(engine, db, k);
      forall x | x in e.receipts
        ensures ReceiptFits(e, x)
      {
        if x != k { assert ReceiptFits(db, x); }
      }
      forall i: nat | i < |e.log|
        ensures CommitFits(engine, e, i)
      {
        assert CommitFits(engine, db, i);
      }
      SavedRest(engine, db, e);
    } else {
      Unchanged(engine, db);
    }
  }

  lemma SavedRest<S(!new), Q(!new)>(engine: (S, Q) -> Verdict<S>, db: Db<S, Q>, e: Db<S, Q>)
    requires Valid(engine, db) && e == db.(receipts := e.receipts)
    requires forall x :: x in db.receipts ==> x in e.receipts && e.receipts[x] == db.receipts[x]
    requires forall x {:trigger ReceiptFits(e, x)} :: x in e.receipts ==> ReceiptFits(e, x)
    requires forall i: nat {:trigger CommitFits(engine, e, i)} :: i < |e.log| ==> CommitFits(engine, e, i)
    ensures Valid(engine, e) && Evolves(db, e)
  {
    forall x | x in e.rooms
      ensures RoomFits(e, x)
    {
      assert RoomFits(db, x);
      SameGames(db, e, x);
    }
    forall g | g in e.games
      ensures HistoryFits(e, g) && e.games[g].room in e.rooms
    {
      assert HistoryFits(db, g);
    }
    forall g
      ensures OutboxFits(e, g) && BornFits(e, g)
    {
      assert OutboxFits(db, g) && BornFits(db, g);
    }
  }

  // ---------------------------------------------------------------- ending a match

  /** A final commit made for the match it was computed from. */
  ghost predicate FinalHonest<S(!new), Q(!new)>(engine: (S, Q) -> Verdict<S>, db: Db<S, Q>,
                                                update: Option<Commit<S, Q>>, receipt: Option<Receipt<Q>>)
  {
    && (receipt.Some? ==> update.Some?)
    && (update.Some? ==> Honest(engine, db, update.value) && update.value.final && ReceiptOf(update.value, receipt))
  }

  /** After the end of a match its room waits, and exactly one event about it is in the outbox. */
  lemma TerminatedRooms<S(!new), Q(!new)>(engine: (S, Q) -> Verdict<S>, db: Db<S, Q>, e: Db<S, Q>, room: Id, g: Id,
                                          x: Id)
    requires Valid(engine, db) && room in db.rooms && g in ActiveIn(db, room) && x in db.rooms
    requires e.games.Keys == db.games.Keys && (forall h :: h in db.games && h != g ==> e.games[h] == db.games[h])
    requires !e.games[g].active && e.games[g].room == room && e.ever == db.ever
    requires e.rooms == db.rooms[room := db.rooms[room].(playing := false)] && e.born == db.born
    ensures RoomFits(e, x)
  {
    assert RoomFits(db, x);
    assert RoomFits(db, room);
    if x == room {
      var h :| ActiveIn(db, room) == {h};
      assert h == g;
      forall y
        ensures y !in ActiveIn(e, room)
      {
        assert y in ActiveIn(e, room) && y != g ==> y in ActiveIn(db, room);
      }
    } else {
      assert ActiveIn(e, x) == ActiveIn(db, x);
      if Stuck(db, x) { StuckStays(db, e, x); }
    }
  }

  lemma TerminatedOutbox<S(!new), Q(!new)>(engine: (S, Q) -> Verdict<S>, db: Db<S, Q>, e: Db<S, Q>, g: Id, x: Id)
    requires Valid(engine, db) && g in db.games && db.games[g].active && e.born == db.born
    requires e.games.Keys == db.games.Keys
    requires forall h :: h in db.games && h != g ==> e.games[h].active == db.games[h].active
    requires !e.games[g].active && e.outbox == db.outbox + [g]
    ensures OutboxFits(e, x)
  {
    assert OutboxFits(db, x);
    assert OutboxFits(db, g);
    assert HistoryFits(db, g);
    GamesAreBorn(engine, db);
  }

  lemma TerminateKeeps<S(!new), Q(!new)>(engine: (S, Q) -> Verdict<S>, db: Db<S, Q>, room: Id, found: Option<Id>,
                                         update: Option<Commit<S, Q>>, receipt: Option<Receipt<Q>>)
    requires Valid(engine, db) && (found.Some? ==> found.value in ActiveIn(db, room))
    requires FinalHonest(engine, db, update, receipt)
    ensures var (e, r) := TerminateActiveMatch(db, room, found, update, receipt);
            && Valid(engine, e) && Evolves(db, e) && (r != Ok ==> e == db)
            && (r == Ok ==> found.Some? && OneEvent(db, e, found.value) && !e.rooms[room].playing)
  {
    var (e, r) := TerminateActiveMatch(db, room, found, update, receipt);
    if r == Ok {
      var g := found.value;
      forall x | x in e.rooms
        ensures RoomFits(e, x)
      {
        TerminatedRooms(engine, db, e, room, g, x);
      }
      forall x
        ensures OutboxFits(e, x)
      {
        TerminatedOutbox(engine, db, e, g, x);
      }
      assert OutboxFits(db, g);
      if update.Some? {
        FinalCommit(engine, db, e, g, update.value, receipt);
      } else {
        EndedKeeps(engine, db, e, g);
      }
    } else {
      Unchanged(engine, db);
    }
  }

  /** The match was active and without an event, and is finished with exactly one, written in the same step. */
  ghost predicate OneEvent<S(!new), Q(!new)>(db: Db<S, Q>, e: Db<S, Q>, g: Id) {
    && g in db.games && db.games[g].active && multiset(db.outbox)[g] == 0
    && g in e.games && !e.games[g].active && multiset(e.outbox)[g] == 1
  }

  lemma FinalCommit<S(!new), Q(!new)>(engine: (S, Q) -> Verdict<S>, db: Db<S, Q>, e: Db<S, Q>, g: Id, c: Commit<S, Q>,
                                      receipt: Option<Receipt<Q>>)
    requires Valid(engine, db) && g in db.games && db.games[g].active && Honest(engine, db, c) && c.final
    requires ReceiptOf(c, receipt)
    requires Committed(db, e, c.(game := g), if receipt.Some? then Some(receipt.value.(game := g)) else None)
    requires forall r {:trigger RoomFits(e, r)} :: r in e.rooms ==> RoomFits(e, r)
    requires (forall x {:trigger OutboxFits(e, x)} :: OutboxFits(e, x)) && db.outbox <= e.outbox
    ensures Valid(engine, e) && Evolves(db, e)
  {
    CommittedKeeps(engine, db, e, c.(game := g), if receipt.Some? then Some(receipt.value.(game := g)) else None);
  }

  /** Ending a match without a new state. */
  lemma EndedKeeps<S(!new), Q(!new)>(engine: (S, Q) -> Verdict<S>, db: Db<S, Q>, e: Db<S, Q>, g: Id)
    requires Valid(engine, db) && g in db.games && db.games[g].active
    requires e == db.(games := db.games[g := db.games[g].(active := false)], rooms := e.rooms, outbox := e.outbox)
    requires e.rooms.Keys == db.rooms.Keys && db.outbox <= e.outbox
    requires forall r {:trigger RoomFits(e, r)} :: r in e.rooms ==> RoomFits(e, r)
    requires forall x {:trigger OutboxFits(e, x)} :: OutboxFits(e, x)
    ensures Valid(engine, e) && Evolves(db, e)
  {
    forall x | x in e.games
      ensures HistoryFits(e, x) && e.games[x].room in e.rooms
    {
      assert HistoryFits(db, x);
    }
    forall x
      ensures BornFits(e, x)
    {
      assert BornFits(db, x);
    }
    forall k | k in e.receipts
      ensures ReceiptFits(e, k)
    {
      assert ReceiptFits(db, k);
    }
    forall i: nat | i < |e.log|
      ensures CommitFits(engine, e, i)
    {
      assert CommitFits(engine, db, i);
    }
  }

  // ---------------------------------------------------------------- deleting a room

  lemma DeletedRooms<S(!new), Q(!new)>(db: Db<S, Q>, room: Id, x: Id)
    requires DeleteRoom(db, room).1 == Ok && x in db.rooms && x != room && RoomFits(db, x)
    ensures RoomFits(DeleteRoom(db, room).0, x)
  {
    var e := DeleteRoom(db, room).0;
    assert ActiveIn(e, x) == ActiveIn(db, x);
    if Stuck(db, x) { StuckStays(db, e, x); }
  }

  /** Deleting a room removes no active match. */
  lemma DeleteKeeps<S(!new), Q(!new)>(engine: (S, Q) -> Verdict<S>, db: Db<S, Q>, room: Id)
    requires Valid(engine, db)
    ensures var e := DeleteRoom(db, room).0;
            && Valid(engine, e) && Evolves(db, e)
            && forall g :: g in db.games && db.games[g].active ==> g in e.games && e.games[g] == db.games[g]
  {
    var (e, r) := DeleteRoom(db, room);
    if r == Ok {
      GamesAreBorn(engine, db);
      assert RoomFits(db, room);
      forall g | g in db.games && db.games[g].active
        ensures g in e.games
      {
        assert g !in ActiveIn(db, room);
      }
      forall x | x in e.rooms
        ensures RoomFits(e, x)
      {
        assert RoomFits(db, x);
        DeletedRooms(db, room, x);
      }
      DeletedRest(engine, db, e, room);
    } else {
      Unchanged(engine, db);
    }
  }

  lemma DeletedRest<S(!new), Q(!new)>(engine: (S, Q) -> Verdict<S>, db: Db<S, Q>, e: Db<S, Q>, room: Id)
    requires Valid(engine, db) && DeleteRoom(db, room) == (e, Ok)
    requires forall r {:trigger RoomFits(e, r)} :: r in e.rooms ==> RoomFits(e, r)
    ensures Valid(engine, e) && Evolves(db, e)
  {
    GamesAreBorn(engine, db);
    forall g | g in e.games
      ensures HistoryFits(e, g) && e.games[g].room in e.rooms
    {
      assert HistoryFits(db, g);
    }
    forall g
      ensures OutboxFits(e, g) && BornFits(e, g)
    {
      assert OutboxFits(db, g) && BornFits(db, g);
    }
    forall i: nat | i < |e.log|
      ensures CommitFits(engine, e, i)
    {
      assert CommitFits(engine, db, i);
    }
    forall k | k in e.receipts
      ensures ReceiptFits(e, k)
    {
      assert ReceiptFits(db, k);
    }
  }
}
