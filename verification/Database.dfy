/** The shared database: every transaction as one atomic step on rooms, matches, receipts and the outbox. */
module Database {
  import opened Tiles

  /** people are the humans who joined, bots the identities the settings of the room ask for. */
  datatype Room = Room(playing: bool, maxPlayers: nat, people: set<Id>, bots: set<Id>)

  datatype Row<S> = Row(room: Id, active: bool, version: nat, state: S)

  datatype Key = Key(room: Id, actor: Id, action: Id)

  /** What the request hash covers; hashing is taken to be injective. */
  datatype Content<Q> = Content(room: Id, game: Id, version: nat, request: Q)

  datatype Code = NoCode | NotYourTurn | StateConflict | IdConflict | InvalidAction

  datatype Receipt<Q> = Receipt(game: Id, hash: Content<Q>, accepted: bool, version: nat, code: Code)

  /** A new state, whether it ends the match, or a refusal. */
  datatype Verdict<S> = Move(next: S, finished: bool) | Refuse(code: Code)

  /** One change of the state of a match: what it was computed from, and which request caused it. */
  datatype Commit<S, Q> = Commit(game: Id, readFrom: Id, final: bool, version: nat, base: S, request: Q, next: S,
                                 cause: Option<Key>)

  datatype Db<S, Q> = Db(
    rooms: map<Id, Room>, games: map<Id, Row<S>>, receipts: map<Key, Receipt<Q>>, outbox: seq<Id>,
    log: seq<Commit<S, Q>>, born: map<Id, Row<S>>, ever: set<Id>)

  // ---------------------------------------------------------------- the history of a match

  function Latest<S, Q>(log: seq<Commit<S, Q>>, g: Id, start: Row<S>): (nat, S) {
    if log == [] then (start.version, start.state)
    else
      var c := log[|log| - 1];
      if c.game == g then (c.version, c.next) else Latest(log[..|log| - 1], g, start)
  }

  /** Each commit raises the version by one and was computed from the state just before it;
      a final commit only if the match it was computed from is the match it is stored in. */
  ghost predicate Linked<S(!new), Q>(log: seq<Commit<S, Q>>, g: Id, start: Row<S>) {
    log == [] ||
    var init, c := log[..|log| - 1], log[|log| - 1];
    && Linked(init, g, start)
    && (c.game == g ==>
        c.version == Latest(init, g, start).0 + 1 &&
        (!c.final || c.readFrom == g ==> c.base == Latest(init, g, start).1))
  }

  lemma {:induction false} VersionsGrow<S(!new), Q>(log: seq<Commit<S, Q>>, g: Id, start: Row<S>, n: nat)
    requires Linked(log, g, start) && n <= |log|
    ensures Linked(log[..n], g, start)
    ensures Latest(log[..n], g, start).0 <= Latest(log, g, start).0
    ensures Latest(log[..n], g, start).0 == Latest(log, g, start).0 ==>
              Latest(log[..n], g, start) == Latest(log, g, start)
  {
    if n == |log| {
      assert log[..n] == log;
    } else {
      var init := log[..|log| - 1];
      assert init[..n] == log[..n];
      VersionsGrow(init, g, start, n);
    }
  }

  /** At some time the match had this version and this state. */
  ghost predicate Known<S(!new), Q(!new)>(db: Db<S, Q>, g: Id, version: nat, state: S) {
    g in db.born && exists n :: 0 <= n <= |db.log| && Latest(db.log[..n], g, db.born[g]) == (version, state)
  }

  ghost predicate HistoryFits<S(!new), Q(!new)>(db: Db<S, Q>, g: Id)
    requires g in db.games
  {
    && g in db.born && Linked(db.log, g, db.born[g])
    && Latest(db.log, g, db.born[g]) == (db.games[g].version, db.games[g].state)
    && (db.games[g].active ==> db.born[g].active)
  }

  /** The history of every match ever stored is linked, also after its room was deleted. */
  ghost predicate BornFits<S(!new), Q(!new)>(db: Db<S, Q>, g: Id) {
    g in db.born ==> Linked(db.log, g, db.born[g])
  }

  /** Whoever read a version that is still current read the current state. */
  lemma CurrentIsKnown<S(!new), Q(!new)>(db: Db<S, Q>, g: Id, version: nat, state: S)
    requires g in db.games && HistoryFits(db, g)
    ensures Known(db, g, db.games[g].version, db.games[g].state)
    ensures Known(db, g, version, state) && db.games[g].version == version ==> db.games[g].state == state
  {
    assert db.log[..|db.log|] == db.log;
    if Known(db, g, version, state) {
      var n :| 0 <= n <= |db.log| && Latest(db.log[..n], g, db.born[g]) == (version, state);
      VersionsGrow(db.log, g, db.born[g], n);
    }
  }

  // ---------------------------------------------------------------- the invariant

  function ActiveIn<S, Q>(db: Db<S, Q>, room: Id): set<Id> {
    set g | g in db.games && db.games[g].active && db.games[g].room == room
  }

  /** The match is active in the room and has this version. */
  predicate Current<S, Q>(db: Db<S, Q>, room: Id, g: Id, version: nat) {
    g in ActiveIn(db, room) && db.games[g].version == version
  }

  /** The match was finished when it was stored. */
  predicate Stillborn<S, Q>(db: Db<S, Q>, g: Id) {
    g in db.born && !db.born[g].active
  }

  /** What the status of a room is meant to say: playing exactly when the room has exactly one active match. */
  ghost predicate StatusFits<S, Q>(db: Db<S, Q>, room: Id)
    requires room in db.rooms
  {
    if db.rooms[room].playing then exists g :: ActiveIn(db, room) == {g} else ActiveIn(db, room) == {}
  }

  /** The one exception: the room is playing, but the match that was started in it was finished from the start. */
  ghost predicate Stuck<S, Q>(db: Db<S, Q>, room: Id)
    requires room in db.rooms
  {
    db.rooms[room].playing && ActiveIn(db, room) == {} && exists g ::
        g in db.games && db.games[g].room == room && Stillborn(db, g)
  }

  /** The status fits or the room is stuck; humans never exceed the capacity. */
  ghost predicate RoomFits<S, Q>(db: Db<S, Q>, room: Id)
    requires room in db.rooms
  {
    && (StatusFits(db, room) || Stuck(db, room))
    && |db.rooms[room].people| <= db.rooms[room].maxPlayers
    && room in db.ever
  }

  /** A match that was ended has exactly one outbox event; one that is active, or was finished from the start, has
      none. */
  ghost predicate OutboxFits<S, Q>(db: Db<S, Q>, g: Id) {
    && multiset(db.outbox)[g] <= 1
    && (g in db.games ==> multiset(db.outbox)[g] == if db.games[g].active || Stillborn(db, g) then 0 else 1)
    && (g in db.outbox ==> g in db.born)
  }

  ghost predicate CommitFits<S(!new), Q>(engine: (S, Q) -> Verdict<S>, db: Db<S, Q>, i: nat)
    requires i < |db.log|
  {
    var c := db.log[i];
    && engine(c.base, c.request) == Move(c.next, c.final)
    && c.game in db.born && (!c.final ==> c.readFrom == c.game)
    && (c.cause.Some? ==> c.cause.value.room in db.ever && (c.cause.value.room in db.rooms ==>
         c.cause.value in db.receipts && db.receipts[c.cause.value].accepted))
  }

  /** The commit that an accepted receipt stands for: it applied the very request, to the version, that the hash of the
      receipt covers. */
  ghost predicate CausedBy<S, Q>(c: Commit<S, Q>, k: Key, r: Receipt<Q>) {
    && c.cause == Some(k) && c.game == r.game && c.version == r.version
    && r.hash.room == k.room && c.readFrom == r.hash.game && c.version == r.hash.version + 1
    && c.request == r.hash.request
  }

  ghost predicate ReceiptFits<S(!new), Q>(db: Db<S, Q>, k: Key)
    requires k in db.receipts
  {
    var r := db.receipts[k];
    && k.room in db.rooms && r.game in db.games && db.games[r.game].room == k.room
    && (r.accepted ==> r.code == NoCode && exists c :: c in db.log && CausedBy(c, k, r))
  }

  /** No request caused two commits. */
  ghost predicate AtMostOnce<S(!new), Q>(log: seq<Commit<S, Q>>) {
    forall i, j {:trigger log[i].cause, log[j].cause} :: 0 <= i < j < |log| && log[i].cause.Some? ==>
        log[i].cause != log[j].cause
  }

  ghost predicate Valid<S(!new), Q(!new)>(engine: (S, Q) -> Verdict<S>, db: Db<S, Q>) {
    && (forall r {:trigger RoomFits(db, r)} :: r in db.rooms ==> RoomFits(db, r))
    && (forall g {:trigger HistoryFits(db, g)} :: g in db.games ==> HistoryFits(db, g) && db.games[g].room in db.rooms)
    && (forall g {:trigger BornFits(db, g)} :: BornFits(db, g))
    && (forall g {:trigger OutboxFits(db, g)} :: OutboxFits(db, g))
    && (forall i: nat {:trigger CommitFits(engine, db, i)} :: i < |db.log| ==> CommitFits(engine, db, i))
    && (forall k {:trigger ReceiptFits(db, k)} :: k in db.receipts ==> ReceiptFits(db, k))
    && AtMostOnce(db.log)
  }

  // ---------------------------------------------------------------- what may change

  /** Receipts and finished matches are final, the history and the outbox only grow, and a deleted room never
      returns. */
  ghost predicate Evolves<S(!new), Q(!new)>(db: Db<S, Q>, e: Db<S, Q>) {
    && (forall k :: k in db.receipts && k.room in e.rooms ==> k in e.receipts && e.receipts[k] == db.receipts[k])
    && (forall g :: g in db.games && !db.games[g].active && g in e.games ==> e.games[g] == db.games[g])
    && db.log <= e.log && db.outbox <= e.outbox
    && (forall g :: g in db.born ==> g in e.born && e.born[g] == db.born[g])
    && (forall g :: g in db.born && g !in db.games ==> g !in e.games)
    && db.ever <= e.ever && (forall r :: r in db.ever && r !in db.rooms ==> r !in e.rooms)
  }

  lemma EvolvesTransitive<S(!new), Q(!new)>(a: Db<S, Q>, b: Db<S, Q>, c: Db<S, Q>)
    requires Evolves(a, b) && Evolves(b, c)
    requires (forall k :: k in a.receipts ==> k.room in a.ever) && forall g :: g in a.games ==> g in a.born
    ensures Evolves(a, c)
  {
    forall g | g in a.games && !a.games[g].active && g in c.games
      ensures c.games[g] == a.games[g]
    {
      assert g in b.born;
    }
  }

  lemma StaysKnown<S(!new), Q(!new)>(db: Db<S, Q>, e: Db<S, Q>, g: Id, version: nat, state: S)
    requires Evolves(db, e) && Known(db, g, version, state)
    ensures Known(e, g, version, state)
  {
    var n :| 0 <= n <= |db.log| && Latest(db.log[..n], g, db.born[g]) == (version, state);
    assert e.log[..n] == db.log[..n];
  }

  // ---------------------------------------------------------------- the transactions

  datatype Result = Ok | NotFound | NotJoinable | Full | NotReady | NotEnoughPlayers | TooSmall | Locked
    | AlreadySaved | Conflict | ForbiddenDelete | Forbidden | Failed

  function CreateRoom<S, Q>(db: Db<S, Q>, room: Id, maxPlayers: nat, bots: set<Id>): Db<S, Q> {
    if room in db.ever then db
    else db.(rooms := db.rooms[room := Room(false, maxPlayers, {}, bots)], ever := db.ever + {room})
  }

  /** New settings must leave a seat for everybody who is in, and are refused while a match runs. */
  function UpdateSettings<S, Q>(db: Db<S, Q>, room: Id, maxPlayers: nat, bots: set<Id>, reserved: nat)
    : (Db<S, Q>, Result)
  {
    if room !in db.rooms then (db, NotFound)
    else
      var r := db.rooms[room];
      if |r.people| + reserved > maxPlayers then (db, TooSmall)
      else if r.playing then (db, Locked)
      else (db.(rooms := db.rooms[room := r.(maxPlayers := maxPlayers, bots := bots)]), Ok)
  }

  /** Reserved seats are counted with the people who are in; those already in may come back while the match runs. */
  function JoinRoom<S, Q>(db: Db<S, Q>, room: Id, actor: Id, reserved: nat): (Db<S, Q>, Result) {
    if room !in db.rooms then (db, NotFound)
    else
      var r := db.rooms[room];
      if r.playing && actor !in r.people then (db, NotJoinable)
      else if actor !in r.people && |r.people| + reserved >= r.maxPlayers then (db, Full)
      else (db.(rooms := db.rooms[room := r.(people := r.people + {actor})]), Ok)
  }

  function LeaveRoom<S, Q>(db: Db<S, Q>, room: Id, actor: Id): Db<S, Q> {
    if room !in db.rooms then db
    else db.(rooms := db.rooms[room := db.rooms[room].(people := db.rooms[room].people - {actor})])
  }

  /** Starts a match that was built outside the transaction for the given humans and number of seats. */
  function StartRoomWithMatch<S, Q>(db: Db<S, Q>, room: Id, g: Id, version: nat, state: S, active: bool,
                                    humans: set<Id>, seats: nat): (Db<S, Q>, Result)
  {
    if room !in db.rooms then (db, NotFound)
    else
      var r := db.rooms[room];
      if r.playing then (db, NotReady)
      else if r.people == {} || seats < 2 then (db, NotEnoughPlayers)
      else if seats > r.maxPlayers then (db, Full)
      else if humans != r.people then (db, NotReady)
      else if g in db.born then (db, Failed)
      else
        var row := Row(room, active, version, state);
        (db.(games := db.games[g := row], born := db.born[g := row],
            rooms := db.rooms[room := r.(playing := true)]), Ok)
  }

  /** The receipt, if any, and the new state are stored together, and only over the expected version. */
  function PersistActionResult<S, Q>(db: Db<S, Q>, c: Commit<S, Q>, receipt: Option<Receipt<Q>>): (Db<S, Q>, Result)
    requires c.version > 0 && (receipt.Some? <==> c.cause.Some?)
  {
    if receipt.Some? && c.cause.value in db.receipts then (db, AlreadySaved)
    else if
      receipt.Some? &&
      (c.cause.value.room !in db.rooms || c.game !in db.games || db.games[c.game].room != c.cause.value.room)
    then (db, Failed)
    else if c.game !in db.games || !db.games[c.game].active || db.games[c.game].version != c.version - 1
    then (db, Conflict)
    else
      (db.(games := db.games[c.game := db.games[c.game].(version := c.version, state := c.next)],
           receipts := if receipt.Some? then db.receipts[c.cause.value := receipt.value] else db.receipts,
           log := db.log + [c]), Ok)
  }

  function SaveActionReceipt<S, Q>(db: Db<S, Q>, k: Key, r: Receipt<Q>): (Db<S, Q>, Result) {
    if k in db.receipts then (db, AlreadySaved)
    else if k.room !in db.rooms || r.game !in db.games || db.games[r.game].room != k.room then (db, Failed)
    else (db.(receipts := db.receipts[k := r]), Ok)
  }

  /** Ends the active match found for the room. The new state, if one is given, goes to that match, whichever
      match it was computed from; the outbox event is written in the same step and the room waits again. */
  function TerminateActiveMatch<S, Q>(db: Db<S, Q>, room: Id, found: Option<Id>, update: Option<Commit<S, Q>>,
                                      receipt: Option<Receipt<Q>>): (Db<S, Q>, Result)
    requires found.Some? ==> found.value in ActiveIn(db, room)
    requires update.Some? ==> update.value.version > 0
    requires receipt.Some? ==> update.Some?
    requires update.Some? ==> (receipt.Some? <==> update.value.cause.Some?)
  {
    if room !in db.rooms then (db, NotFound)
    else if found.None? then (db, NotFound)
    else
      var g := found.value;
      if update.Some? && db.games[g].version != update.value.version - 1 then (db, Conflict)
      else if receipt.Some? && update.value.cause.value in db.receipts then (db, AlreadySaved)
      else if receipt.Some? && update.value.cause.value.room != room then (db, Failed)
      else
        var row :=
          if update.Some?
          then db.games[g].(active := false, version := update.value.version, state := update.value.next)
          else db.games[g].(active := false);
        (db.(games := db.games[g := row],
             receipts := if receipt.Some? then db.receipts[update.value.cause.value := receipt.value.(game := g)]
                 else db.receipts,
             log := if update.Some? then db.log + [update.value.(game := g)] else db.log,
             outbox := db.outbox + [g],
             rooms := db.rooms[room := db.rooms[room].(playing := false)]), Ok)
  }

  /** Removes a room that is not playing, with its matches and receipts. */
  function DeleteRoom<S, Q>(db: Db<S, Q>, room: Id): (Db<S, Q>, Result) {
    if room !in db.rooms then (db, NotFound)
    else if db.rooms[room].playing then (db, ForbiddenDelete)
    else
      (db.(rooms := db.rooms - {room},
           games := map g | g in db.games && db.games[g].room != room :: db.games[g],
           receipts := map k | k in db.receipts && k.room != room :: db.receipts[k]), Ok)
  }
}
