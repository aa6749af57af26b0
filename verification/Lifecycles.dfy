/** Whole runs of transactions: a room whose match was finished from the start can never be used again. */
module Lifecycles {
  import opened Tiles
  import opened Database
  import opened Transactions

  datatype Transaction<S, Q> =
    | Create(room: Id, maxPlayers: nat, bots: set<Id>)
    | Settings(room: Id, maxPlayers: nat, bots: set<Id>, reserved: nat)
    | Join(room: Id, actor: Id, reserved: nat)
    | Leave(room: Id, actor: Id)
    | Start(room: Id, game: Id, version: nat, state: S, active: bool, humans: set<Id>, seats: nat)
    | Persist(commit: Commit<S, Q>, receipt: Option<Receipt<Q>>)
    | Save(key: Key, refusal: Receipt<Q>)
    | Terminate(room: Id, update: Option<Commit<S, Q>>, receipt: Option<Receipt<Q>>)
    | Delete(room: Id)

  /** Receipts belong to commits that some request caused, and versions start at one. */
  predicate WellFormed<S, Q>(update: Option<Commit<S, Q>>, receipt: Option<Receipt<Q>>) {
    && (receipt.Some? ==> update.Some?)
    && (update.Some? ==> update.value.version > 0 && (receipt.Some? <==> update.value.cause.Some?))
  }

  /** From db a transaction leads to e, with the given result. Several matches may be found only if several are
      active. */
  ghost predicate Leads<S(!new), Q(!new)>(db: Db<S, Q>, t: Transaction<S, Q>, e: Db<S, Q>, r: Result) {
    match t
    case Create(room, maxPlayers, bots) => e == CreateRoom(db, room, maxPlayers, bots) && r == Ok
    case Settings(room, maxPlayers, bots, reserved) => (e, r) == UpdateSettings(db, room, maxPlayers, bots, reserved)
    case Join(room, actor, reserved) => (e, r) == JoinRoom(db, room, actor, reserved)
    case Leave(room, actor) => e == LeaveRoom(db, room, actor) && r == Ok
    case Start(room, g, version, state, active, humans, seats) =>
      (e, r) == StartRoomWithMatch(db, room, g, version, state, active, humans, seats)
    case Persist(c, receipt) => WellFormed(Some(c), receipt) && (e, r) == PersistActionResult(db, c, receipt)
    case Save(k, refusal) => (e, r) == SaveActionReceipt(db, k, refusal)
    case Terminate(room, update, receipt) =>
      WellFormed(update, receipt) &&
      if ActiveIn(db, room) == {} then (e, r) == TerminateActiveMatch(db, room, None, update, receipt)
      else exists g :: g in ActiveIn(db, room) && (e, r) == TerminateActiveMatch(db, room, Some(g), update, receipt)
    case Delete(room) => (e, r) == DeleteRoom(db, room)
  }

  /** A run: the databases in order, and the transactions between them with their results. */
  ghost predicate IsRun<S(!new), Q(!new)>(dbs: seq<Db<S, Q>>, ts: seq<Transaction<S, Q>>, rs: seq<Result>) {
    |dbs| == |ts| + 1 && |rs| == |ts| && forall i {:trigger ts[i]} :: 0 <= i < |ts| ==>
        Leads(dbs[i], ts[i], dbs[i + 1], rs[i])
  }

  /** What the services commit: a state is the engine's result on a version that was read, and a receipt that is stored
      alone is a refusal. */
  ghost predicate Allowed<S(!new), Q(!new)>(engine: (S, Q) -> Verdict<S>, db: Db<S, Q>, t: Transaction<S, Q>) {
    match t
    case Persist(c, receipt) => Honest(engine, db, c) && !c.final && ReceiptOf(c, receipt)
    case Save(_, refusal) => !refusal.accepted
    case Terminate(_, update, receipt) => FinalHonest(engine, db, update, receipt)
    case _ => true
  }

  /** Every transaction keeps the invariants; only the successful end of a match writes an event, one about the match
      that was active in the room. */
  lemma TransactionKeeps<S(!new), Q(!new)>(engine: (S, Q) -> Verdict<S>, db: Db<S, Q>, t: Transaction<S, Q>,
                                           e: Db<S, Q>, r: Result)
    requires Valid(engine, db) && Allowed(engine, db, t) && Leads(db, t, e, r)
    ensures Valid(engine, e) && Evolves(db, e)
    ensures if t.Terminate? && r == Ok then exists g :: e.outbox == db.outbox + [g] && OneEvent(db, e, g)
            else e.outbox == db.outbox
  {
    match t
    case Persist(c, receipt) => PersistKeeps(engine, db, c, receipt);
    case Save(k, refusal) => SaveKeeps(engine, db, k, refusal);
    case Terminate(room, update, receipt) => EndKeeps(engine, db, room, update, receipt, e, r);
    case _ => RoomTransactionKeeps(engine, db, t, e, r);
  }

  lemma RoomTransactionKeeps<S(!new), Q(!new)>(engine: (S, Q) -> Verdict<S>, db: Db<S, Q>, t: Transaction<S, Q>,
                                               e: Db<S, Q>, r: Result)
    requires Valid(engine, db) && Leads(db, t, e, r) && !t.Persist? && !t.Save? && !t.Terminate?
    ensures Valid(engine, e) && Evolves(db, e) && e.outbox == db.outbox
  {
    match t
    case Create(room, maxPlayers, bots) => CreateKeeps(engine, db, room, maxPlayers, bots);
    case Settings(room, maxPlayers, bots, reserved) => SettingsKeep(engine, db, room, maxPlayers, bots, reserved);
    case Join(room, actor, reserved) => JoinKeeps(engine, db, room, actor, reserved);
    case Leave(room, actor) => LeaveKeeps(engine, db, room, actor);
    case Start(room, g, version, state, active, humans, seats) =>
      StartKeeps(engine, db, room, g, version, state, active, humans, seats);
    case Delete(room) => DeleteKeeps(engine, db, room);
  }

  lemma EndKeeps<S(!new), Q(!new)>(engine: (S, Q) -> Verdict<S>, db: Db<S, Q>, room: Id, update: Option<Commit<S, Q>>,
                                   receipt: Option<Receipt<Q>>, e: Db<S, Q>, r: Result)
    requires Valid(engine, db) && FinalHonest(engine, db, update, receipt)
    requires Leads(db, Terminate(room, update, receipt), e, r)
    ensures Valid(engine, e) && Evolves(db, e)
    ensures if r == Ok then exists g :: e.outbox == db.outbox + [g] && OneEvent(db, e, g) else e.outbox == db.outbox
  {
    if ActiveIn(db, room) == {} {
      TerminateKeeps(engine, db, room, None, update, receipt);
    } else {
      var g :| g in ActiveIn(db, room) && (e, r) == TerminateActiveMatch(db, room, Some(g), update, receipt);
      TerminateKeeps(engine, db, room, Some(g), update, receipt);
    }
  }

  /** Playing without a match: what is left of a start whose match was finished already. */
  ghost predicate Dead<S, Q>(db: Db<S, Q>, room: Id) {
    room in db.ever && room in db.rooms && db.rooms[room].playing && ActiveIn(db, room) == {}
  }

  /** The transaction would use the room: end a match in it, start one, change its settings, or delete it. */
  predicate Uses<S, Q>(t: Transaction<S, Q>, room: Id) {
    (t.Start? || t.Terminate? || t.Delete? || t.Settings?) && t.room == room
  }

  lemma DeadStep<S(!new), Q(!new)>(db: Db<S, Q>, t: Transaction<S, Q>, e: Db<S, Q>, r: Result, room: Id)
    requires Dead(db, room) && Leads(db, t, e, r)
    ensures Dead(e, room) && (Uses(t, room) ==> r != Ok && e == db)
  {
    if t.Terminate? {
      DeadAfterEnd(db, t, e, r, room);
    } else if t.Persist? || t.Start? || t.Delete? {
      DeadAfterGames(db, t, e, r, room);
    } else {
      assert ActiveIn(e, room) == ActiveIn(db, room);
    }
  }

  lemma DeadAfterGames<S(!new), Q(!new)>(db: Db<S, Q>, t: Transaction<S, Q>, e: Db<S, Q>, r: Result, room: Id)
    requires Dead(db, room) && Leads(db, t, e, r) && (t.Persist? || t.Start? || t.Delete?)
    ensures Dead(e, room) && (Uses(t, room) ==> r != Ok && e == db)
  {
    assert forall h :: h in ActiveIn(e, room) ==> h in ActiveIn(db, room);
  }

  lemma DeadAfterEnd<S(!new), Q(!new)>(db: Db<S, Q>, t: Transaction<S, Q>, e: Db<S, Q>, r: Result, room: Id)
    requires Dead(db, room) && Leads(db, t, e, r) && t.Terminate?
    ensures Dead(e, room) && (Uses(t, room) ==> r != Ok && e == db)
  {
    assert forall h :: h in ActiveIn(e, room) ==> h in ActiveIn(db, room);
  }

  /** Over any run, a dead room stays dead: no match in it can be ended or started, it cannot be deleted, its settings
      cannot be changed. */
  lemma {:induction false} DeadForever<S(!new), Q(!new)>(dbs: seq<Db<S, Q>>, ts: seq<Transaction<S, Q>>,
                                                         rs: seq<Result>, room: Id, n: nat)
    requires IsRun(dbs, ts, rs) && n <= |ts| && Dead(dbs[0], room)
    ensures Dead(dbs[n], room) && forall i :: 0 <= i < n && Uses(ts[i], room) ==> rs[i] != Ok
  {
    if n > 0 {
      DeadForever(dbs, ts, rs, room, n - 1);
      assert Leads(dbs[n - 1], ts[n - 1], dbs[n - 1 + 1], rs[n - 1]);
      DeadStep(dbs[n - 1], ts[n - 1], dbs[n], rs[n - 1], room);
    }
  }

  /** A room is dead exactly when its status is wrong. */
  lemma DeadIffStuck<S(!new), Q(!new)>(engine: (S, Q) -> Verdict<S>, db: Db<S, Q>, room: Id)
    requires Valid(engine, db) && room in db.rooms
    ensures Dead(db, room) <==> !StatusFits(db, room)
    ensures Dead(db, room) <==> Stuck(db, room)
  {
    assert RoomFits(db, room);
  }
}
