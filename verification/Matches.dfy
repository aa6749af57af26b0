/** The games inside the protocol: whatever callers do, every stored state of every match is one the rules can reach. */
module Matches {
  import opened Tiles
  import opened Placements
  import opened GameStates
  import opened Invariants
  import opened Runs
  import opened Database
  import opened Transactions
  import opened Protocol

  /** A match as it is stored: the room it belongs to, who plays it, and its state. */
  datatype Table = Table(room: Id, members: seq<Id>, state: State)

  /** What the match service asks of the engine: an action of a player or bot, or a timeout with the outcome of its
      random choice. */
  datatype Demand = Act(actor: Id, action: Rules.Action) | TimeOut(outcome: State)

  /** The engine as the match service sees it. Room and players of a match never change. */
  ghost function Judge(cat: Catalog, t: Table, d: Demand): Verdict<Table>
    requires ValidCatalog(cat)
  {
    match d
    case Act(actor, action) =>
      (match Rules.Step(cat, t.room, t.members, t.state, actor, action)
       case Done(s) => Move(t.(state := s), s.phase == Finished)
       case Failed(e) => Refuse(if e.NotYourTurn? then Code.NotYourTurn else InvalidAction))
    case TimeOut(s) =>
      if TimeoutResult(cat, t.state, s) then Move(t.(state := s), s.phase == Finished) else Refuse(InvalidAction)
  }

  /** One engine serves all matches of all rooms. */
  ghost predicate Plays(engine: (Table, Demand) -> Verdict<Table>, cat: Catalog)
    requires ValidCatalog(cat)
  {
    forall t, d :: engine(t, d) == Judge(cat, t, d)
  }

  /** The state is one the rules can reach for these players. */
  ghost predicate TableFits(cat: Catalog, t: Table) {
    Inv(cat, t.members, t.state)
  }

  /** No final state of the match came from another match. */
  ghost predicate OwnCommits<S(!new), Q(!new)>(db: Db<S, Q>, g: Id) {
    forall i :: 0 <= i < |db.log| && db.log[i].game == g ==> db.log[i].readFrom == g
  }

  /** One move of the engine keeps the table and the invariant, and uses up actions. */
  lemma MoveIsStep(cat: Catalog, t: Table, d: Demand, next: Table, over: bool)
    requires ValidCatalog(cat) && TableFits(cat, t) && Judge(cat, t, d) == Move(next, over)
    ensures TableFits(cat, next) && next.room == t.room && next.members == t.members
    ensures ActionsLeft(next.state) < ActionsLeft(t.state) && (over <==> next.state.phase == Finished)
  {
    match d
    case Act(actor, action) =>
      StepKeepsInv(cat, t.room, t.members, t.state, actor, action);
      StepCounts(cat, t.room, t.members, t.state, actor, action);
    case TimeOut(outcome) =>
      TimeoutKeepsInv(cat, t.room, t.members, t.state, outcome);
  }

  /** A stored version belongs to the table it started as, keeps the invariant, and each version used up at least one
      action. */
  ghost predicate VersionFits(cat: Catalog, start: Row<Table>, now: (nat, Table)) {
    && TableFits(cat, now.1) && now.1.room == start.state.room && now.1.members == start.state.members
    && now.0 - start.version + ActionsLeft(now.1.state) <= ActionsLeft(start.state.state)
  }

  lemma NextVersionFits(engine: (Table, Demand) -> Verdict<Table>, cat: Catalog, start: Row<Table>, now: (nat, Table),
                        c: Commit<Table, Demand>)
    requires ValidCatalog(cat) && Plays(engine, cat) && VersionFits(cat, start, now)
    requires c.version == now.0 + 1 && engine(now.1, c.request) == Move(c.next, c.final)
    ensures VersionFits(cat, start, (c.version, c.next))
  {
    MoveIsStep(cat, now.1, c.request, c.next, c.final);
  }

  /** Over any interleaving, with any other matches in any rooms: every version of a match that was ever stored is a
      position of that match which satisfies the invariant of the game. Whether its room still exists does not
      matter. */
  lemma {:induction false} EveryVersionIsSafe(engine: (Table, Demand) -> Verdict<Table>, cat: Catalog,
                                              db: Db<Table, Demand>, g: Id, n: nat)
    requires ValidCatalog(cat) && Plays(engine, cat) && Database.Valid(engine, db)
    requires g in db.born && n <= |db.log| && OwnCommits(db, g) && TableFits(cat, db.born[g].state)
    ensures VersionFits(cat, db.born[g], Latest(db.log[..n], g, db.born[g]))
    decreases n
  {
    if n > 0 {
      EveryVersionIsSafe(engine, cat, db, g, n - 1);
      var c, before := db.log[n - 1], Latest(db.log[..n - 1], g, db.born[g]);
      LatestStep(db.log, g, db.born[g], n);
      if c.game == g {
        HistoryIsEngineRun(engine, db, n - 1);
        NextVersionFits(engine, cat, db.born[g], before, c);
      }
    }
  }

  lemma LatestStep<S, Q>(log: seq<Commit<S, Q>>, g: Id, start: Row<S>, n: nat)
    requires 0 < n <= |log|
    ensures Latest(log[..n], g, start) == if log[n - 1].game == g then (log[n - 1].version, log[n - 1].next)
              else Latest(log[..n - 1], g, start)
  {
    assert log[..n][..n - 1] == log[..n - 1];
  }

  /** In particular the state that is stored now, and the number of versions is bounded by the tiles of the match. */
  lemma StoredStateIsSafe(engine: (Table, Demand) -> Verdict<Table>, cat: Catalog, db: Db<Table, Demand>, g: Id)
    requires ValidCatalog(cat) && Plays(engine, cat) && Database.Valid(engine, db)
    requires g in db.games && OwnCommits(db, g) && g in db.born && TableFits(cat, db.born[g].state)
    ensures TableFits(cat, db.games[g].state) && db.games[g].state.members == db.born[g].state.members
    ensures db.games[g].version - db.born[g].version <= ActionsLeft(db.born[g].state.state)
  {
    EveryVersionIsSafe(engine, cat, db, g, |db.log|);
    assert db.log[..|db.log|] == db.log;
    assert HistoryFits(db, g);
  }

  // ---------------------------------------------------------------- starting a match in a room

  /** What the room service stores for the given players: the initial state, active unless it is finished already. */
  ghost function NewTable(cat: Catalog, room: Id, members: seq<Id>, inns: bool, instance: Id,
                          deck: seq<Instance>): Table
  {
    Table(room, members, Start(cat, members, inns, instance, deck))
  }

  /** After a match was started, the status of its room fits if and only if some tile of the deck fits the start tile;
      otherwise the room is stuck. */
  lemma StartedRoomFitsIff(engine: (Table, Demand) -> Verdict<Table>, cat: Catalog, db: Db<Table, Demand>, room: Id,
                           g: Id, version: nat, members: seq<Id>, inns: bool, instance: Id, deck: seq<Instance>,
                           humans: set<Id>)
    requires Database.Valid(engine, db)
    requires var t := NewTable(cat, room, members, inns, instance, deck);
             StartRoomWithMatch(db, room, g, version, t, t.state.phase != Finished, humans, |members|).1 == Ok
    ensures var t := NewTable(cat, room, members, inns, instance, deck);
            var e := StartRoomWithMatch(db, room, g, version, t, t.state.phase != Finished, humans, |members|).0;
            && room in e.rooms && Database.Valid(engine, e)
            && (StatusFits(e, room) <==> exists x :: x in deck && Placeable(cat, x.tile, [StartTile(instance)]))
            && (Stuck(e, room) <==> !StatusFits(e, room))
  {
    var t := NewTable(cat, room, members, inns, instance, deck);
    StartPhase(cat, deck, [StartTile(instance)]);
    StartFitsIffActive(engine, db, room, g, version, t, t.state.phase != Finished, humans, |members|);
    StartKeeps(engine, db, room, g, version, t, t.state.phase != Finished, humans, |members|);
  }
}
