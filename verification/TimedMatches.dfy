/** The turns that responses speak about are turns of stored matches: what the timers need of responses is what the
    rules of the game give. */
module TimedMatches {
  import opened Tiles
  import opened GameStates
  import opened MeeplePlacements
  import opened TurnScoring
  import opened Placements
  import opened Runs
  import opened Database
  import opened Protocol
  import opened Matches
  import TurnTimers

  /** The same turn of the same player, or a later turn. */
  predicate GoesOn(s: State, t: State) {
    s.turn <= t.turn && (s.turn == t.turn ==> s.current == t.current)
  }

  lemma ResolveGoesOn(cat: Catalog, s: State)
    ensures Rules.Resolve(cat, s).phase != Finished ==> GoesOn(s, Rules.Resolve(cat, s))
  {
    ScoreTurnKeeps(cat, s.(phase := ResolveTurn));
  }

  lemma StepGoesOn(cat: Catalog, room: Id, members: seq<Id>, s: State, actor: Id, a: Rules.Action, t: State)
    requires ValidCatalog(cat) && Rules.Step(cat, room, members, s, actor, a) == Rules.Done(t) && t.phase != Finished
    ensures GoesOn(s, t)
  {
    match a
    case PlaceMeepleAction(_, _, zone, _, kind) =>
      Rules.AcceptedZone(cat, room, s, actor, a);
      var m := Rules.NewMeeple(s.last.value, ZoneOfTile(cat, s.last.value, zone).value, actor, kind);
      ResolveGoesOn(cat, Rules.WithMeeple(s, m));
    case SkipMeepleAction(_) =>
      ResolveGoesOn(cat, s);
    case _ =>
  }

  lemma TimeoutGoesOn(cat: Catalog, s: State, t: State)
    requires TimeoutResult(cat, s, t) && t.phase != Finished
    ensures GoesOn(s, t)
  {
    if s.phase == PlaceTile {
      var x, y, r :| r in ROTATIONS && CanPlaceTile(cat, s.currentTile.value.tile, x, y, r, s.board) &&
                     t == Rules.Resolve(cat, Rules.WithTile(s, Rules.NewTile(s, s.current, x, y, r)));
      ResolveGoesOn(cat, Rules.WithTile(s, Rules.NewTile(s, s.current, x, y, r)));
    } else {
      ResolveGoesOn(cat, s);
    }
  }

  lemma MoveGoesOn(cat: Catalog, t: Table, d: Demand, next: Table)
    requires ValidCatalog(cat) && Judge(cat, t, d) == Move(next, false)
    ensures GoesOn(t.state, next.state)
  {
    match d
    case Act(actor, action) => StepGoesOn(cat, t.room, t.members, t.state, actor, action, next.state);
    case TimeOut(outcome) => TimeoutGoesOn(cat, t.state, outcome);
  }

  /** The match was not over after the first n commits. */
  ghost predicate Running<S, Q>(log: seq<Commit<S, Q>>, g: Id, n: nat)
    requires n <= |log|
  {
    forall i :: 0 <= i < n && log[i].game == g ==> !log[i].final
  }

  ghost function StateAt(db: Db<Table, Demand>, g: Id, n: nat): State
    requires g in db.born && n <= |db.log|
  {
    Latest(db.log[..n], g, db.born[g]).1.state
  }

  /** As long as a match runs, its turns go up with its versions, and one player has a turn - whatever else happens in
      whatever rooms. */
  lemma {:induction false} TurnsGoUp(engine: (Table, Demand) -> Verdict<Table>, cat: Catalog, db: Db<Table, Demand>,
                                     g: Id, m: nat, n: nat)
    requires ValidCatalog(cat) && Plays(engine, cat) && Database.Valid(engine, db)
    requires g in db.born && m <= n <= |db.log| && Running(db.log, g, n)
    ensures GoesOn(StateAt(db, g, m), StateAt(db, g, n))
    decreases n
  {
    if m < n {
      TurnsGoUp(engine, cat, db, g, m, n - 1);
      var c, before := db.log[n - 1], Latest(db.log[..n - 1], g, db.born[g]);
      LatestStep(db.log, g, db.born[g], n);
      if c.game == g {
        HistoryIsEngineRun(engine, db, n - 1);
        MoveGoesOn(cat, before.1, c.request, c.next);
      }
    }
  }

  /** A response shows a version of a running match, and the creation time that belongs to it. */
  ghost predicate Shows(db: Db<Table, Demand>, created: map<Id, nat>, s: TurnTimers.Snapshot, n: nat)
    requires n <= |db.log|
  {
    && s.game in db.born && s.game in created && s.createdAt == created[s.game] && Running(db.log, s.game, n)
    && s.version == Latest(db.log[..n], s.game, db.born[s.game]).0
    && s.turn == StateAt(db, s.game, n).turn && s.player == StateAt(db, s.game, n).current
  }

  /** Whatever rooms it is sent to and how late it comes. */
  ghost predicate IsResponse(db: Db<Table, Demand>, created: map<Id, nat>, s: TurnTimers.Snapshot) {
    exists n :: 0 <= n <= |db.log| && Shows(db, created, s, n)
  }

  lemma ResponsesAreOrdered(engine: (Table, Demand) -> Verdict<Table>, cat: Catalog, db: Db<Table, Demand>,
                            created: map<Id, nat>, all: set<TurnTimers.Snapshot>, room: Id)
    requires ValidCatalog(cat) && Plays(engine, cat) && Database.Valid(engine, db)
    requires forall s :: s in all && TurnTimers.Times(s, room) ==> IsResponse(db, created, s)
    ensures TurnTimers.Ordered(all, room)
  {
    forall s, t | s in all && t in all && TurnTimers.Times(s, room) && TurnTimers.Times(t, room) && s.game == t.game
      ensures s.createdAt == t.createdAt
      ensures s.version <= t.version ==> s.turn <= t.turn
      ensures s.turn == t.turn ==> s.player == t.player
    {
      var m :| 0 <= m <= |db.log| && Shows(db, created, s, m);
      var n :| 0 <= n <= |db.log| && Shows(db, created, t, n);
      if m <= n {
        TurnsGoUp(engine, cat, db, s.game, m, n);
      } else {
        TurnsGoUp(engine, cat, db, s.game, n, m);
        SameVersionSameState(engine, db, s.game, n, m);
      }
    }
  }

  lemma SameVersionSameState(engine: (Table, Demand) -> Verdict<Table>, db: Db<Table, Demand>, g: Id, m: nat, n: nat)
    requires Database.Valid(engine, db) && g in db.born && m <= n <= |db.log|
    ensures Latest(db.log[..m], g, db.born[g]).0 <= Latest(db.log[..n], g, db.born[g]).0
    ensures Latest(db.log[..m], g, db.born[g]).0 == Latest(db.log[..n], g, db.born[g]).0 ==>
              StateAt(db, g, m) == StateAt(db, g, n)
  {
    assert BornFits(db, g);
    VersionsGrow(db.log, g, db.born[g], n);
    VersionsGrow(db.log[..n], g, db.born[g], m);
    assert db.log[..n][..m] == db.log[..m];
  }

  /** For the responses of stored matches nothing else is needed: deadlines are fixed in a room, from the empty table
      on, if and only if no two matches timed in it have unknown creation times, or the responses of such matches agree
      when each turn ends. */
  lemma ResponsesFixDeadlinesIff(engine: (Table, Demand) -> Verdict<Table>, cat: Catalog, db: Db<Table, Demand>,
                                 created: map<Id, nat>, all: set<TurnTimers.Snapshot>, room: Id)
    requires ValidCatalog(cat) && Plays(engine, cat) && Database.Valid(engine, db)
    requires forall s :: s in all && TurnTimers.Times(s, room) ==> IsResponse(db, created, s)
    ensures TurnTimers.AlwaysFixed(all, room) <==>
            TurnTimers.OneUnknown(all, room) || TurnTimers.AllAgree(all, room)
  {
    ResponsesAreOrdered(engine, cat, db, created, all, room);
    TurnTimers.AlwaysFixedIff(all, room);
  }
}
