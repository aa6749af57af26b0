/** A run of the whole chain: one match from the opening of its room to the statistics of its players. */
module ChainScenario {
  import opened Tiles
  import opened Database
  import opened Protocol
  import opened Lifecycles
  import opened Matches
  import opened Scenarios
  import Publishing
  import Projection
  import opened Deliveries
  import opened Chains

  const POLICY: Publishing.Policy := Publishing.Policy("dead", 10)

  const ANN_AND_BOB: seq<Projection.Participant> :=
    [Projection.Participant("ann", Projection.User, false, true, 12),
     Projection.Participant("bob", Projection.User, false, false, 7)]

  const EVENTS: map<Id, Projection.MatchFinished> :=
    map["e1" := Projection.MatchFinished(Projection.CARCASSONNE, "one", true, 5, ANN_AND_BOB)]

  /** A history of the services together. */
  datatype History<S, Q> = History(worlds: seq<World<S, Q>>, steps: seq<Step<S, Q>>)

  ghost predicate Runs<S(!new), Q(!new)>(engine: (S, Q) -> Verdict<S>, h: History<S, Q>, now: World<S, Q>) {
    IsHistory(engine, POLICY, EVENTS, h.worlds, h.steps) && h.worlds[|h.steps|] == now
  }

  lemma Extend<S(!new), Q(!new)>(engine: (S, Q) -> Verdict<S>, h: History<S, Q>, w: World<S, Q>, step: Step<S, Q>,
                                 v: World<S, Q>)
    returns (longer: History<S, Q>)
    requires Runs(engine, h, w) && Next(engine, POLICY, EVENTS, w, step, v)
    ensures Runs(engine, longer, v)
  {
    longer := History(h.worlds + [v], h.steps + [step]);
    forall i | 0 <= i < |longer.steps|
      ensures Next(engine, POLICY, EVENTS, longer.worlds[i], longer.steps[i], longer.worlds[i + 1])
    {
      if i < |h.steps| { assert h.steps[i] == longer.steps[i]; }
    }
  }

  lemma Transacted<S(!new), Q(!new)>(engine: (S, Q) -> Verdict<S>, h: History<S, Q>, w: World<S, Q>,
                                     t: Transaction<S, Q>, e: Db<S, Q>)
    returns (longer: History<S, Q>)
    requires Runs(engine, h, w) && Allowed(engine, w.db, t) && Leads(w.db, t, e, Ok) && !t.Terminate?
    ensures Runs(engine, longer, w.(db := e))
  {
    longer := Extend(engine, h, w, Transact(t, Ok), w.(db := e));
  }

  lemma Started<S(!new), Q(!new)>(engine: (S, Q) -> Verdict<S>, state: S)
    returns (h: History<S, Q>, w: World<S, Q>)
    ensures Runs(engine, h, w) && w.eventOf == map[] && w.store == Publishing.Store(map[], [], 0)
    ensures w.delivered == {} && w.processed == {} && w.db.outbox == [] && w.db.log == [] && w.db.receipts == map[]
    ensures w.db.rooms == map["attic" := Room(true, 2, {"ann", "bob"}, {})]
    ensures w.db.games == map["one" := Row("attic", true, 1, state)] && w.db.born == w.db.games
  {
    w := World(Empty(), map[], Publishing.Store(map[], [], 0), {}, {});
    h := History([w], []);
    var d1 := CreateRoom(w.db, "attic", 2, {});
    h := Transacted(engine, h, w, Create("attic", 2, {}), d1);
    var d2 := JoinRoom(d1, "attic", "ann", 0).0;
    h := Transacted(engine, h, w.(db := d1), Join("attic", "ann", 0), d2);
    assert d2.rooms["attic"].people == {"ann"};
    var d3 := JoinRoom(d2, "attic", "bob", 0).0;
    h := Transacted(engine, h, w.(db := d2), Join("attic", "bob", 0), d3);
    assert d3.rooms["attic"].people == {"ann", "bob"};
    var d4 := StartRoomWithMatch(d3, "attic", "one", 1, state, true, {"ann", "bob"}, 2).0;
    h := Transacted(engine, h, w.(db := d3), Start("attic", "one", 1, state, true, {"ann", "bob"}, 2), d4);
    w := w.(db := d4);
  }

  lemma Ended<S(!new), Q(!new)>(engine: (S, Q) -> Verdict<S>, h: History<S, Q>, w: World<S, Q>, state: S, d: Q, next: S)
    returns (longer: History<S, Q>, v: World<S, Q>)
    requires Runs(engine, h, w) && w.eventOf == map[] && w.store == Publishing.Store(map[], [], 0)
    requires w.db.outbox == [] && w.db.log == [] && w.db.receipts == map[]
    requires w.db.rooms == map["attic" := Room(true, 2, {"ann", "bob"}, {})]
    requires w.db.games == map["one" := Row("attic", true, 1, state)] && w.db.born == w.db.games
    requires engine(state, d) == Move(next, true)
    ensures Runs(engine, longer, v) && v.eventOf == map["one" := "e1"]
    ensures v.delivered == w.delivered && v.processed == w.processed
    ensures v.store == Inserted(Publishing.Store(map[], [], 0), "e1", "games")
  {
    var c := Commit("one", "one", true, 2, state, d, next, None);
    assert Latest(w.db.log[..0], "one", w.db.born["one"]) == (1, state);
    assert "one" in ActiveIn(w.db, "attic");
    var e := TerminateActiveMatch(w.db, "attic", Some("one"), Some(c), None).0;
    v := w.(db := e, eventOf := map["one" := "e1"], store := Inserted(w.store, "e1", "games"));
    var t := Terminate("attic", Some(c), None);
    assert Leads(w.db, t, e, Ok);
    longer := Extend(engine, h, w, End(t, "e1", "games"), v);
  }

  lemma Sent<S(!new), Q(!new)>(engine: (S, Q) -> Verdict<S>, h: History<S, Q>, w: World<S, Q>)
    returns (longer: History<S, Q>, v: World<S, Q>)
    requires Runs(engine, h, w) && w.store == Inserted(Publishing.Store(map[], [], 0), "e1", "games")
    ensures Runs(engine, longer, v) && v == w.(store := v.store)
    ensures v.store.sent == [Publishing.Copy("e1", "games")] && "e1" in v.store.rows
    ensures v.store.rows["e1"].topic == "games"
  {
    var s := w.store;
    var t := Publishing.Store(s.rows["e1" := s.rows["e1"].(attempts := 1, published := true)],
                              [Publishing.Copy("e1", "games")], 0);
    assert Publishing.Target(POLICY, "games", 1) == "games";
    assert t.sent[0] == Publishing.Copy("e1", "games") && Publishing.Delivered(t, POLICY.dlq, "e1");
    v := w.(store := t);
    longer := Extend(engine, h, w, Publish, v);
  }

  /** A match of the game that ends by a timeout is counted once for each player, though its event arrives twice. */
  lemma OneMatchIsCounted(engine: (Table, Demand) -> Verdict<Table>)
    returns (h: History<Table, Demand>, w: World<Table, Demand>)
    requires ValidCatalog(MEADOWS) && Plays(engine, MEADOWS)
    ensures Runs(engine, h, w) && w.processed == {"e1"}
    ensures forall user :: user in {"ann", "bob"} ==>
              CountedMatches(w.eventOf, EVENTS, w.processed, Projection.Account(user, Projection.CARCASSONNE))
              == {"one"}
  {
    var d, next := LastTimeout("attic", "ann", "bob", "s1", "t1");
    h, w := FromStartToStatistics(engine, MeadowTable("attic", "ann", "bob", "s1", "t1"), d, next);
    BothTookPart(w.eventOf, w.processed);
  }

  lemma FromStartToStatistics<S(!new), Q(!new)>(engine: (S, Q) -> Verdict<S>, state: S, d: Q, next: S)
    returns (h: History<S, Q>, w: World<S, Q>)
    requires engine(state, d) == Move(next, true)
    ensures Runs(engine, h, w) && w.processed == {"e1"} && w.eventOf == map["one" := "e1"]
  {
    h, w := Started(engine, state);
    h, w := Ended(engine, h, w, state, d, next);
    h, w := Sent(engine, h, w);
    h, w := Taken(engine, h, w);
    h, w := Taken(engine, h, w);
  }

  /** The broker hands the event over, and the consumer takes it, whether it is new or not. */
  lemma Taken<S(!new), Q(!new)>(engine: (S, Q) -> Verdict<S>, h: History<S, Q>, w: World<S, Q>)
    returns (longer: History<S, Q>, v: World<S, Q>)
    requires Runs(engine, h, w) && w.store.sent == [Publishing.Copy("e1", "games")]
    requires "e1" in w.store.rows && w.store.rows["e1"].topic == "games"
    ensures Runs(engine, longer, v)
    ensures v == w.(delivered := w.delivered + {"e1"}, processed := w.processed + {"e1"})
  {
    assert w.store.sent[0].event == "e1" && w.store.sent[0].topic == "games";
    var mid := w.(delivered := w.delivered + {"e1"});
    longer := Extend(engine, h, w, Deliver("e1"), mid);
    v := mid.(processed := w.processed + {"e1"});
    longer := Extend(engine, longer, mid, Consume("e1"), v);
  }

  lemma BothTookPart(eventOf: map<Id, Id>, processed: set<Id>)
    requires eventOf == map["one" := "e1"] && processed == {"e1"}
    ensures forall user :: user in {"ann", "bob"} ==>
              CountedMatches(eventOf, EVENTS, processed, Projection.Account(user, Projection.CARCASSONNE)) == {"one"}
  {
    var m := EVENTS["e1"];
    assert m.players[0].actor == "ann" && m.players[1].actor == "bob";
    forall user | user in {"ann", "bob"}
      ensures CountedMatches(eventOf, EVENTS, processed, Projection.Account(user, Projection.CARCASSONNE)) == {"one"}
    {
      var i := if user == "ann" then 0 else 1;
      assert Projection.Counts(m, m.players[i]) && user == m.players[i].actor;
      assert TookPart(m, Projection.Account(user, Projection.CARCASSONNE));
    }
  }
}
