/** The services together, step by step: transactions, publishers, the broker and the consumer of statistics. */
module Chains {
  import opened Tiles
  import Database
  import Protocol
  import Publishing
  import Transactions
  import opened Projection
  import opened Lifecycles
  import opened Deliveries

  /** The database, the event of every match that ended, the outbox, and what the broker handed over and the consumer
      took. */
  datatype World<S, Q> = World(db: Database.Db<S, Q>, eventOf: map<Id, Id>, store: Publishing.Store, delivered: set<Id>,
                               processed: set<Id>)

  datatype Step<S, Q> =
    | Transact(transaction: Transaction<S, Q>, result: Database.Result)
    | End(transaction: Transaction<S, Q>, event: Id, topic: Id)
    | Publish
    | Deliver(event: Id)
    | Consume(event: Id)

  /** What an insert into the outbox does. */
  function Inserted(s: Publishing.Store, e: Id, topic: Id): Publishing.Store {
    s.(rows := s.rows[e := Publishing.Row(topic, s.now, 0, s.now, None, false)])
  }

  /** One step. The transaction that ends a match writes an event under a new id; every other one writes none. What the
      broker hands over was sent to the topic of the event, and it may do so any number of times; so may the consumer
      take it. */
  ghost predicate Next<S(!new), Q(!new)>(engine: (S, Q) -> Database.Verdict<S>, p: Publishing.Policy,
                                         events: map<Id, MatchFinished>, w: World<S, Q>, step: Step<S, Q>,
                                         v: World<S, Q>)
  {
    match step
    case Transact(t, r) =>
      && Allowed(engine, w.db, t) && Leads(w.db, t, v.db, r) && !(t.Terminate? && r == Database.Ok)
      && v == w.(db := v.db)
    case End(t, e, topic) =>
      && Allowed(engine, w.db, t) && Leads(w.db, t, v.db, Database.Ok) && t.Terminate?
      && e in events && e !in w.store.rows
      && |v.db.outbox| > 0 && var g := v.db.outbox[|v.db.outbox| - 1];
         SpeaksOf(events[e], g) &&
         v == w.(db := v.db, eventOf := w.eventOf[g := e], store := Inserted(w.store, e, topic))
    case Publish =>
      && Publishing.Evolves(w.store, v.store) && Publishing.Safe(v.store, p) && v.store.rows.Keys == w.store.rows.Keys
      && v == w.(store := v.store)
    case Deliver(e) =>
      && e in w.store.rows && (exists i :: 0 <= i < |w.store.sent| && w.store.sent[i].event == e &&
                                           w.store.sent[i].topic == w.store.rows[e].topic)
      && v == w.(delivered := w.delivered + {e})
    case Consume(e) =>
      e in w.delivered && v == w.(processed := w.processed + {e})
  }

  ghost predicate Joint<S(!new), Q(!new)>(engine: (S, Q) -> Database.Verdict<S>, p: Publishing.Policy,
                                          events: map<Id, MatchFinished>, w: World<S, Q>)
  {
    && Database.Valid(engine, w.db) && Publishing.Safe(w.store, p)
    && Chained(w.db, w.eventOf, w.store, w.delivered, events, w.processed)
  }

  lemma TransactChains<S(!new), Q(!new)>(engine: (S, Q) -> Database.Verdict<S>, p: Publishing.Policy,
                                         events: map<Id, MatchFinished>, w: World<S, Q>, step: Step<S, Q>,
                                         v: World<S, Q>)
    requires Joint(engine, p, events, w) && step.Transact? && Next(engine, p, events, w, step, v)
    ensures Joint(engine, p, events, v)
  {
    TransactionKeeps(engine, w.db, step.transaction, v.db, step.result);
    assert v.db.outbox == w.db.outbox;
  }

  lemma ConsumeChains<S(!new), Q(!new)>(engine: (S, Q) -> Database.Verdict<S>, p: Publishing.Policy,
                                        events: map<Id, MatchFinished>, w: World<S, Q>, step: Step<S, Q>,
                                        v: World<S, Q>)
    requires Joint(engine, p, events, w) && step.Consume? && Next(engine, p, events, w, step, v)
    ensures Joint(engine, p, events, v)
  {
    DeliveredIsEvent(engine, p, events, w, step.event);
  }

  lemma EndChains<S(!new), Q(!new)>(engine: (S, Q) -> Database.Verdict<S>, p: Publishing.Policy,
                                    events: map<Id, MatchFinished>, w: World<S, Q>, step: Step<S, Q>, v: World<S, Q>)
    requires Joint(engine, p, events, w) && step.End? && Next(engine, p, events, w, step, v)
    ensures Joint(engine, p, events, v)
  {
    var e := step.event;
    TransactionKeeps(engine, w.db, step.transaction, v.db, Database.Ok);
    var g :| v.db.outbox == w.db.outbox + [g] && Transactions.OneEvent(w.db, v.db, g);
    assert v.db.outbox[|v.db.outbox| - 1] == g;
    InsertIsSafe(w.store, p, e, step.topic);
    NewEventChains(w.db, v.db, w.eventOf, w.store, w.delivered, events, w.processed, g, e, step.topic);
  }

  lemma InsertIsSafe(s: Publishing.Store, p: Publishing.Policy, e: Id, topic: Id)
    requires Publishing.Safe(s, p) && e !in s.rows
    ensures Publishing.Safe(Inserted(s, e, topic), p)
  {
    Publishing.StaysSafe(s, Inserted(s, e, topic), p);
  }

  lemma NewEventChains<S(!new), Q(!new)>(db: Database.Db<S, Q>, next: Database.Db<S, Q>, eventOf: map<Id, Id>,
                                         s: Publishing.Store, delivered: set<Id>, events: map<Id, MatchFinished>,
                                         processed: set<Id>, g: Id, e: Id, topic: Id)
    requires Chained(db, eventOf, s, delivered, events, processed) && next.outbox == db.outbox + [g]
    requires multiset(db.outbox)[g] == 0 && e !in s.rows && e in events && SpeaksOf(events[e], g)
    ensures Chained(next, eventOf[g := e], Inserted(s, e, topic), delivered, events, processed)
  {
    assert g !in db.outbox by { assert g !in multiset(db.outbox); }
    var all := eventOf[g := e];
    forall x
      ensures x in Inserted(s, e, topic).rows <==> exists h :: h in all && all[h] == x
    {
      if x in s.rows {
        var h :| h in eventOf && eventOf[h] == x;
        assert h in all && all[h] == x;
      }
      if x == e { assert all[g] == x; }
      if h :| h in all && all[h] == x { assert h != g ==> h in eventOf && eventOf[h] == x; }
    }
    forall h, k | h in all && k in all && all[h] == all[k]
      ensures h == k
    {
      assert h != g ==> eventOf[h] in s.rows;
      assert k != g ==> eventOf[k] in s.rows;
    }
  }

  lemma PublishChains<S(!new), Q(!new)>(db: Database.Db<S, Q>, eventOf: map<Id, Id>, s: Publishing.Store,
                                        t: Publishing.Store, delivered: set<Id>, events: map<Id, MatchFinished>,
                                        processed: set<Id>)
    requires Chained(db, eventOf, s, delivered, events, processed)
    requires Publishing.Evolves(s, t) && t.rows.Keys == s.rows.Keys
    ensures Chained(db, eventOf, t, delivered, events, processed)
  {
    forall e | e in delivered
      ensures exists i :: 0 <= i < |t.sent| && t.sent[i].event == e
    {
      var i :| 0 <= i < |s.sent| && s.sent[i].event == e;
      assert t.sent[i] == s.sent[i];
    }
    assert forall e :: e in t.rows <==> e in s.rows;
  }

  /** Whatever is delivered is one of the events. */
  lemma DeliveredIsEvent<S(!new), Q(!new)>(engine: (S, Q) -> Database.Verdict<S>, p: Publishing.Policy,
                                           events: map<Id, MatchFinished>, w: World<S, Q>, e: Id)
    requires Joint(engine, p, events, w) && e in w.delivered
    ensures e in events
  {
    var i :| 0 <= i < |w.store.sent| && w.store.sent[i].event == e;
    assert Publishing.CopyFits(w.store, p, w.store.sent[i]);
    var g :| g in w.eventOf && w.eventOf[g] == e;
  }

  /** Every step of every service keeps the chain. */
  lemma NextKeeps<S(!new), Q(!new)>(engine: (S, Q) -> Database.Verdict<S>, p: Publishing.Policy,
                                    events: map<Id, MatchFinished>, w: World<S, Q>, step: Step<S, Q>, v: World<S, Q>)
    requires Joint(engine, p, events, w) && Next(engine, p, events, w, step, v)
    ensures Joint(engine, p, events, v)
  {
    match step
    case Transact(_, _) => TransactChains(engine, p, events, w, step, v);
    case End(_, _, _) => EndChains(engine, p, events, w, step, v);
    case Publish => PublishChains(w.db, w.eventOf, w.store, v.store, w.delivered, events, w.processed);
    case Deliver(e) =>
    case Consume(_) => ConsumeChains(engine, p, events, w, step, v);
  }

  /** A run from the empty system. */
  ghost predicate IsHistory<S(!new), Q(!new)>(engine: (S, Q) -> Database.Verdict<S>, p: Publishing.Policy,
                                              events: map<Id, MatchFinished>, ws: seq<World<S, Q>>,
                                              steps: seq<Step<S, Q>>)
  {
    && |ws| == |steps| + 1 && ws[0] == World(Protocol.Empty(), map[], Publishing.Store(map[], [], 0), {}, {})
    && forall i {:trigger steps[i]} :: 0 <= i < |steps| ==> Next(engine, p, events, ws[i], steps[i], ws[i + 1])
  }

  lemma NextOf<S(!new), Q(!new)>(engine: (S, Q) -> Database.Verdict<S>, p: Publishing.Policy,
                                 events: map<Id, MatchFinished>, ws: seq<World<S, Q>>, steps: seq<Step<S, Q>>, i: nat)
    requires IsHistory(engine, p, events, ws, steps) && i < |steps|
    ensures Next(engine, p, events, ws[i], steps[i], ws[i + 1])
  {
    assert steps[i] == steps[i];
  }

  lemma {:induction false} HistoryKeeps<S(!new), Q(!new)>(engine: (S, Q) -> Database.Verdict<S>, p: Publishing.Policy,
                                                          events: map<Id, MatchFinished>, ws: seq<World<S, Q>>,
                                                          steps: seq<Step<S, Q>>, n: nat)
    requires IsHistory(engine, p, events, ws, steps) && n <= |steps|
    ensures Joint(engine, p, events, ws[n])
  {
    if n > 0 {
      HistoryKeeps(engine, p, events, ws, steps, n - 1);
      NextOf(engine, p, events, ws, steps, n - 1);
      NextKeeps(engine, p, events, ws[n - 1], steps[n - 1], ws[n]);
    }
  }

  /** Over any run of all services together, with any retries, losses, repetitions and orders: the matches that the
      statistics count for an account are so many different matches of that user, each of which ended,
          with one event. */
  lemma CountedOverRuns<S(!new), Q(!new)>(engine: (S, Q) -> Database.Verdict<S>, p: Publishing.Policy,
                                          ws: seq<World<S, Q>>, steps: seq<Step<S, Q>>, n: nat, t: Tables, a: Account)
    requires t.Valid() && IsHistory(engine, p, t.events, ws, steps) && n <= |steps| && t.processed == ws[n].processed
    ensures RowOf(t.stats, a).matches == |CountedMatches(ws[n].eventOf, t.events, t.processed, a)|
    ensures forall g :: g in CountedMatches(ws[n].eventOf, t.events, t.processed, a) ==>
              && multiset(ws[n].db.outbox)[g] == 1 && g in ws[n].db.born
              && (g in ws[n].db.games ==> !ws[n].db.games[g].active)
              && t.events[ws[n].eventOf[g]].matchId == g && TookPart(t.events[ws[n].eventOf[g]], a)
  {
    HistoryKeeps(engine, p, t.events, ws, steps, n);
    CountedAtMostOnce(engine, ws[n].db, ws[n].eventOf, p, ws[n].store, ws[n].delivered, t, a);
  }
}
