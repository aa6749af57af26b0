/** From the end of a match to the statistics: every finished match is counted at most once. */
module Deliveries {
  import opened Tiles
  import Database
  import Publishing
  import opened Projection

  // ---------------------------------------------------------------- what one account played

  /** The user of the account played the match, and it counts. */
  predicate TookPart(m: MatchFinished, a: Account) {
    exists i :: 0 <= i < |m.players| && Counts(m, m.players[i]) && a == Account(m.players[i].actor, m.game)
  }

  /** Nobody has two seats. */
  predicate SeatsDiffer(m: MatchFinished) {
    forall i, j :: 0 <= i < j < |m.players| ==> m.players[i].actor != m.players[j].actor
  }

  lemma {:induction false} GainIsOne(m: MatchFinished, n: nat, a: Account)
    requires n <= |m.players| && SeatsDiffer(m)
    ensures Gain(m, n, a).matches == if exists i ::
              0 <= i < n && Counts(m, m.players[i]) && a == Account(m.players[i].actor, m.game) then 1 else 0
  {
    if n > 0 {
      GainIsOne(m, n - 1, a);
      GainEmpty(m, n - 1, a);
      var p := m.players[n - 1];
      if Counts(m, p) && a == Account(p.actor, m.game) {
        assert forall i :: 0 <= i < n - 1 ==> m.players[i].actor != p.actor;
      }
    }
  }

  /** Among the given events, those of matches the account played. */
  function EventsPlayed(events: map<Id, MatchFinished>, ids: set<Id>, a: Account): set<Id>
    requires ids <= events.Keys
  {
    set id | id in ids && TookPart(events[id], a)
  }

  /** The number of matches in the statistics is the number of events the user took part in. */
  lemma {:induction false} MatchesAreEvents(events: map<Id, MatchFinished>, ids: set<Id>, a: Account)
    requires ids <= events.Keys && forall id :: id in ids ==> SeatsDiffer(events[id])
    ensures StatsOf(events, ids, a).matches == |EventsPlayed(events, ids, a)|
    decreases ids
  {
    if ids != {} {
      var id :| id in ids;
      MatchesAreEvents(events, ids - {id}, a);
      OneMoreEvent(events, ids - {id}, id, a);
      assert ids - {id} + {id} == ids;
      GainIsOne(events[id], |events[id].players|, a);
      StatsEmpty(events, ids - {id}, a);
      GainEmpty(events[id], |events[id].players|, a);
      var before := EventsPlayed(events, ids - {id}, a);
      if TookPart(events[id], a) {
        assert EventsPlayed(events, ids, a) == before + {id};
      } else {
        assert EventsPlayed(events, ids, a) == before;
      }
    } else {
      assert EventsPlayed(events, ids, a) == {};
    }
  }

  // ---------------------------------------------------------------- wins, points and achievements

  /** How the user of the account did in the match; with one seat each, there is one answer. */
  predicate Did(m: MatchFinished, a: Account, p: Participant) {
    p in m.players && Counts(m, p) && a == Account(p.actor, m.game)
  }

  lemma {:induction false} GainBefore(m: MatchFinished, n: nat, a: Account)
    requires n <= |m.players| && forall i :: 0 <= i < n ==>
        !(Counts(m, m.players[i]) && a == Account(m.players[i].actor, m.game))
    ensures Gain(m, n, a) == NOTHING
  {
    if n > 0 { GainBefore(m, n - 1, a); }
  }

  lemma {:induction false} GainOfSeat(m: MatchFinished, n: nat, a: Account, k: nat)
    requires k < n <= |m.players| && SeatsDiffer(m) && Counts(m, m.players[k])
    requires a == Account(m.players[k].actor, m.game)
    ensures Gain(m, n, a) == OneMatch(m.players[k])
  {
    if n == k + 1 {
      GainBefore(m, k, a);
    } else {
      GainOfSeat(m, n - 1, a, k);
    }
  }

  /** What one match adds for a user who took part: a win, a draw or a loss, and the points. */
  lemma GainMeaning(m: MatchFinished, a: Account, p: Participant)
    requires SeatsDiffer(m) && Did(m, a, p)
    ensures var g := Gain(m, |m.players|, a);
            && g.matches == 1 && g.total == p.score && g.best == p.score
            && g.wins == (if p.isWinner && !p.isDraw then 1 else 0)
            && g.draws == (if p.isDraw then 1 else 0)
            && g.losses == (if !p.isWinner && !p.isDraw then 1 else 0)
  {
    var k :| 0 <= k < |m.players| && m.players[k] == p;
    GainOfSeat(m, |m.players|, a, k);
  }

  lemma GainOfOthers(m: MatchFinished, a: Account)
    requires !TookPart(m, a)
    ensures Gain(m, |m.players|, a) == NOTHING
  {
    GainBefore(m, |m.players|, a);
  }

  predicate Won(m: MatchFinished, a: Account) {
    exists p :: p in m.players && Did(m, a, p) && p.isWinner && !p.isDraw
  }

  predicate Drew(m: MatchFinished, a: Account) {
    exists p :: p in m.players && Did(m, a, p) && p.isDraw
  }

  /** The points of the user in the match. */
  ghost function PointsIn(m: MatchFinished, a: Account): int {
    if TookPart(m, a) then Gain(m, |m.players|, a).total else 0
  }

  lemma OnlySeat(m: MatchFinished, a: Account) returns (p: Participant)
    requires SeatsDiffer(m) && TookPart(m, a)
    ensures Did(m, a, p) && PointsIn(m, a) == p.score
    ensures Won(m, a) <==> p.isWinner && !p.isDraw
    ensures Drew(m, a) <==> p.isDraw
  {
    var i :| 0 <= i < |m.players| && Counts(m, m.players[i]) && a == Account(m.players[i].actor, m.game);
    p := m.players[i];
    forall q | Did(m, a, q)
      ensures q == p
    {
      var j :| 0 <= j < |m.players| && m.players[j] == q;
      assert m.players[i].actor == m.players[j].actor;
    }
    GainMeaning(m, a, p);
  }

  /** One event more: its result is counted once, its points are added, and the best result is kept. */
  lemma StatsStep(events: map<Id, MatchFinished>, ids: set<Id>, id: Id, a: Account)
    requires ids <= events.Keys && id in ids && SeatsDiffer(events[id])
    ensures var s, t := StatsOf(events, ids - {id}, a), StatsOf(events, ids, a);
            && t.wins == s.wins + (if Won(events[id], a) then 1 else 0)
            && t.draws == s.draws + (if Drew(events[id], a) then 1 else 0)
            && t.total == s.total + PointsIn(events[id], a)
            && (if !TookPart(events[id], a) then t == s
                else t.best == if s.matches == 0 || s.best < PointsIn(events[id], a) then PointsIn(events[id], a)
                               else s.best)
  {
    OneMoreEvent(events, ids - {id}, id, a);
    assert ids - {id} + {id} == ids;
    StatsEmpty(events, ids - {id}, a);
    if TookPart(events[id], a) {
      var p := OnlySeat(events[id], a);
      GainMeaning(events[id], a, p);
    } else {
      GainOfOthers(events[id], a);
    }
  }

  ghost function EventsWon(events: map<Id, MatchFinished>, ids: set<Id>, a: Account): set<Id>
    requires ids <= events.Keys
  {
    set id | id in ids && Won(events[id], a)
  }

  ghost function EventsDrawn(events: map<Id, MatchFinished>, ids: set<Id>, a: Account): set<Id>
    requires ids <= events.Keys
  {
    set id | id in ids && Drew(events[id], a)
  }

  lemma OneLess(ids: set<Id>, fewer: set<Id>, id: Id)
    requires forall i :: i in fewer <==> i in ids && i != id
    ensures |ids| == |fewer| + if id in ids then 1 else 0
  {
    if id in ids { assert ids == fewer + {id}; } else { assert ids == fewer; }
  }

  lemma CountsStep(events: map<Id, MatchFinished>, ids: set<Id>, id: Id, a: Account)
    requires ids <= events.Keys && id in ids
    ensures |EventsWon(events, ids, a)| ==
            |EventsWon(events, ids - {id}, a)| + (if Won(events[id], a) then 1 else 0)
    ensures |EventsDrawn(events, ids, a)| ==
            |EventsDrawn(events, ids - {id}, a)| + (if Drew(events[id], a) then 1 else 0)
  {
    OneLess(EventsWon(events, ids, a), EventsWon(events, ids - {id}, a), id);
    OneLess(EventsDrawn(events, ids, a), EventsDrawn(events, ids - {id}, a), id);
  }

  /** The statistics count the matches that were won and those that were drawn; the rest was lost. */
  lemma {:induction false} ResultsAreEvents(events: map<Id, MatchFinished>, ids: set<Id>, a: Account)
    requires ids <= events.Keys && forall id :: id in ids ==> SeatsDiffer(events[id])
    ensures StatsOf(events, ids, a).wins == |EventsWon(events, ids, a)|
    ensures StatsOf(events, ids, a).draws == |EventsDrawn(events, ids, a)|
    decreases ids
  {
    if ids != {} {
      var id :| id in ids;
      ResultsAreEvents(events, ids - {id}, a);
      StatsStep(events, ids, id, a);
      CountsStep(events, ids, id, a);
    } else {
      assert EventsWon(events, ids, a) == {} && EventsDrawn(events, ids, a) == {};
    }
  }

  /** The best result is one that was reached, and none was better; the total adds up all of them. */
  lemma {:induction false} BestIsReached(events: map<Id, MatchFinished>, ids: set<Id>, a: Account)
    requires ids <= events.Keys && forall id :: id in ids ==> SeatsDiffer(events[id])
    ensures IsBest(events, EventsPlayed(events, ids, a), a, StatsOf(events, ids, a).best)
    ensures StatsOf(events, ids, a).total == SumOfPoints(events, ids, a)
    decreases ids
  {
    if ids != {} {
      var id := AnyOf(ids);
      BestIsReached(events, ids - {id}, a);
      StatsStep(events, ids, id, a);
      MatchesAreEvents(events, ids - {id}, a);
      BestStep(events, ids, id, a, StatsOf(events, ids - {id}, a).best);
    }
  }

  ghost function AnyOf(ids: set<Id>): (id: Id)
    requires ids != {}
    ensures id in ids
  {
    var id :| id in ids;
    id
  }

  ghost function SumOfPoints(events: map<Id, MatchFinished>, ids: set<Id>, a: Account): int
    requires ids <= events.Keys
  {
    if ids == {} then 0
    else
      var id := AnyOf(ids);
      PointsIn(events[id], a) + SumOfPoints(events, ids - {id}, a)
  }

  ghost predicate IsBest(events: map<Id, MatchFinished>, played: set<Id>, a: Account, best: int)
    requires played <= events.Keys
  {
    && (forall id :: id in played ==> PointsIn(events[id], a) <= best)
    && (played != {} ==> exists id :: id in played && PointsIn(events[id], a) == best)
  }

  lemma BestStep(events: map<Id, MatchFinished>, ids: set<Id>, id: Id, a: Account, best: int)
    requires ids <= events.Keys && id in ids && IsBest(events, EventsPlayed(events, ids - {id}, a), a, best)
    ensures var before, points := EventsPlayed(events, ids - {id}, a), PointsIn(events[id], a);
            IsBest(events, EventsPlayed(events, ids, a), a,
                   if TookPart(events[id], a) && (before == {} || best < points) then points else best)
  {
    var before, played := EventsPlayed(events, ids - {id}, a), EventsPlayed(events, ids, a);
    if TookPart(events[id], a) {
      assert played == before + {id};
      if before != {} {
        var i :| i in before && PointsIn(events[i], a) == best;
        assert i in played;
      }
    } else {
      assert played == before;
    }
  }

  /** Which achievements a user has: for any match that counts, for one of Carcassonne, and for a win in it. */
  lemma UnlockedMeaning(events: map<Id, MatchFinished>, ids: set<Id>, user: Id)
    requires ids <= events.Keys
    ensures Unlocked(events, ids, user, FirstGameAny) <==>
            exists id :: id in ids && TookPart(events[id], Account(user, events[id].game))
    ensures Unlocked(events, ids, user, CarcassonneFirstGame) <==>
            exists id :: id in ids && TookPart(events[id], Account(user, "carcassonne"))
    ensures Unlocked(events, ids, user, CarcassonneFirstWin) <==>
            exists id, p :: id in ids && Did(events[id], Account(user, "carcassonne"), p) && p.isWinner
  {
    if id, i :| id in ids && 0 <= i < |events[id].players| && events[id].players[i].actor == user &&
                Unlocks(events[id], events[id].players[i], CarcassonneFirstWin) {
      assert Did(events[id], Account(user, "carcassonne"), events[id].players[i]);
    }
    if id, p :| id in ids && Did(events[id], Account(user, "carcassonne"), p) && p.isWinner {
      var i :| 0 <= i < |events[id].players| && events[id].players[i] == p;
      assert Unlocks(events[id], events[id].players[i], CarcassonneFirstWin);
    }
    UnlockedByPlaying(events, ids, user);
  }

  lemma UnlockedByPlaying(events: map<Id, MatchFinished>, ids: set<Id>, user: Id)
    requires ids <= events.Keys
    ensures Unlocked(events, ids, user, FirstGameAny) <==>
            exists id :: id in ids && TookPart(events[id], Account(user, events[id].game))
    ensures Unlocked(events, ids, user, CarcassonneFirstGame) <==>
            exists id :: id in ids && TookPart(events[id], Account(user, "carcassonne"))
  {
    forall id | id in ids
      ensures TookPart(events[id], Account(user, events[id].game)) <==>
              exists i :: 0 <= i < |events[id].players| && events[id].players[i].actor == user &&
                          Unlocks(events[id], events[id].players[i], FirstGameAny)
      ensures TookPart(events[id], Account(user, "carcassonne")) <==>
              exists i :: 0 <= i < |events[id].players| && events[id].players[i].actor == user &&
                          Unlocks(events[id], events[id].players[i], CarcassonneFirstGame)
    {}
  }

  // ---------------------------------------------------------------- the chain

  /** An event speaks about its match, and nobody has two seats in it. */
  predicate SpeaksOf(m: MatchFinished, g: Id) {
    m.matchId == g && SeatsDiffer(m)
  }

  /** Every match that ended has its own event; the outbox holds exactly these events; what is delivered was sent; what
      was processed was delivered. */
  ghost predicate Chained<S(!new), Q(!new)>(db: Database.Db<S, Q>, eventOf: map<Id, Id>, s: Publishing.Store,
                                            delivered: set<Id>, events: map<Id, MatchFinished>, processed: set<Id>)
  {
    && (forall g :: g in db.outbox <==> g in eventOf)
    && (forall g, h :: g in eventOf && h in eventOf && eventOf[g] == eventOf[h] ==> g == h)
    && (forall e :: e in s.rows <==> exists g :: g in eventOf && eventOf[g] == e)
    && (forall e :: e in delivered ==> exists i :: 0 <= i < |s.sent| && s.sent[i].event == e)
    && processed <= delivered && processed <= events.Keys
    && (forall g :: g in eventOf ==> eventOf[g] in events && SpeaksOf(events[eventOf[g]], g))
  }

  /** The matches that were counted for an account. */
  ghost function CountedMatches(eventOf: map<Id, Id>, events: map<Id, MatchFinished>, processed: set<Id>,
                                a: Account): set<Id>
    requires processed <= events.Keys
  {
    set g | g in eventOf && eventOf[g] in EventsPlayed(events, processed, a)
  }

  /** End to end, whatever is retried, lost, sent twice or delivered in another order: the matches of an account in the
      statistics are so many different matches of that user, each of which ended, with one event, in one commit. */
  lemma CountedAtMostOnce<S(!new), Q(!new)>(engine: (S, Q) -> Database.Verdict<S>, db: Database.Db<S, Q>,
                                            eventOf: map<Id, Id>, p: Publishing.Policy, s: Publishing.Store,
                                            delivered: set<Id>, t: Tables, a: Account)
    requires Database.Valid(engine, db) && Publishing.Safe(s, p) && t.Valid()
    requires Chained(db, eventOf, s, delivered, t.events, t.processed)
    ensures RowOf(t.stats, a).matches == |CountedMatches(eventOf, t.events, t.processed, a)|
    ensures forall g :: g in CountedMatches(eventOf, t.events, t.processed, a) ==>
              && multiset(db.outbox)[g] == 1 && g in db.born && (g in db.games ==> !db.games[g].active)
              && t.events[eventOf[g]].matchId == g && TookPart(t.events[eventOf[g]], a)
  {
    var ids := EventsPlayed(t.events, t.processed, a);
    forall id | id in t.processed
      ensures exists g :: g in eventOf && eventOf[g] == id
    {
      var i :| 0 <= i < |s.sent| && s.sent[i].event == id;
      assert Publishing.CopyFits(s, p, s.sent[i]);
    }
    forall id | id in t.processed
      ensures SeatsDiffer(t.events[id])
    {
      var g :| g in eventOf && eventOf[g] == id;
    }
    MatchesAreEvents(t.events, t.processed, a);
    assert RowOf(t.stats, a) == StatsOf(t.events, t.processed, a);
    SameSize(eventOf, CountedMatches(eventOf, t.events, t.processed, a), ids);
    forall g | g in CountedMatches(eventOf, t.events, t.processed, a)
      ensures multiset(db.outbox)[g] == 1 && g in db.born && (g in db.games ==> !db.games[g].active)
    {
      assert Database.OutboxFits(db, g);
      assert g in multiset(db.outbox);
    }
  }

  /** An injective map keeps the size of a set. */
  lemma {:induction false} SameSize(eventOf: map<Id, Id>, games: set<Id>, ids: set<Id>)
    requires forall g, h :: g in eventOf && h in eventOf && eventOf[g] == eventOf[h] ==> g == h
    requires games <= eventOf.Keys && forall id :: id in ids <==> exists g :: g in games && eventOf[g] == id
    ensures |games| == |ids|
    decreases games
  {
    if games != {} {
      var g :| g in games;
      forall id
        ensures id in ids - {eventOf[g]} <==> exists h :: h in games - {g} && eventOf[h] == id
      {
        if id in ids - {eventOf[g]} {
          var h :| h in games && eventOf[h] == id;
          assert h in games - {g};
        }
      }
      SameSize(eventOf, games - {g}, ids - {eventOf[g]});
      assert eventOf[g] in ids;
    } else {
      assert ids == {} by { assert forall id :: id !in ids; }
    }
  }
}
