/** Player statistics, projected from finished matches that may be delivered often and in any order. */
module Projection {
  import opened Tiles

  datatype ActorKind = User | Guest | Bot

  datatype Participant = Participant(actor: Id, kind: ActorKind, isDraw: bool, isWinner: bool, score: int)

  /** The game played, the match itself, how and when it ended, and who took part. */
  datatype MatchFinished = MatchFinished(game: Id, matchId: Id, normal: bool, endedAt: int, players: seq<Participant>)

  /** The match that brought an achievement, and when it ended. */
  datatype Proof = Proof(matchId: Id, endedAt: int)

  datatype Stats = Stats(matches: int, wins: int, losses: int, draws: int, total: int, best: int)

  const NOTHING := Stats(0, 0, 0, 0, 0, 0)

  const CARCASSONNE: Id := "carcassonne"

  datatype Achievement = FirstGameAny | CarcassonneFirstGame | CarcassonneFirstWin

  datatype Account = Account(user: Id, game: Id)

  // ---------------------------------------------------------------- what one match adds

  function OneMatch(p: Participant): Stats {
    Stats(1, if !p.isDraw && p.isWinner then 1 else 0, if !p.isDraw && !p.isWinner then 1 else 0,
          if p.isDraw then 1 else 0, p.score, p.score)
  }

  function Max(a: int, b: int): int {
    if a < b then b else a
  }

  function Plus(a: Stats, b: Stats): Stats {
    Stats(a.matches + b.matches, a.wins + b.wins, a.losses + b.losses, a.draws + b.draws, a.total + b.total,
        Max(a.best, b.best))
  }

  /** Adds up two records; the record of nothing is neutral. */
  function Merge(a: Stats, b: Stats): Stats {
    if a.matches == 0 then b
    else if b.matches == 0 then a
    else Plus(a, b)
  }

  /** A record of no matches is empty, and every match was won, lost or drawn. */
  predicate Adds(a: Stats) {
    0 <= a.matches == a.wins + a.losses + a.draws && (a.matches == 0 ==> a == NOTHING)
  }

  lemma MergeAdds(a: Stats, b: Stats)
    requires Adds(a) && Adds(b)
    ensures Adds(Merge(a, b))
  {}

  lemma PlusLaws(a: Stats, b: Stats, c: Stats)
    ensures Plus(a, b) == Plus(b, a)
    ensures Plus(Plus(a, b), c) == Plus(a, Plus(b, c)) == Plus(Plus(a, c), b)
  {}

  predicate EmptyIsNothing(a: Stats) {
    0 <= a.matches && (a.matches == 0 ==> a == NOTHING)
  }

  /** Records can be added in any order. */
  lemma MergeSwaps(a: Stats, b: Stats, c: Stats)
    requires EmptyIsNothing(a) && EmptyIsNothing(b) && EmptyIsNothing(c)
    ensures Merge(Merge(a, b), c) == Merge(Merge(a, c), b)
  {
    PlusLaws(a, b, c);
    PlusLaws(b, c, a);
  }

  lemma MergeTogether(a: Stats, b: Stats, c: Stats)
    requires EmptyIsNothing(a) && EmptyIsNothing(b) && EmptyIsNothing(c)
    ensures Merge(Merge(a, b), c) == Merge(a, Merge(b, c))
  {
    PlusLaws(a, b, c);
  }

  predicate Counts(m: MatchFinished, p: Participant) {
    m.normal && p.kind == User
  }

  /** What the first n players of a match add to one account. */
  function Gain(m: MatchFinished, n: nat, a: Account): Stats
    requires n <= |m.players|
  {
    if n == 0 then NOTHING
    else
      var p := m.players[n - 1];
      if Counts(m, p) && a == Account(p.actor, m.game) then Merge(Gain(m, n - 1, a), OneMatch(p)) else Gain(m, n - 1, a)
  }

  lemma {:induction false} GainAdds(m: MatchFinished, n: nat, a: Account)
    requires n <= |m.players|
    ensures Adds(Gain(m, n, a))
  {
    if n > 0 {
      GainAdds(m, n - 1, a);
      MergeAdds(Gain(m, n - 1, a), OneMatch(m.players[n - 1]));
    }
  }

  lemma GainEmpty(m: MatchFinished, n: nat, a: Account)
    requires n <= |m.players|
    ensures EmptyIsNothing(Gain(m, n, a))
  {
    GainAdds(m, n, a);
  }

  predicate Unlocks(m: MatchFinished, p: Participant, code: Achievement) {
    Counts(m, p) &&
    (code == FirstGameAny ||
     (m.game == CARCASSONNE && (code == CarcassonneFirstGame || (code == CarcassonneFirstWin && p.isWinner))))
  }

  // ---------------------------------------------------------------- what a set of matches adds

  /** The statistics that a set of events stands for. */
  ghost function StatsOf(events: map<Id, MatchFinished>, ids: set<Id>, a: Account): Stats
    requires ids <= events.Keys
  {
    if ids == {} then NOTHING
    else
      var id :| id in ids;
      Merge(StatsOf(events, ids - {id}, a), Gain(events[id], |events[id].players|, a))
  }

  lemma {:induction false} StatsAdd(events: map<Id, MatchFinished>, ids: set<Id>, a: Account)
    requires ids <= events.Keys
    ensures Adds(StatsOf(events, ids, a))
  {
    if ids != {} {
      var id :| id in ids &&
                StatsOf(events, ids, a) == Merge(StatsOf(events, ids - {id}, a),
          Gain(events[id], |events[id].players|, a));
      StatsAdd(events, ids - {id}, a);
      GainAdds(events[id], |events[id].players|, a);
      MergeAdds(StatsOf(events, ids - {id}, a), Gain(events[id], |events[id].players|, a));
    }
  }

  lemma StatsEmpty(events: map<Id, MatchFinished>, ids: set<Id>, a: Account)
    requires ids <= events.Keys
    ensures EmptyIsNothing(StatsOf(events, ids, a))
  {
    StatsAdd(events, ids, a);
  }

  /** It does not matter in which order the events are taken. */
  lemma {:induction false} OneMoreEvent(events: map<Id, MatchFinished>, ids: set<Id>, id: Id, a: Account)
    requires ids <= events.Keys && id in events && id !in ids
    ensures StatsOf(events, ids + {id}, a) == Merge(StatsOf(events, ids, a), Gain(events[id], |events[id].players|, a))
    decreases ids
  {
    var all := ids + {id};
    var j :| j in all &&
             StatsOf(events, all, a) == Merge(StatsOf(events, all - {j}, a), Gain(events[j], |events[j].players|, a));
    if j == id {
      assert all - {id} == ids;
    } else {
      assert all - {j} == (ids - {j}) + {id} && ids == (ids - {j}) + {j};
      OneMoreEvent(events, ids - {j}, id, a);
      OneMoreEvent(events, ids - {j}, j, a);
      StatsEmpty(events, ids - {j}, a);
      GainEmpty(events[id], |events[id].players|, a);
      GainEmpty(events[j], |events[j].players|, a);
      MergeSwaps(StatsOf(events, ids - {j}, a), Gain(events[id], |events[id].players|, a),
          Gain(events[j], |events[j].players|, a));
    }
  }

  ghost predicate Unlocked(events: map<Id, MatchFinished>, ids: set<Id>, user: Id, code: Achievement)
    requires ids <= events.Keys
  {
    exists id, i :: id in ids && 0 <= i < |events[id].players| && events[id].players[i].actor == user &&
                    Unlocks(events[id], events[id].players[i], code)
  }

  ghost predicate UnlockedBy(m: MatchFinished, n: nat, user: Id, code: Achievement)
    requires n <= |m.players|
  {
    exists i :: 0 <= i < n && m.players[i].actor == user && Unlocks(m, m.players[i], code)
  }

  lemma UnlockedStep(events: map<Id, MatchFinished>, ids: set<Id>, id: Id, user: Id, code: Achievement)
    requires ids <= events.Keys && id in events
    ensures Unlocked(events, ids + {id}, user, code) <==>
              Unlocked(events, ids, user, code) || UnlockedBy(events[id], |events[id].players|, user, code)
  {
    if Unlocked(events, ids, user, code) {
      var j, i :| j in ids && 0 <= i < |events[j].players| && events[j].players[i].actor == user &&
                  Unlocks(events[j], events[j].players[i], code);
      assert j in ids + {id};
    }
    if UnlockedBy(events[id], |events[id].players|, user, code) {
      assert id in ids + {id};
    }
  }

  // ---------------------------------------------------------------- the tables

  function RowOf(stats: map<Account, Stats>, a: Account): Stats {
    if a in stats then stats[a] else NOTHING
  }

  /** Inserts a first row or accumulates onto the stored one. */
  function Upsert(stats: map<Account, Stats>, a: Account, x: Stats): map<Account, Stats> {
    if a !in stats then stats[a := x]
    else
      var r := stats[a];
      stats[a := Stats(r.matches + 1, r.wins + x.wins, r.losses + x.losses, r.draws + x.draws, r.total + x.total,
          Max(r.best, x.best))]
  }

  /** Only accounts that played have a row. */
  predicate Played(stats: map<Account, Stats>) {
    forall a :: a in stats ==> stats[a].matches > 0
  }

  /** The rows after the first n players of a match, from the rows before. */
  ghost predicate Counted(before: map<Account, Stats>, m: MatchFinished, n: nat, stats: map<Account, Stats>)
    requires n <= |m.players|
  {
    Played(stats) && forall a {:trigger RowOf(stats, a)} :: RowOf(stats, a) == Merge(RowOf(before, a), Gain(m, n, a))
  }

  lemma CountedNone(stats: map<Account, Stats>, m: MatchFinished)
    requires Played(stats)
    ensures Counted(stats, m, 0, stats)
  {}

  /** The database adds one match to a row exactly as Merge does. */
  lemma UpsertIsMerge(stats: map<Account, Stats>, k: Account, p: Participant, a: Account)
    requires Played(stats)
    ensures Played(Upsert(stats, k, OneMatch(p)))
    ensures RowOf(Upsert(stats, k, OneMatch(p)), a) ==
            if a == k then Merge(RowOf(stats, k), OneMatch(p)) else RowOf(stats, a)
  {}

  lemma CountedStep(before: map<Account, Stats>, m: MatchFinished, n: nat, stats: map<Account, Stats>)
    requires n < |m.players| && Counted(before, m, n, stats)
    requires forall a {:trigger RowOf(before, a)} :: EmptyIsNothing(RowOf(before, a))
    ensures var p := m.players[n];
            Counted(before, m, n + 1,
                    if Counts(m, p) then Upsert(stats, Account(p.actor, m.game), OneMatch(p)) else stats)
  {
    var p := m.players[n];
    var k := Account(p.actor, m.game);
    if Counts(m, p) {
      forall a
        ensures Played(Upsert(stats, k, OneMatch(p)))
        ensures RowOf(Upsert(stats, k, OneMatch(p)), a) == Merge(RowOf(before, a), Gain(m, n + 1, a))
      {
        UpsertIsMerge(stats, k, p, a);
        assert RowOf(stats, a) == Merge(RowOf(before, a), Gain(m, n, a));
        GainEmpty(m, n, a);
        MergeTogether(RowOf(before, a), Gain(m, n, a), OneMatch(p));
      }
      UpsertIsMerge(stats, k, p, k);
    } else {
      assert forall a :: Gain(m, n + 1, a) == Gain(m, n, a);
    }
  }

  /** The achievements after the first n players of a match. */
  ghost predicate UnlockedFrom(before: set<(Id, Achievement)>, m: MatchFinished, n: nat, now: set<(Id, Achievement)>)
    requires n <= |m.players|
  {
    forall user, code {:trigger UnlockedBy(m, n, user, code)} {:trigger (user, code) in now} ::
      (user, code) in now <==> (user, code) in before || UnlockedBy(m, n, user, code)
  }

  /** What was unlocked before keeps its match; what is new comes from this one. */
  ghost predicate FirstWins(before: map<(Id, Achievement), Proof>, m: MatchFinished, now: map<(Id, Achievement),
                            Proof>) {
    && (forall k :: k in before ==> k in now && now[k] == before[k])
    && (forall k :: k in now && k !in before ==> now[k] == Proof(m.matchId, m.endedAt))
  }

  /** The recorded match is one of the consumed ones, and the user really got the achievement in it. */
  ghost predicate Proven(events: map<Id, MatchFinished>, ids: set<Id>, user: Id, code: Achievement, proof: Proof)
    requires ids <= events.Keys
  {
    exists id :: id in ids && UnlockedBy(events[id], |events[id].players|, user, code) &&
                 proof == Proof(events[id].matchId, events[id].endedAt)
  }

  lemma ProofStep(events: map<Id, MatchFinished>, ids: set<Id>, id: Id, before: map<(Id, Achievement), Proof>,
                  now: map<(Id, Achievement), Proof>, k: (Id, Achievement))
    requires ids <= events.Keys && id in events && k in now && FirstWins(before, events[id], now)
    requires UnlockedFrom(before.Keys, events[id], |events[id].players|, now.Keys)
    requires k in before ==> Proven(events, ids, k.0, k.1, before[k])
    ensures Proven(events, ids + {id}, k.0, k.1, now[k])
  {
    if k in before {
      var j :| j in ids && UnlockedBy(events[j], |events[j].players|, k.0, k.1) &&
               before[k] == Proof(events[j].matchId, events[j].endedAt);
      assert j in ids + {id};
    } else {
      assert k == (k.0, k.1) && (k.0, k.1) in now.Keys;
      assert UnlockedBy(events[id], |events[id].players|, k.0, k.1);
      assert id in ids + {id};
    }
  }

  /** The first of the deliveries that unlocks the achievement, or their number if none does. */
  ghost function FirstUnlock(ds: seq<(Id, MatchFinished)>, k: (Id, Achievement)): (i: nat)
    ensures i <= |ds| && (i < |ds| ==> UnlockedBy(ds[i].1, |ds[i].1.players|, k.0, k.1))
    ensures forall j :: 0 <= j < i ==> !UnlockedBy(ds[j].1, |ds[j].1.players|, k.0, k.1)
  {
    if ds == [] then 0
    else
      var n := |ds| - 1;
      var i := FirstUnlock(ds[..n], k);
      if i < n || UnlockedBy(ds[n].1, |ds[n].1.players|, k.0, k.1) then i else |ds|
  }

  /** After the deliveries, an achievement that was not unlocked before holds the match and the time of the first of
      them that unlocks it. */
  ghost predicate Recorded(before: map<(Id, Achievement), Proof>, ds: seq<(Id, MatchFinished)>,
                           now: map<(Id, Achievement), Proof>)
  {
    forall k {:trigger FirstUnlock(ds, k)} {:trigger k in now} ::
      && (k in now <==> k in before || FirstUnlock(ds, k) < |ds|)
      && (k in before ==> now[k] == before[k])
      && (k !in before && k in now ==>
          var m := ds[FirstUnlock(ds, k)].1;
          now[k] == Proof(m.matchId, m.endedAt))
  }

  lemma RecordedStep(before: map<(Id, Achievement), Proof>, ds: seq<(Id, MatchFinished)>, d: (Id, MatchFinished),
                     now: map<(Id, Achievement), Proof>, next: map<(Id, Achievement), Proof>)
    requires Recorded(before, ds, now) && FirstWins(now, d.1, next)
    requires UnlockedFrom(now.Keys, d.1, |d.1.players|, next.Keys)
    ensures Recorded(before, ds + [d], next)
  {
    var all := ds + [d];
    forall k: (Id, Achievement)
      ensures k in next <==> k in before || FirstUnlock(all, k) < |all|
      ensures k in before ==> next[k] == before[k]
      ensures k !in before && k in next ==>
                next[k] == Proof(all[FirstUnlock(all, k)].1.matchId, all[FirstUnlock(all, k)].1.endedAt)
    {
      assert k == (k.0, k.1) && all[..|ds|] == ds;
      assert k in next.Keys <==> k in now.Keys || UnlockedBy(d.1, |d.1.players|, k.0, k.1);
      assert k in now <==> k in before || FirstUnlock(ds, k) < |ds|;
    }
  }

  /** Two consumers of the same events unlock the same achievements. They record the same match for one if and only if
      the first deliveries that unlock it carry the same match and time. */
  lemma RecordsAgreeIff(ds: seq<(Id, MatchFinished)>, es: seq<(Id, MatchFinished)>, x: map<(Id, Achievement), Proof>,
                        y: map<(Id, Achievement), Proof>, k: (Id, Achievement))
    requires Recorded(map[], ds, x) && Recorded(map[], es, y) && forall d :: d in ds <==> d in es
    ensures k in x <==> k in y
    ensures k in x ==> FirstUnlock(ds, k) < |ds| && FirstUnlock(es, k) < |es| &&
                       var m, n := ds[FirstUnlock(ds, k)].1, es[FirstUnlock(es, k)].1;
                       (x[k] == y[k] <==> m.matchId == n.matchId && m.endedAt == n.endedAt)
  {
    assert k in x <==> FirstUnlock(ds, k) < |ds|;
    assert k in y <==> FirstUnlock(es, k) < |es|;
    if k in x {
      assert ds[FirstUnlock(ds, k)] in es;
    }
    if k in y {
      assert es[FirstUnlock(es, k)] in ds;
    }
  }

  function Codes(m: MatchFinished, p: Participant): set<Achievement> {
    {FirstGameAny}
    + (if m.game == CARCASSONNE then {CarcassonneFirstGame} else {})
    + (if m.game == CARCASSONNE && p.isWinner then {CarcassonneFirstWin} else {})
  }

  lemma UnlockStep(before: set<(Id, Achievement)>, m: MatchFinished, n: nat, now: set<(Id, Achievement)>)
    requires n < |m.players| && UnlockedFrom(before, m, n, now)
    ensures var p := m.players[n];
            UnlockedFrom(before, m, n + 1,
                         if Counts(m, p) then now + (set code | code in Codes(m, p) :: (p.actor, code)) else now)
  {
    var p := m.players[n];
    var next := if Counts(m, p) then now + (set code | code in Codes(m, p) :: (p.actor, code)) else now;
    forall user, code
      ensures (user, code) in next <==> (user, code) in before || UnlockedBy(m, n + 1, user, code)
    {
      assert (user, code) in now <==> (user, code) in before || UnlockedBy(m, n, user, code);
      if Counts(m, p) { assert code in Codes(m, p) <==> Unlocks(m, p, code); }
      assert UnlockedBy(m, n + 1, user, code) <==>
             UnlockedBy(m, n, user, code) || (p.actor == user && Unlocks(m, p, code));
    }
  }

  /** The processed events, the accumulated rows and the unlocked achievements of one consumer group. */
  class Tables {
    ghost const events: map<Id, MatchFinished>
    var processed: set<Id>
    var stats: map<Account, Stats>
    var unlocked: map<(Id, Achievement), Proof>

    /** The tables are a function of the set of processed events, whatever their order and however often delivered. */
    ghost predicate Valid()
      reads this
    {
      && processed <= events.Keys && Played(stats)
      && (forall a {:trigger RowOf(stats, a)} :: RowOf(stats, a) == StatsOf(events, processed, a))
      && (forall user, code {:trigger (user, code) in unlocked.Keys} :: (user, code) in unlocked.Keys <==>
          Unlocked(events, processed, user, code))
      && (forall k {:trigger unlocked[k]} :: k in unlocked ==> Proven(events, processed, k.0, k.1, unlocked[k]))
    }

    constructor (ghost events: map<Id, MatchFinished>)
      ensures this.events == events && Valid() && processed == {}
    {
      this.events := events;
      processed, stats, unlocked := {}, map[], map[];
    }

    /** Consumes one delivery; a duplicate changes nothing. */
    method ApplyMatchFinished(id: Id, m: MatchFinished) returns (isNew: bool)
      requires Valid() && id in events && events[id] == m
      modifies this
      ensures Valid() && processed == old(processed) + {id} && (isNew <==> id !in old(processed))
      ensures !isNew ==> stats == old(stats) && unlocked == old(unlocked)
      ensures FirstWins(old(unlocked), m, unlocked) && UnlockedFrom(old(unlocked).Keys, m, |m.players|, unlocked.Keys)
    {
      if id in processed {
        assert processed == processed + {id};
        forall user, code
          ensures (user, code) in unlocked.Keys <==>
                  (user, code) in unlocked.Keys || UnlockedBy(m, |m.players|, user, code)
        {
          UnlockedStep(events, processed, id, user, code);
          assert (user, code) in unlocked.Keys <==> Unlocked(events, processed, user, code);
        }
        return false;
      }
      ghost var rows, had := stats, unlocked;
      CountPlayers(m, processed);
      forall a
        ensures RowOf(stats, a) == StatsOf(events, processed + {id}, a)
      {
        OneMoreEvent(events, processed, id, a);
        assert RowOf(rows, a) == StatsOf(events, processed, a);
      }
      forall user, code
        ensures (user, code) in unlocked.Keys <==> Unlocked(events, processed + {id}, user, code)
      {
        UnlockedStep(events, processed, id, user, code);
        assert (user, code) in had.Keys <==> Unlocked(events, processed, user, code);
      }
      forall k | k in unlocked
        ensures Proven(events, processed + {id}, k.0, k.1, unlocked[k])
      {
        ProofStep(events, processed, id, had, unlocked, k);
      }
      processed := processed + {id};
      isNew := true;
    }

    method CountPlayers(m: MatchFinished, ghost done: set<Id>)
      requires Played(stats) && done <= events.Keys
      requires forall a {:trigger RowOf(stats, a)} :: RowOf(stats, a) == StatsOf(events, done, a)
      modifies `stats, `unlocked
      ensures Counted(old(stats), m, |m.players|, stats)
      ensures UnlockedFrom(old(unlocked).Keys, m, |m.players|, unlocked.Keys) && FirstWins(old(unlocked), m, unlocked)
    {
      ghost var rows, had := stats, unlocked;
      CountedNone(rows, m);
      forall a
        ensures EmptyIsNothing(RowOf(rows, a))
      {
        assert RowOf(rows, a) == StatsOf(events, done, a);
        StatsEmpty(events, done, a);
      }
      for i := 0 to |m.players|
        invariant Counted(rows, m, i, stats) && UnlockedFrom(had.Keys, m, i, unlocked.Keys)
        invariant FirstWins(had, m, unlocked)
      {
        var p := m.players[i];
        CountedStep(rows, m, i, stats);
        UnlockStep(had.Keys, m, i, unlocked.Keys);
        if m.normal && p.kind == User {
          stats := Upsert(stats, Account(p.actor, m.game), OneMatch(p));
          ghost var keys := unlocked.Keys;
          unlocked := (map code | code in Codes(m, p) :: (p.actor, code) := Proof(m.matchId, m.endedAt)) + unlocked;
          assert unlocked.Keys == keys + set code | code in Codes(m, p) :: (p.actor, code);
        }
      }
    }

    /** Every match a user took part in was won, lost or drawn. */
    lemma MatchesAddUp(a: Account)
      requires Valid()
      ensures RowOf(stats, a).matches == RowOf(stats, a).wins + RowOf(stats, a).losses + RowOf(stats, a).draws
    {
      StatsAdd(events, processed, a);
    }
  }

  /** Two consumers that have seen the same events, in any order and with any duplicates, agree. */
  lemma SameEventsSameTables(x: Tables, y: Tables)
    requires x.Valid() && y.Valid() && x.events == y.events && x.processed == y.processed
    ensures forall a :: RowOf(x.stats, a) == RowOf(y.stats, a)
    ensures x.unlocked.Keys == y.unlocked.Keys
  {
    forall a
      ensures RowOf(x.stats, a) == RowOf(y.stats, a)
    {
      assert RowOf(x.stats, a) == StatsOf(x.events, x.processed, a);
    }
    forall u: (Id, Achievement)
      ensures u in x.unlocked.Keys <==> u in y.unlocked.Keys
    {
      assert u == (u.0, u.1);
      assert (u.0, u.1) in x.unlocked.Keys <==> Unlocked(x.events, x.processed, u.0, u.1);
    }
  }

  /** Deliveries with repetitions, in any order: the result depends only on which events were delivered. */
  method Consume(t: Tables, deliveries: seq<(Id, MatchFinished)>)
    requires t.Valid() && forall d :: d in deliveries ==> d.0 in t.events && t.events[d.0] == d.1
    modifies t
    ensures t.Valid() && t.processed == old(t.processed) + set d | d in deliveries :: d.0
    ensures Recorded(old(t.unlocked), deliveries, t.unlocked)
  {
    for i := 0 to |deliveries|
      invariant t.Valid() && t.processed == old(t.processed) + set d | d in deliveries[..i] :: d.0
      invariant Recorded(old(t.unlocked), deliveries[..i], t.unlocked)
    {
      assert deliveries[i] in deliveries;
      assert deliveries[..i + 1] == deliveries[..i] + [deliveries[i]];
      ghost var had := t.unlocked;
      var isNew := t.ApplyMatchFinished(deliveries[i].0, deliveries[i].1);
      RecordedStep(old(t.unlocked), deliveries[..i], deliveries[i], had, t.unlocked);
    }
    assert deliveries[..|deliveries|] == deliveries;
  }

  /** The match recorded with an achievement does depend on the order of delivery: the first one consumed is
      recorded. */
  method OrderDecidesProof() returns (x: Tables, y: Tables)
    ensures x.Valid() && y.Valid() && x.events == y.events && x.processed == y.processed
    ensures ("ann", FirstGameAny) in x.unlocked && ("ann", FirstGameAny) in y.unlocked
    ensures x.unlocked[("ann", FirstGameAny)] != y.unlocked[("ann", FirstGameAny)]
  {
    var ann := [Participant("ann", User, false, true, 10)];
    var one, two := MatchFinished(CARCASSONNE, "one", true, 1, ann), MatchFinished(CARCASSONNE, "two", true, 2, ann);
    ghost var events := map["e1" := one, "e2" := two];
    x := new Tables(events);
    y := new Tables(events);
    FirstProof(x, "e1", one, "e2", two);
    FirstProof(y, "e2", two, "e1", one);
  }

  /** Of two matches the one consumed first is recorded. */
  method FirstProof(t: Tables, id: Id, m: MatchFinished, later: Id, n: MatchFinished)
    requires t.Valid() && t.processed == {} && id in t.events && t.events[id] == m && later in t.events
    requires t.events[later] == n
    requires m.normal && m.players != [] && m.players[0].kind == User
    modifies t
    ensures t.Valid() && t.processed == {id, later}
    ensures var k := (m.players[0].actor, FirstGameAny); k in t.unlocked && t.unlocked[k] == Proof(m.matchId, m.endedAt)
  {
    var user := m.players[0].actor;
    assert forall k :: k in t.unlocked ==> !Proven(t.events, {}, k.0, k.1, t.unlocked[k]);
    var isNew := t.ApplyMatchFinished(id, m);
    assert t.processed == {id};
    assert Unlocks(t.events[id], t.events[id].players[0], FirstGameAny);
    assert (user, FirstGameAny) in t.unlocked.Keys <==> Unlocked(t.events, t.processed, user, FirstGameAny);
    isNew := t.ApplyMatchFinished(later, n);
  }
}
