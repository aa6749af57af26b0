/** The transactional outbox: leases, crashes and concurrent publishers; nothing is marked published that was not
    sent. */
module Publishing {
  import opened Powers
  import opened Tiles

  datatype Row = Row(topic: Id, createdAt: int, attempts: nat, availableAt: int, lockedUntil: Option<int>,
                     published: bool)

  datatype Copy = Copy(event: Id, topic: Id)

  datatype Claim = Claim(event: Id, topic: Id, attempts: nat)

  /** Where dead letters go, and how many attempts an event has. */
  datatype Policy = Policy(dlq: Id, maxAttempts: int)

  datatype Store = Store(rows: map<Id, Row>, sent: seq<Copy>, now: int)

  // ---------------------------------------------------------------- retries

  /** Seconds to wait before the next attempt. */
  function RetryDelay(attempt: int): nat {
    var a := if attempt < 0 then 0 else if attempt < 8 then attempt else 8;
    if Pow2(a) < 300 then Pow2(a) else 300
  }

  /** The delay doubles with every attempt up to 256 seconds and never shrinks; the bound of five minutes is never
      reached. */
  lemma RetryDelayGrows(a: int, b: int)
    requires a <= b
    ensures 1 <= RetryDelay(a) <= RetryDelay(b) <= 256
    ensures 0 <= a < 8 ==> RetryDelay(a + 1) == 2 * RetryDelay(a)
  {
    var x := if a < 0 then 0 else if a < 8 then a else 8;
    var y := if b < 0 then 0 else if b < 8 then b else 8;
    Pow2Monotonic(x, y);
    Pow2Monotonic(y, 8);
    assert Pow2(8) == 256 by { assert Pow2(4) == 16; assert Pow2(6) == 64; }
    if 0 <= a < 8 { Pow2Monotonic(a + 1, 8); }
  }

  // ---------------------------------------------------------------- what holds

  /** A copy of the event reached its own topic or the dead-letter topic. */
  predicate Delivered(s: Store, dlq: Id, e: Id) {
    e in s.rows && exists i :: 0 <= i < |s.sent| && s.sent[i].event == e && s.sent[i].topic in {s.rows[e].topic, dlq}
  }

  ghost predicate PublishedWasSent(s: Store, dlq: Id, e: Id)
    requires e in s.rows
  {
    s.rows[e].published ==> Delivered(s, dlq, e)
  }

  /** The topic of the copy that the n-th attempt sends. */
  function Target(p: Policy, topic: Id, n: nat): Id {
    if n > p.maxAttempts then p.dlq else topic
  }

  /** The copy was sent on an attempt that was really made, to the topic this attempt asks for. */
  ghost predicate CopyFits(s: Store, p: Policy, c: Copy) {
    c.event in s.rows && exists n: nat ::
        1 <= n <= s.rows[c.event].attempts && c.topic == Target(p, s.rows[c.event].topic, n)
  }

  ghost predicate Safe(s: Store, p: Policy) {
    && (forall e {:trigger PublishedWasSent(s, p.dlq, e)} :: e in s.rows ==> PublishedWasSent(s, p.dlq, e))
    && (forall i :: 0 <= i < |s.sent| ==> CopyFits(s, p, s.sent[i]))
  }

  /** Events are never lost, never unpublished, never moved to another topic, and their attempts only grow. */
  ghost predicate RowLasts(r: Row, q: Row) {
    q.topic == r.topic && (r.published ==> q.published) && r.attempts <= q.attempts
  }

  ghost predicate Evolves(s: Store, t: Store) {
    s.sent <= t.sent && s.now <= t.now && forall e :: e in s.rows ==> e in t.rows && RowLasts(s.rows[e], t.rows[e])
  }

  lemma DeliveredLasts(s: Store, t: Store, dlq: Id, e: Id)
    requires Evolves(s, t) && Delivered(s, dlq, e)
    ensures Delivered(t, dlq, e)
  {
    var i :| 0 <= i < |s.sent| && s.sent[i].event == e && s.sent[i].topic in {s.rows[e].topic, dlq};
    assert t.sent[i] == s.sent[i];
  }

  /** Changes that mark only what was delivered, and send only fitting copies, keep the store safe. */
  lemma StaysSafe(s: Store, t: Store, p: Policy)
    requires Safe(s, p) && Evolves(s, t)
    requires forall e :: e in t.rows && t.rows[e].published ==>
               Delivered(t, p.dlq, e) || (e in s.rows && s.rows[e].published)
    requires forall i :: |s.sent| <= i < |t.sent| ==> CopyFits(t, p, t.sent[i])
    ensures Safe(t, p)
  {
    forall e | e in t.rows
      ensures PublishedWasSent(t, p.dlq, e)
    {
      if e in s.rows && s.rows[e].published {
        assert PublishedWasSent(s, p.dlq, e);
        DeliveredLasts(s, t, p.dlq, e);
      }
    }
    forall i | 0 <= i < |t.sent|
      ensures CopyFits(t, p, t.sent[i])
    {
      if i < |s.sent| {
        assert t.sent[i] == s.sent[i] && CopyFits(s, p, s.sent[i]);
        var n: nat :| 1 <= n <= s.rows[s.sent[i].event].attempts &&
                      s.sent[i].topic == Target(p, s.rows[s.sent[i].event].topic, n);
        assert t.sent[i].topic == Target(p, t.rows[t.sent[i].event].topic, n);
      }
    }
  }

  /** May be claimed: not published, due, and not under somebody's running lease. */
  predicate Ready(r: Row, now: int) {
    !r.published && r.availableAt <= now && (r.lockedUntil.Some? ==> r.lockedUntil.value < now)
  }

  function Leased(r: Row, until: int): Row {
    r.(lockedUntil := Some(until), attempts := r.attempts + 1)
  }

  /** While a lease runs nobody claims the event, and with every claim one more attempt is counted. */
  lemma LeaseExcludes(before: map<Id, Row>, after: map<Id, Row>, now: int, lease: nat, batch: seq<Claim>, c: Claim,
                      later: int)
    requires Claimed(before, after, now, lease, batch) && c in batch && c.event in after
    ensures later <= now + lease ==> !Ready(after[c.event], later)
    ensures later > now + lease ==> Ready(after[c.event], later)
    ensures c.attempts == before[c.event].attempts + 1 && c.topic == before[c.event].topic
  {
    assert after[c.event] == Leased(before[c.event], now + lease);
  }

  /** A claimed event was unpublished, due, and not under a lease that still ran. */
  lemma ClaimedWasReady(before: map<Id, Row>, after: map<Id, Row>, now: int, lease: nat, batch: seq<Claim>, c: Claim)
    requires Claimed(before, after, now, lease, batch) && c in batch
    ensures c.event in before && !before[c.event].published && before[c.event].availableAt <= now
    ensures before[c.event].lockedUntil.Some? ==> before[c.event].lockedUntil.value < now
  {
    assert Ready(before[c.event], now);
  }

  /** A copy goes to the topic of its event as long as the attempts do not exceed the limit, and only then to the dead
      letters. */
  lemma DeadLettersComeLast(s: Store, p: Policy, i: nat)
    requires Safe(s, p) && i < |s.sent|
    ensures s.sent[i].event in s.rows
    ensures s.sent[i].topic in {s.rows[s.sent[i].event].topic, p.dlq}
    ensures s.rows[s.sent[i].event].attempts <= p.maxAttempts ==> s.sent[i].topic == s.rows[s.sent[i].event].topic
  {
    assert CopyFits(s, p, s.sent[i]);
  }

  /** The batch names ready events, each once, and exactly those were leased. */
  ghost predicate Claimed(before: map<Id, Row>, after: map<Id, Row>, now: int, lease: nat, batch: seq<Claim>) {
    && after.Keys == before.Keys
    && (forall c :: c in batch ==>
        c.event in before && Ready(before[c.event], now) && after[c.event] == Leased(before[c.event], now + lease))
    && (forall c :: c in batch ==>
        c.event in after && c == Claim(c.event, after[c.event].topic, after[c.event].attempts))
    && (forall i, j :: 0 <= i < j < |batch| ==> batch[i].event != batch[j].event)
    && (forall e :: e in before && (forall c :: c in batch ==> c.event != e) ==> after[e] == before[e])
  }

  /** The ready events that no other claim holds and the batch does not name yet. */
  ghost predicate Unclaimed(before: map<Id, Row>, now: int, held: set<Id>, batch: seq<Claim>, candidates: set<Id>) {
    forall e :: e in candidates <==>
      e in before && e !in held && Ready(before[e], now) && forall c :: c in batch ==> c.event != e
  }

  /** Nothing in the batch is younger than a candidate. */
  ghost predicate OlderThan(before: map<Id, Row>, batch: seq<Claim>, candidates: set<Id>) {
    forall c, e :: c in batch && e in candidates ==>
        c.event in before && e in before && before[c.event].createdAt <= before[e].createdAt
  }

  /** No ready event that was left out is older than one that was claimed, except those held by other claims. */
  ghost predicate OldestFirst(before: map<Id, Row>, now: int, held: set<Id>, batch: seq<Claim>) {
    forall c, e ::
      c in batch && e in before && e !in held && Ready(before[e], now) && (forall d :: d in batch ==> d.event != e) ==>
      c.event in before && before[c.event].createdAt <= before[e].createdAt
  }

  lemma OlderStep(before: map<Id, Row>, batch: seq<Claim>, candidates: set<Id>, c: Claim)
    requires OlderThan(before, batch, candidates) && c.event in candidates && candidates <= before.Keys
    requires forall e :: e in candidates ==> before[c.event].createdAt <= before[e].createdAt
    ensures OlderThan(before, batch + [c], candidates - {c.event})
  {}

  lemma RestIsYounger(before: map<Id, Row>, now: int, held: set<Id>, batch: seq<Claim>, candidates: set<Id>)
    requires Unclaimed(before, now, held, batch, candidates) && OlderThan(before, batch, candidates)
    ensures OldestFirst(before, now, held, batch)
    ensures candidates == {} ==> forall e :: e in before && e !in held && Ready(before[e], now) ==>
              exists c :: c in batch && c.event == e
  {
    forall e | candidates == {} && e in before && e !in held && Ready(before[e], now)
      ensures exists c :: c in batch && c.event == e
    {
      assert e !in candidates;
    }
  }

  lemma ClaimStep(before: map<Id, Row>, after: map<Id, Row>, now: int, lease: nat, held: set<Id>,
                  batch: seq<Claim>, candidates: set<Id>, e: Id)
    requires Claimed(before, after, now, lease, batch) && Unclaimed(before, now, held, batch, candidates)
    requires e in candidates
    ensures e in after
    ensures var next := Leased(after[e], now + lease);
            && Claimed(before, after[e := next], now, lease, batch + [Claim(e, next.topic, next.attempts)])
            && Unclaimed(before, now, held, batch + [Claim(e, next.topic, next.attempts)], candidates - {e})
  {
    var c := Claim(e, after[e].topic, after[e].attempts + 1);
    assert forall d :: d in batch + [c] <==> d in batch || d == c;
    assert forall i :: 0 <= i < |batch| ==> batch[i] in batch;
  }

  // ---------------------------------------------------------------- the repository and its publishers

  class Outbox {
    const policy: Policy
    var rows: map<Id, Row>
    var sent: seq<Copy>
    var now: int

    function View(): Store
      reads this
    {
      Store(rows, sent, now)
    }

    constructor (dlq: Id, maxAttempts: int)
      ensures Safe(View(), policy) && View() == Store(map[], [], 0)
      ensures policy == Policy(dlq, if maxAttempts <= 0 then 10 else maxAttempts)
    {
      policy := Policy(dlq, if maxAttempts <= 0 then 10 else maxAttempts);
      rows, sent, now := map[], [], 0;
    }

    method Insert(e: Id, topic: Id)
      requires Safe(View(), policy)
      modifies `rows
      ensures Safe(View(), policy) && Evolves(old(View()), View())
      ensures rows == if e in old(rows) then old(rows) else old(rows)[e := Row(topic, now, 0, now, None, false)]
    {
      ghost var s := View();
      if e !in rows {
        rows := rows[e := Row(topic, now, 0, now, None, false)];
      }
      StaysSafe(s, View(), policy);
    }

    /** Takes a lease on up to limit ready events, the oldest ones, in one step; nobody gets an event under a running
        lease. Rows that other claims hold locked at this moment are passed over. */
    method ClaimBatch(limit: nat, lease: nat, held: set<Id>) returns (batch: seq<Claim>)
      requires Safe(View(), policy)
      modifies `rows
      ensures Safe(View(), policy) && Evolves(old(View()), View()) && |batch| <= limit
      ensures Claimed(old(rows), rows, now, lease, batch) && OldestFirst(old(rows), now, held, batch)
      ensures forall c :: c in batch ==> c.event !in held
      ensures |batch| < limit ==> forall e :: e in old(rows) && e !in held && Ready(old(rows)[e], now) ==>
                exists c :: c in batch && c.event == e
    {
      ghost var s := View();
      var rest;
      batch, rest := TakeOldest(limit, lease, held);
      RestIsYounger(s.rows, now, held, batch, rest);
      LeasesLast(s, View(), policy, batch, lease);
    }

    method TakeOldest(limit: nat, lease: nat, held: set<Id>) returns (batch: seq<Claim>, candidates: set<Id>)
      modifies `rows
      ensures |batch| <= limit && Claimed(old(rows), rows, now, lease, batch)
      ensures Unclaimed(old(rows), now, held, batch, candidates) && OlderThan(old(rows), batch, candidates)
      ensures (|batch| < limit ==> candidates == {}) && forall c :: c in batch ==> c.event !in held
    {
      ghost var before := rows;
      batch := [];
      candidates := set e | e in rows && e !in held && Ready(rows[e], now);
      while |batch| < limit && candidates != {}
        invariant |batch| <= limit && Claimed(before, rows, now, lease, batch)
        invariant Unclaimed(before, now, held, batch, candidates) && OlderThan(before, batch, candidates)
        invariant forall c :: c in batch ==> c.event !in held
        decreases candidates
      {
        var e := Oldest(candidates);
        var c := Lease(e, lease, held, before, batch, candidates);
        OlderStep(before, batch, candidates, c);
        batch := batch + [c];
        candidates := candidates - {e};
      }
    }

    /** An event that was stored no later than any of the others. */
    method Oldest(events: set<Id>) returns (first: Id)
      requires events != {} && events <= rows.Keys
      ensures first in events && forall e :: e in events ==> rows[first].createdAt <= rows[e].createdAt
    {
      first :| first in events;
      var todo := events - {first};
      while todo != {}
        invariant first in events && todo <= events
        invariant forall e :: e in events - todo ==> rows[first].createdAt <= rows[e].createdAt
        decreases todo
      {
        var e :| e in todo;
        if rows[e].createdAt < rows[first].createdAt {
          first := e;
        }
        todo := todo - {e};
      }
    }

    method Lease(e: Id, lease: nat, ghost held: set<Id>, ghost before: map<Id, Row>, ghost batch: seq<Claim>,
                 ghost candidates: set<Id>)
      returns (c: Claim)
      requires Claimed(before, rows, now, lease, batch) && Unclaimed(before, now, held, batch, candidates)
      requires e in candidates
      modifies `rows
      ensures Claimed(before, rows, now, lease, batch + [c])
      ensures Unclaimed(before, now, held, batch + [c], candidates - {e})
      ensures c.event == e
    {
      ClaimStep(before, rows, now, lease, held, batch, candidates, e);
      rows := rows[e := Leased(rows[e], now + lease)];
      c := Claim(e, rows[e].topic, rows[e].attempts);
    }

    method MarkPublished(e: Id)
      requires Safe(View(), policy) && Delivered(View(), policy.dlq, e)
      modifies `rows
      ensures Safe(View(), policy) && Evolves(old(View()), View())
      ensures e in rows && rows == if old(rows)[e].published then old(rows)
                else old(rows)[e := old(rows)[e].(published := true, lockedUntil := None)]
    {
      ghost var s := View();
      if e in rows && !rows[e].published {
        rows := rows[e := rows[e].(published := true, lockedUntil := None)];
      }
      DeliveredLasts(s, View(), policy.dlq, e);
      StaysSafe(s, View(), policy);
    }

    method MarkFailed(e: Id, retryAfter: nat)
      requires Safe(View(), policy)
      modifies `rows
      ensures Safe(View(), policy) && Evolves(old(View()), View())
      ensures rows == if e !in old(rows) || old(rows)[e].published then old(rows)
                      else old(rows)[e := old(rows)[e].(lockedUntil := None, availableAt := now + retryAfter)]
    {
      ghost var s := View();
      if e in rows && !rows[e].published {
        rows := rows[e := rows[e].(lockedUntil := None, availableAt := now + retryAfter)];
      }
      StaysSafe(s, View(), policy);
    }

    /** Hands one copy to the broker. A reported failure may still have delivered it. */
    method Publish(c: Copy) returns (ok: bool)
      requires Safe(View(), policy) && CopyFits(View(), policy, c)
      modifies `sent
      ensures Safe(View(), policy) && Evolves(old(View()), View())
      ensures ok ==> sent == old(sent) + [c]
      ensures sent == old(sent) || sent == old(sent) + [c]
    {
      ghost var s := View();
      var reached: bool, reported: bool := *, *;
      if reached {
        sent := sent + [c];
      }
      ok := reached && reported;
      StaysSafe(s, View(), policy);
    }

    /** Other publishers, new events and the clock. */
    method Others()
      requires Safe(View(), policy)
      modifies this
      ensures Safe(View(), policy) && Evolves(old(View()), View())
    {
      ghost var s := View();
      var n: int := *;
      for i := 0 to if n < 0 then 0 else n
        invariant Safe(View(), policy) && Evolves(s, View())
      {
        ghost var mid := View();
        OneOther();
        Lasts(s, mid, View());
      }
    }

    method OneOther()
      requires Safe(View(), policy)
      modifies this
      ensures Safe(View(), policy) && Evolves(old(View()), View())
    {
      ghost var s := View();
      var pick: int, e: Id, topic: Id, n: nat, held: set<Id> := *, *, *, *, *;
      if pick == 0 {
        Insert(e, topic);
      } else if pick == 1 {
        var batch := ClaimBatch(n, n, held);
      } else if pick == 2 {
        if e in rows && 1 <= n <= rows[e].attempts {
          var ok := Publish(Copy(e, Target(policy, rows[e].topic, n)));
        }
      } else if pick == 3 {
        if Delivered(View(), policy.dlq, e) {
          MarkPublished(e);
        }
      } else if pick == 4 {
        MarkFailed(e, n);
      } else {
        now := now + n;
        StaysSafe(s, View(), policy);
      }
    }

    /** One round of one publisher: what it reports as published is published. */
    method PublishBatch(limit: nat, lease: nat) returns (published: seq<Id>)
      requires Safe(View(), policy)
      modifies this
      ensures Safe(View(), policy) && Evolves(old(View()), View())
      ensures forall e :: e in published ==> e in rows && rows[e].published && Delivered(View(), policy.dlq, e)
    {
      ghost var s := View();
      published := [];
      var held: set<Id> := *;
      var batch := ClaimBatch(limit, lease, held);
      for i := 0 to |batch|
        invariant Safe(View(), policy) && Evolves(s, View())
        invariant forall c :: c in batch ==>
                    c.event in rows && rows[c.event].topic == c.topic && 1 <= c.attempts <= rows[c.event].attempts
        invariant forall e :: e in published ==> e in rows && rows[e].published
      {
        ghost var mid := View();
        assert batch[i] in batch;
        var goOn, ok := PublishOne(batch[i]);
        Lasts(s, mid, View());
        if !goOn {
          break;
        }
        if ok {
          published := published + [batch[i].event];
        }
      }
      forall e | e in published
        ensures Delivered(View(), policy.dlq, e)
      {
        assert PublishedWasSent(View(), policy.dlq, e);
      }
    }

    /** One event of the batch. The publisher may crash between any two steps; it marks the event only after its copy
        went out, and gives it back with a delay if sending failed. */
    method PublishOne(c: Claim) returns (goOn: bool, ok: bool)
      requires Safe(View(), policy) && c.event in rows && rows[c.event].topic == c.topic
      requires 1 <= c.attempts <= rows[c.event].attempts
      modifies this
      ensures Safe(View(), policy) && Evolves(old(View()), View()) && c.event in rows
      ensures goOn && ok ==> rows[c.event].published
      ensures goOn && ok ==>
                exists i :: |old(sent)| <= i < |sent| &&
                            sent[i] == Copy(c.event, if c.attempts <= policy.maxAttempts then c.topic else policy.dlq)
      ensures goOn && !ok && !rows[c.event].published ==>
                rows[c.event].lockedUntil == None && rows[c.event].availableAt == now + RetryDelay(c.attempts)
    {
      ghost var s := View();
      Others();
      goOn, ok := false, false;
      var crashed: bool := *;
      if crashed {
        return;
      }
      ghost var s1 := View();
      ok := SendCopy(c);
      Lasts(s, s1, View());
      var broken: bool := *;
      if broken {
        return;
      }
      ghost var s2 := View();
      if ok {
        MarkPublished(c.event);
      } else {
        MarkFailed(c.event, RetryDelay(c.attempts));
      }
      Lasts(s, s2, View());
      assert old(sent) <= s1.sent;
      goOn := true;
    }

    /** Hands over the copy this attempt asks for; then others may act. */
    method SendCopy(c: Claim) returns (ok: bool)
      requires Safe(View(), policy) && c.event in rows && rows[c.event].topic == c.topic
      requires 1 <= c.attempts <= rows[c.event].attempts
      modifies this
      ensures Safe(View(), policy) && Evolves(old(View()), View()) && c.event in rows
      ensures ok ==> Delivered(View(), policy.dlq, c.event)
      ensures ok ==> exists i ::
                |old(sent)| <= i < |sent| &&
                sent[i] == Copy(c.event, if c.attempts <= policy.maxAttempts then c.topic else policy.dlq)
    {
      ghost var s := View();
      var copy := Copy(c.event, if c.attempts > policy.maxAttempts then policy.dlq else c.topic);
      assert copy.topic == Target(policy, rows[c.event].topic, c.attempts);
      ok := Publish(copy);
      ghost var at := |sent| - 1;
      ghost var t := View();
      assert ok ==> sent[at] == copy && Delivered(t, policy.dlq, c.event);
      Others();
      Lasts(s, t, View());
      if ok {
        DeliveredLasts(t, View(), policy.dlq, c.event);
        assert sent[at] == copy;
      }
    }
  }

  lemma Lasts(s: Store, t: Store, u: Store)
    requires Evolves(s, t) && Evolves(t, u)
    ensures Evolves(s, u)
  {}

  lemma LeasesLast(s: Store, t: Store, p: Policy, batch: seq<Claim>, lease: nat)
    requires Safe(s, p) && t.sent == s.sent && t.now == s.now && Claimed(s.rows, t.rows, s.now, lease, batch)
    ensures Safe(t, p) && Evolves(s, t)
  {
    forall e | e in s.rows
      ensures RowLasts(s.rows[e], t.rows[e]) && t.rows[e].published == s.rows[e].published
    {
      if c :| c in batch && c.event == e {
        assert t.rows[e] == Leased(s.rows[e], s.now + lease);
      }
    }
    StaysSafe(s, t, p);
  }
}
