/** Updates in place: scores, meeple counters, and the compaction of the list of placed meeples. */
module Hands {
  import opened Tiles
  import opened Topology
  import opened Pieces
  import opened FeatureGraph

  method ApplyScore(players: array<Player>, winners: set<Id>, points: int)
    modifies players
    ensures players[..] == AddScore(old(players[..]), winners, points)
  {
    for i := 0 to players.Length
      invariant forall k :: 0 <= k < i ==> players[k] == AddScore(old(players[..]), winners, points)[k]
      invariant forall k :: i <= k < players.Length ==> players[k] == old(players[k])
    {
      if players[i].actor in winners {
        players[i] := players[i].(score := players[i].score + points);
      }
    }
  }

  /** Changes one counter of the first player with the given id. */
  method ChangeMeeples(players: array<Player>, actor: Id, kind: MeepleType, change: int)
    modifies players
    ensures players[..] == ChangeHand(old(players[..]), actor, kind, change)
  {
    ghost var was := players[..];
    for i := 0 to players.Length
      invariant players[..] == was
      invariant forall k :: 0 <= k < i ==> players[k].actor != actor
    {
      if players[i].actor == actor {
        assert IndexOf(was, actor) == i;
        if CountsAsBig(kind) {
          players[i] := players[i].(bigMeeples := players[i].bigMeeples + change);
        } else {
          players[i] := players[i].(meeples := players[i].meeples + change);
        }
        return;
      }
    }
    assert IndexOf(was, actor) == |was|;
  }

  /** The first i meeples are sorted out: the kept ones at the front, the returned ones back in hand, the rest
      unread. */
  ghost predicate Compacting(was: seq<Meeple>, hands: seq<Player>, zones: set<ZoneRef>, i: nat, front: seq<Meeple>,
                             rest: seq<Meeple>, now: seq<Player>)
    requires i <= |was|
  {
    front == Remaining(was[..i], zones) && rest == was[i..] && now == GiveBack(hands, Taken(was[..i], zones))
  }

  lemma FilterStep(was: seq<Meeple>, i: nat, zones: set<ZoneRef>, hands: seq<Player>)
    requires i < |was|
    ensures was[i].Ref() in zones ==>
              && Remaining(was[..i + 1], zones) == Remaining(was[..i], zones)
              && GiveBack(hands, Taken(was[..i + 1], zones)) == ChangeHand(GiveBack(hands, Taken(was[..i], zones)),
                  was[i].actor, was[i].kind, 1)
    ensures was[i].Ref() !in zones ==>
              && Remaining(was[..i + 1], zones) == Remaining(was[..i], zones) + [was[i]]
              && Taken(was[..i + 1], zones) == Taken(was[..i], zones)
  {
    assert was[..i + 1][..i] == was[..i];
    var t := Taken(was[..i], zones) + [was[i]];
    assert t[..|t| - 1] == Taken(was[..i], zones);
  }

  lemma CompactingStep(was: seq<Meeple>, hands: seq<Player>, zones: set<ZoneRef>, i: nat, front: seq<Meeple>,
                       rest: seq<Meeple>, now: seq<Player>)
    requires i < |was| && Compacting(was, hands, zones, i, front, rest, now)
    ensures rest != [] && rest[0] == was[i]
    ensures rest[0].Ref() in zones ==>
              Compacting(was, hands, zones, i + 1, front, rest[1..], ChangeHand(now, rest[0].actor, rest[0].kind, 1))
    ensures rest[0].Ref() !in zones ==> Compacting(was, hands, zones, i + 1, front + [rest[0]], rest[1..], now)
  {
    FilterStep(was, i, zones, hands);
    assert was[i..][1..] == was[i + 1..];
  }

  /** Moves one meeple down over the gap left by returned ones. */
  method Keep(slots: array<Meeple>, kept: nat, i: nat, used: nat)
    requires kept <= i < used <= slots.Length
    modifies slots
    ensures slots[..kept + 1] == old(slots[..kept]) + [old(slots[i])]
    ensures slots[i + 1..used] == old(slots[i..used])[1..]
  {
    slots[kept] := slots[i];
  }

  /** Gives the meeples on the zones back and closes the gaps, keeping the order of the others. */
  method ReturnMeeplesForFeature(slots: array<Meeple>, used: nat, players: array<Player>, zones: seq<ZoneRef>,
                                 ghost members: set<ZoneRef>) returns (kept: nat)
    requires used <= slots.Length && Lists(zones, members)
    modifies slots, players
    ensures kept <= used && slots[..kept] == Remaining(old(slots[..used]), members)
    ensures players[..] == GiveBack(old(players[..]), Taken(old(slots[..used]), members))
  {
    ghost var was, hands := slots[..used], players[..];
    kept := 0;
    for i := 0 to used
      invariant kept <= i
      invariant Compacting(was, hands, members, i, slots[..kept], slots[i..used], players[..])
    {
      CompactingStep(was, hands, members, i, slots[..kept], slots[i..used], players[..]);
      var m := slots[i];
      if m.Ref() in zones {
        assert slots[i..used][1..] == slots[i + 1..used];
        ChangeMeeples(players, m.actor, m.kind, 1);
      } else {
        Keep(slots, kept, i, used);
        kept := kept + 1;
      }
    }
    assert was[..used] == was;
  }

  /** All meeples on one zone belong to one player. */
  ghost predicate OneOwner(ms: seq<Meeple>, ref: ZoneRef, actor: Id) {
    forall m :: m in ms && m.Ref() == ref ==> m.actor == actor
  }

  lemma OnlyOwner(ms: seq<Meeple>, m: Meeple)
    requires m in ms && forall i, j :: 0 <= i < j < |ms| ==> ms[i].tile != ms[j].tile
    ensures OneOwner(ms, m.Ref(), m.actor)
  {
    var i :| 0 <= i < |ms| && ms[i] == m;
    forall k | k in ms && k.Ref() == m.Ref()
      ensures k.actor == m.actor
    {
      var j :| 0 <= j < |ms| && ms[j] == k;
      assert i == j;
    }
  }

  /** The meeples of one player on one zone, in order. */
  function Own(ms: seq<Meeple>, ref: ZoneRef, actor: Id): seq<Meeple> {
    if ms == [] then []
    else
      var m := ms[|ms| - 1];
      Own(ms[..|ms| - 1], ref, actor) + (if m.Ref() == ref && m.actor == actor then [m] else [])
  }

  /** All other meeples, in order. */
  function Foreign(ms: seq<Meeple>, ref: ZoneRef, actor: Id): seq<Meeple> {
    if ms == [] then []
    else
      var m := ms[|ms| - 1];
      Foreign(ms[..|ms| - 1], ref, actor) + (if m.Ref() == ref && m.actor == actor then [] else [m])
  }

  /** Where one player owns all meeples of a zone, taking that player's meeples takes all of them. */
  lemma {:induction false} OwnIsTaken(ms: seq<Meeple>, ref: ZoneRef, actor: Id)
    requires OneOwner(ms, ref, actor)
    ensures Own(ms, ref, actor) == Taken(ms, {ref}) && Foreign(ms, ref, actor) == Remaining(ms, {ref})
  {
    if ms != [] {
      assert ms[|ms| - 1] in ms;
      OwnIsTaken(ms[..|ms| - 1], ref, actor);
    }
  }

  /** The two lists together hold every meeple, and exactly the player's own ones on the zone are in the first. */
  lemma {:induction false} OwnSplits(ms: seq<Meeple>, ref: ZoneRef, actor: Id)
    ensures multiset(ms) == multiset(Own(ms, ref, actor)) + multiset(Foreign(ms, ref, actor))
  {
    if ms != [] {
      var init, m := ms[..|ms| - 1], ms[|ms| - 1];
      OwnSplits(init, ref, actor);
      assert ms == init + [m];
    }
  }

  lemma {:induction false} OwnMembers(ms: seq<Meeple>, ref: ZoneRef, actor: Id)
    ensures forall m :: m in Own(ms, ref, actor) <==> m in ms && m.Ref() == ref && m.actor == actor
    ensures forall m :: m in Foreign(ms, ref, actor) <==> m in ms && !(m.Ref() == ref && m.actor == actor)
  {
    if ms != [] {
      OwnMembers(ms[..|ms| - 1], ref, actor);
      assert ms == ms[..|ms| - 1] + [ms[|ms| - 1]];
    }
  }

  lemma OwnStep(was: seq<Meeple>, i: nat, ref: ZoneRef, actor: Id, hands: seq<Player>)
    requires i < |was|
    ensures var mine := was[i].Ref() == ref && was[i].actor == actor;
            && Foreign(was[..i + 1], ref, actor) == Foreign(was[..i], ref, actor) + (if mine then [] else [was[i]])
            && GiveBack(hands, Own(was[..i + 1], ref, actor)) ==
               if mine then ChangeHand(GiveBack(hands, Own(was[..i], ref, actor)), was[i].actor, was[i].kind, 1)
               else GiveBack(hands, Own(was[..i], ref, actor))
  {
    assert was[..i + 1][..i] == was[..i];
    if was[i].Ref() == ref && was[i].actor == actor {
      var t := Own(was[..i], ref, actor) + [was[i]];
      assert t[..|t| - 1] == Own(was[..i], ref, actor);
      assert Own(was[..i + 1], ref, actor) == t;
    } else {
      assert Own(was[..i + 1], ref, actor) == Own(was[..i], ref, actor);
    }
  }

  /** Gives the meeples of one player on one zone back; other players' meeples on it stay. */
  method ReturnMeeple(slots: array<Meeple>, used: nat, players: array<Player>, ref: ZoneRef, actor: Id)
    returns (kept: nat)
    requires used <= slots.Length
    modifies slots, players
    ensures kept <= used && slots[..kept] == Foreign(old(slots[..used]), ref, actor)
    ensures players[..] == GiveBack(old(players[..]), Own(old(slots[..used]), ref, actor))
  {
    ghost var was, hands := slots[..used], players[..];
    kept := 0;
    for i := 0 to used
      invariant kept <= i && slots[..kept] == Foreign(was[..i], ref, actor) && slots[i..used] == was[i..]
      invariant players[..] == GiveBack(hands, Own(was[..i], ref, actor))
    {
      OwnStep(was, i, ref, actor, hands);
      var m := slots[i];
      assert m == slots[i..used][0] == was[i] && was[i..][1..] == was[i + 1..];
      if m.Ref() == ref && m.actor == actor {
        assert slots[i..used][1..] == slots[i + 1..used];
        ChangeMeeples(players, actor, m.kind, 1);
      } else {
        Keep(slots, kept, i, used);
        kept := kept + 1;
      }
    }
    assert was[..used] == was;
  }

  method ReturnAllMeeples(slots: array<Meeple>, used: nat, players: array<Player>)
    requires used <= slots.Length
    modifies players
    ensures players[..] == GiveBack(old(players[..]), slots[..used])
  {
    ghost var was, hands := slots[..used], players[..];
    for i := 0 to used
      invariant players[..] == GiveBack(hands, was[..i])
    {
      assert was[..i + 1][..i] == was[..i];
      ChangeMeeples(players, slots[i].actor, slots[i].kind, 1);
    }
    assert was[..used] == was;
  }
}
