/** Meeples on the board, their weights, and the players' hands and scores. */
module Pieces {
  import opened Tiles
  import opened Topology

  datatype MeepleType = Blank | Regular | Big | OtherType(name: string)

  /** Unknown type names become blank, and blank counts as regular wherever a type is used. */
  function NormalizeMeepleType(t: MeepleType): MeepleType {
    match t
    case Blank | Regular => Regular
    case Big => Big
    case OtherType(_) => Blank
  }

  predicate CountsAsBig(t: MeepleType) {
    NormalizeMeepleType(t) == Big
  }

  datatype Meeple = Meeple(tile: Id, zone: Id, actor: Id, kind: MeepleType, feature: Kind, segment: Segment) {
    function Ref(): ZoneRef { ZoneRef(tile, zone) }
    function Weight(): nat { if CountsAsBig(kind) then 2 else 1 }
  }

  function WeightOn(ms: seq<Meeple>, zones: set<ZoneRef>, actor: Id): nat {
    if ms == [] then 0
    else WeightOn(ms[..|ms| - 1], zones, actor)
         + (var m := ms[|ms| - 1]; if m.Ref() in zones && m.actor == actor then m.Weight() else 0)
  }

  function ActorsOn(ms: seq<Meeple>, zones: set<ZoneRef>): set<Id> {
    set m | m in ms && m.Ref() in zones :: m.actor
  }

  predicate Occupied(ms: seq<Meeple>, zones: set<ZoneRef>) {
    exists m :: m in ms && m.Ref() in zones
  }

  /** The actors holding the largest positive weight on a set of zones. */
  ghost predicate IsWinner(ms: seq<Meeple>, zones: set<ZoneRef>, actor: Id) {
    actor in ActorsOn(ms, zones) && forall a :: a in ActorsOn(ms, zones) ==>
        WeightOn(ms, zones, a) <= WeightOn(ms, zones, actor)
  }

  ghost function Winners(ms: seq<Meeple>, zones: set<ZoneRef>): set<Id> {
    set a | a in ActorsOn(ms, zones) && IsWinner(ms, zones, a)
  }

  lemma {:induction false} WeightPositive(ms: seq<Meeple>, zones: set<ZoneRef>, actor: Id)
    ensures 0 < WeightOn(ms, zones, actor) <==> actor in ActorsOn(ms, zones)
  {
    if ms != [] {
      var init, m := ms[..|ms| - 1], ms[|ms| - 1];
      WeightPositive(init, zones, actor);
      assert ms == init + [m];
      if actor in ActorsOn(ms, zones) {
        var k :| k in ms && k.Ref() in zones && k.actor == actor;
        if k in init { assert actor in ActorsOn(init, zones); }
      }
      if actor in ActorsOn(init, zones) {
        var k :| k in init && k.Ref() in zones && k.actor == actor;
        assert k in ms;
      }
    }
  }

  lemma OnSnoc(ms: seq<Meeple>, m: Meeple, zones: set<ZoneRef>)
    ensures ActorsOn(ms + [m], zones) == ActorsOn(ms, zones) + (if m.Ref() in zones then {m.actor} else {})
    ensures forall a ::
              WeightOn(ms + [m], zones, a) ==
              WeightOn(ms, zones, a) + (if m.Ref() in zones && m.actor == a then m.Weight() else 0)
  {
    assert (ms + [m])[..|ms|] == ms;
  }

  lemma {:induction false} WeightSplits(ms: seq<Meeple>, y: set<ZoneRef>, z: set<ZoneRef>, actor: Id)
    requires y !! z
    ensures WeightOn(ms, y + z, actor) == WeightOn(ms, y, actor) + WeightOn(ms, z, actor)
  {
    if ms != [] { WeightSplits(ms[..|ms| - 1], y, z, actor); }
  }

  // ---------------------------------------------------------------- players

  datatype Player = Player(actor: Id, seat: nat, score: int, meeples: int, bigMeeples: int)

  function IndexOf(players: seq<Player>, actor: Id): (i: nat)
    ensures i <= |players|
    ensures i < |players| ==> players[i].actor == actor
    ensures forall k :: 0 <= k < i ==> players[k].actor != actor
  {
    if players == [] || players[0].actor == actor then 0 else 1 + IndexOf(players[1..], actor)
  }

  predicate IsPlayer(players: seq<Player>, actor: Id) {
    exists i :: 0 <= i < |players| && players[i].actor == actor
  }

  ghost predicate DistinctActors(players: seq<Player>) {
    forall i, j :: 0 <= i < j < |players| ==> players[i].actor != players[j].actor
  }

  function AddScore(players: seq<Player>, winners: set<Id>, points: int): (r: seq<Player>)
    ensures |r| == |players|
  {
    seq(|players|, i requires 0 <= i < |players| =>
      if players[i].actor in winners then players[i].(score := players[i].score + points) else players[i])
  }

  /** Changes the counter of one kind of meeple in the hand of the first player with this id. */
  function ChangeHand(players: seq<Player>, actor: Id, kind: MeepleType, change: int): (r: seq<Player>)
    ensures |r| == |players|
  {
    var i := IndexOf(players, actor);
    if i == |players| then players
    else if CountsAsBig(kind) then players[i := players[i].(bigMeeples := players[i].bigMeeples + change)]
    else players[i := players[i].(meeples := players[i].meeples + change)]
  }

  function HandCount(p: Player, big: bool): int {
    if big then p.bigMeeples else p.meeples
  }

  function CountOf(ms: seq<Meeple>, actor: Id, big: bool): nat {
    if ms == [] then 0
    else CountOf(ms[..|ms| - 1], actor, big)
         + (var m := ms[|ms| - 1]; if m.actor == actor && CountsAsBig(m.kind) == big then 1 else 0)
  }

  /** The hands after the given meeples went back to their owners. */
  function GiveBack(players: seq<Player>, ms: seq<Meeple>): (r: seq<Player>)
    ensures |r| == |players|
  {
    if ms == [] then players
    else
      var m := ms[|ms| - 1];
      ChangeHand(GiveBack(players, ms[..|ms| - 1]), m.actor, m.kind, 1)
  }

  /** The list without the meeples on the given zones, in order. */
  function Remaining(ms: seq<Meeple>, zones: set<ZoneRef>): seq<Meeple> {
    if ms == [] then []
    else
      var m := ms[|ms| - 1];
      Remaining(ms[..|ms| - 1], zones) + (if m.Ref() in zones then [] else [m])
  }

  /** The meeples on the given zones, in order. */
  function Taken(ms: seq<Meeple>, zones: set<ZoneRef>): seq<Meeple> {
    if ms == [] then []
    else
      var m := ms[|ms| - 1];
      Taken(ms[..|ms| - 1], zones) + (if m.Ref() in zones then [m] else [])
  }

  lemma {:induction false} Splits(ms: seq<Meeple>, zones: set<ZoneRef>)
    ensures multiset(ms) == multiset(Remaining(ms, zones)) + multiset(Taken(ms, zones))
    ensures forall m :: m in Remaining(ms, zones) <==> m in ms && m.Ref() !in zones
    ensures forall m :: m in Taken(ms, zones) <==> m in ms && m.Ref() in zones
  {
    if ms != [] {
      var init, m := ms[..|ms| - 1], ms[|ms| - 1];
      Splits(init, zones);
      assert ms == init + [m];
    }
  }

  lemma CountSnoc(ms: seq<Meeple>, m: Meeple, actor: Id, big: bool)
    ensures CountOf(ms + [m], actor, big) == CountOf(ms, actor, big) + (if m.actor == actor &&
                                                                        CountsAsBig(m.kind) == big then 1 else 0)
  {
    assert (ms + [m])[..|ms|] == ms;
  }

  lemma {:induction false} CountSplits(ms: seq<Meeple>, zones: set<ZoneRef>, actor: Id, big: bool)
    ensures CountOf(ms, actor, big) == CountOf(Remaining(ms, zones), actor, big) + CountOf(Taken(ms, zones), actor, big)
  {
    if ms != [] {
      var init, m := ms[..|ms| - 1], ms[|ms| - 1];
      CountSplits(init, zones, actor, big);
      CountSnoc(Remaining(init, zones), m, actor, big);
      CountSnoc(Taken(init, zones), m, actor, big);
      assert m.Ref() in zones ==> Remaining(ms, zones) == Remaining(init, zones);
      assert m.Ref() !in zones ==> Taken(ms, zones) == Taken(init, zones);
    }
  }

  /** Taking nothing changes nothing. */
  lemma {:induction false} NothingTaken(ms: seq<Meeple>, zones: set<ZoneRef>)
    requires !Occupied(ms, zones)
    ensures Remaining(ms, zones) == ms && Taken(ms, zones) == []
  {
    if ms != [] {
      assert ms[|ms| - 1] in ms;
      NothingTaken(ms[..|ms| - 1], zones);
    }
  }

  lemma ChangeCounts(players: seq<Player>, m: Meeple, i: nat, big: bool)
    requires DistinctActors(players) && i < |players|
    ensures var r := ChangeHand(players, m.actor, m.kind, 1);
            && DistinctActors(r) && r[i].actor == players[i].actor && r[i].score == players[i].score &&
               r[i].seat == players[i].seat
            && HandCount(r[i], big) == HandCount(players[i], big) + (if m.actor == players[i].actor &&
                                                                     CountsAsBig(m.kind) == big then 1 else 0)
  {
    if m.actor == players[i].actor {
      assert IndexOf(players, m.actor) == i;
    }
  }

  /** Giving meeples back adds each to exactly one counter of its owner and touches nothing else. */
  lemma {:induction false} GiveBackCounts(players: seq<Player>, ms: seq<Meeple>, i: nat, big: bool)
    requires DistinctActors(players) && i < |players|
    ensures var r := GiveBack(players, ms);
            && r[i].actor == players[i].actor && r[i].score == players[i].score && r[i].seat == players[i].seat
            && HandCount(r[i], big) == HandCount(players[i], big) + CountOf(ms, players[i].actor, big)
    ensures DistinctActors(GiveBack(players, ms))
  {
    if ms != [] {
      GiveBackCounts(players, ms[..|ms| - 1], i, big);
      ChangeCounts(GiveBack(players, ms[..|ms| - 1]), ms[|ms| - 1], i, big);
    }
  }

  /** Scores and returned meeples do not influence each other. */
  lemma {:induction false} GiveBackKeepsActors(players: seq<Player>, ms: seq<Meeple>, i: nat)
    requires i < |players|
    ensures GiveBack(players, ms)[i].actor == players[i].actor && GiveBack(players, ms)[i].score == players[i].score
  {
    if ms != [] {
      GiveBackKeepsActors(players, ms[..|ms| - 1], i);
    }
  }

  lemma TakenSnoc(ms: seq<Meeple>, m: Meeple, zones: set<ZoneRef>)
    ensures Taken(ms + [m], zones) == if m.Ref() in zones then Taken(ms, zones) + [m] else Taken(ms, zones)
    ensures Remaining(ms + [m], zones) == if m.Ref() in zones then Remaining(ms, zones) else Remaining(ms, zones) + [m]
  {
    assert (ms + [m])[..|ms|] == ms;
  }

  /** A regular meeple counts once and a big one twice. */
  lemma {:induction false} WeightIsCount(ms: seq<Meeple>, zones: set<ZoneRef>, actor: Id)
    ensures WeightOn(ms, zones, actor) ==
            CountOf(Taken(ms, zones), actor, false) + 2 * CountOf(Taken(ms, zones), actor, true)
  {
    if ms != [] {
      var init, m := ms[..|ms| - 1], ms[|ms| - 1];
      WeightIsCount(init, zones, actor);
      assert ms == init + [m];
      TakenSnoc(init, m, zones);
      CountSnoc(Taken(init, zones), m, actor, false);
      CountSnoc(Taken(init, zones), m, actor, true);
    }
  }

  /** A type with another name than that of the big meeple is counted as regular. */
  lemma OnlyBigIsBig(kind: MeepleType)
    ensures CountsAsBig(kind) <==> kind == Big
    ensures CountsAsBig(NormalizeMeepleType(kind)) <==> kind == Big
  {}

  /** A winner has a meeple there, and nobody weighs more. */
  lemma WinnerWeighsMost(ms: seq<Meeple>, zones: set<ZoneRef>, winner: Id, actor: Id)
    requires winner in Winners(ms, zones)
    ensures 0 < WeightOn(ms, zones, winner) && WeightOn(ms, zones, actor) <= WeightOn(ms, zones, winner)
    ensures WeightOn(ms, zones, actor) == WeightOn(ms, zones, winner) ==> actor in Winners(ms, zones)
  {
    WeightPositive(ms, zones, winner);
    WeightPositive(ms, zones, actor);
  }
}
