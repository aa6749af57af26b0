/** Turn timers: one entry per room, which only moves forward and never moves its deadline within a turn. */
module TurnTimers {
  import opened Tiles

  datatype TurnKey = TurnKey(game: Id, turn: int, player: Id)

  /** createdAt is zero when the creation time of the match could not be read. */
  datatype Entry = Entry(key: TurnKey, version: int, createdAt: nat, deadline: int)

  /** What a match response says about the turn: active is false unless somebody has to move. */
  datatype Snapshot = Snapshot(room: Id, game: Id, createdAt: nat, active: bool, version: int, turn: int, player: Id,
                               seconds: nat, startedAt: Option<int>)
  {
    /** Somebody has to move, and turns are limited. */
    predicate Timed() {
      active && seconds != 0
    }
  }

  function KeyOf(s: Snapshot): TurnKey {
    TurnKey(s.game, s.turn, s.player)
  }

  /** The turn started when the state says so, or now if that cannot be read. */
  function Deadline(s: Snapshot, now: int): int {
    (if s.startedAt.Some? then s.startedAt.value else now) + s.seconds
  }

  /** A snapshot of another match that is not newer, or of an older version of the same match, is ignored. */
  predicate Stale(e: Entry, s: Snapshot) {
    || (e.key.game != s.game && e.createdAt != 0 && (s.createdAt == 0 || s.createdAt <= e.createdAt))
    || (e.key.game == s.game && e.version > s.version)
  }

  class Timers {
    var entries: map<Id, Entry>

    constructor ()
      ensures entries == map[]
    {
      entries := map[];
    }

    /** Takes notice of what a match response says about the turn. Other rooms keep their entries. The room's entry
        stays for a late response, goes when nobody of its match has to move, and otherwise says when this turn ends: a
        turn of a player that is timed already keeps its deadline. */
    method Schedule(s: Snapshot, now: int)
      modifies this
      ensures OthersKept(old(entries), entries, s.room)
      ensures s.Timed() ==>
                if s.room in old(entries) && Stale(old(entries)[s.room], s) then entries == old(entries)
                else s.room in entries && entries[s.room].key == KeyOf(s) && entries[s.room].version == s.version &&
                     entries[s.room].createdAt == s.createdAt
      ensures s.room in old(entries) && s.room in entries && entries[s.room].key == old(entries)[s.room].key ==>
                entries[s.room].deadline == old(entries)[s.room].deadline
      ensures s.Timed() && s.room in entries && entries != old(entries) &&
              (s.room !in old(entries) || old(entries)[s.room].key != KeyOf(s)) ==>
                entries[s.room].deadline == Deadline(s, now)
      ensures !s.Timed() ==> forall r :: r in entries ==>
                r in old(entries) && (r == s.room && r != "" && s.game != "" ==> entries[r].key.game != s.game)
      ensures entries == Scheduled(old(entries), s, now)
    {
      if !s.active || s.seconds == 0 {
        StopMatch(s.room, s.game);
        return;
      }
      var key := KeyOf(s);
      var deadline := Deadline(s, now);
      if s.room in entries {
        var existing := entries[s.room];
        if existing.key.game != key.game && existing.createdAt != 0 &&
           (s.createdAt == 0 || s.createdAt <= existing.createdAt)
        {
          return;
        }
        if existing.key.game == key.game && existing.version > s.version {
          return;
        }
        if existing.key == key {
          deadline := existing.deadline;
        }
      }
      entries := entries[s.room := Entry(key, s.version, s.createdAt, deadline)];
    }

    /** No entry of the match is left in the room; every other entry stays. */
    method StopMatch(room: Id, game: Id)
      modifies this
      ensures OthersKept(old(entries), entries, room) && entries.Keys <= old(entries).Keys
      ensures room != "" && game != "" && room in entries ==> entries[room].key.game != game
      ensures room in old(entries) && (room == "" || game == "" || old(entries)[room].key.game != game) ==>
                room in entries && entries[room] == old(entries)[room]
      ensures entries == AfterStop(old(entries), room, game)
    {
      if room == "" || game == "" || room !in entries || entries[room].key.game != game {
        return;
      }
      entries := entries - {room};
    }

    /** The room has no entry left; every other room keeps its own. */
    method Stop(room: Id)
      modifies this
      ensures OthersKept(old(entries), entries, room) && (room != "" ==> room !in entries)
      ensures entries == AfterStopAll(old(entries), room)
    {
      if room != "" {
        entries := entries - {room};
      }
    }
  }

  /** Only the entry of the given room may differ. */
  ghost predicate OthersKept(before: map<Id, Entry>, after: map<Id, Entry>, room: Id) {
    forall r :: r != room ==> (r in after <==> r in before) && (r in before ==> after[r] == before[r])
  }

  function Scheduled(entries: map<Id, Entry>, s: Snapshot, now: int): map<Id, Entry> {
    if !s.Timed() then AfterStop(entries, s.room, s.game)
    else if s.room in entries && Stale(entries[s.room], s) then entries
    else entries[s.room := Entry(KeyOf(s), s.version, s.createdAt,
                                 if s.room in entries && entries[s.room].key == KeyOf(s) then entries[s.room].deadline
                                     else Deadline(s, now))]
  }

  function AfterStop(entries: map<Id, Entry>, room: Id, game: Id): map<Id, Entry> {
    if room != "" && game != "" && room in entries && entries[room].key.game == game then entries - {room} else entries
  }

  function AfterStopAll(entries: map<Id, Entry>, room: Id): map<Id, Entry> {
    if room == "" then entries else entries - {room}
  }

  // ---------------------------------------------------------------- what is taken

  /** A response is taken exactly if it times a turn, and the entry it meets is of no later version of its match, or of
      a match that was created earlier or nobody knows when. */
  lemma TakenIff(entries: map<Id, Entry>, s: Snapshot, now: int)
    requires s.active && s.seconds != 0
    ensures var after := Scheduled(entries, s, now);
            if s.room !in entries || (if entries[s.room].key.game == s.game then entries[s.room].version <= s.version
                                      else entries[s.room].createdAt == 0 || entries[s.room].createdAt < s.createdAt)
            then
              && s.room in after && after[s.room].key == TurnKey(s.game, s.turn, s.player)
              && after[s.room].version == s.version && after[s.room].createdAt == s.createdAt
              && (if s.room in entries && entries[s.room].key == after[s.room].key then
                    after[s.room].deadline == entries[s.room].deadline
                  else if s.startedAt.Some? then after[s.room].deadline == s.startedAt.value + s.seconds
                  else after[s.room].deadline == now + s.seconds)
            else after == entries
  {
    if s.room in entries { assert Stale(entries[s.room], s) || !Stale(entries[s.room], s); }
  }

  // ---------------------------------------------------------------- moving forward

  /** A later version of the same match, or a match that is known to have been created later. */
  predicate Forward(e: Entry, f: Entry) {
    (e.createdAt != 0 && e.createdAt < f.createdAt) || (e.key.game == f.key.game && e.version <= f.version)
  }

  /** As long as the entry of the room lives, scheduling moves it forward - exactly unless an entry whose creation
      time is unknown is replaced by one of another match. */
  lemma ScheduleMovesForwardIff(entries: map<Id, Entry>, s: Snapshot, now: int)
    requires s.room in entries && s.room in Scheduled(entries, s, now)
    ensures Forward(entries[s.room], Scheduled(entries, s, now)[s.room]) <==>
            !(s.Timed() && entries[s.room].key.game != s.game && entries[s.room].createdAt == 0)
  {
    var e := entries[s.room];
    if e.key.game == s.game && e.version > s.version { assert Stale(e, s); }
  }

  // ---------------------------------------------------------------- deadlines over whole runs

  /** What is done to the table. */
  datatype Command = Update(snapshot: Snapshot, now: int) | MatchOver(room: Id, game: Id) | RoomClosed(room: Id)

  function Applied(entries: map<Id, Entry>, c: Command): map<Id, Entry> {
    match c
    case Update(s, now) => Scheduled(entries, s, now)
    case MatchOver(room, game) => AfterStop(entries, room, game)
    case RoomClosed(room) => AfterStopAll(entries, room)
  }

  ghost function After(entries: map<Id, Entry>, cs: seq<Command>): map<Id, Entry> {
    if cs == [] then entries else Applied(After(entries, cs[..|cs| - 1]), cs[|cs| - 1])
  }

  /** The snapshot times a turn in the room. */
  predicate Times(s: Snapshot, room: Id) {
    s.Timed() && s.room == room
  }

  /** What the timed snapshots of one room have in common: those of a match agree on its creation time, its turns go up
      with its versions, and one player has a turn. */
  ghost predicate Ordered(all: set<Snapshot>, room: Id) {
    forall s, t :: s in all && t in all && Times(s, room) && Times(t, room) && s.game == t.game ==>
      && s.createdAt == t.createdAt
      && (s.version <= t.version ==> s.turn <= t.turn)
      && (s.turn == t.turn ==> s.player == t.player)
  }

  /** The updates of a run come from the given snapshots. */
  ghost predicate Feeds(all: set<Snapshot>, cs: seq<Command>) {
    forall c :: c in cs && c.Update? ==> c.snapshot in all
  }

  ghost predicate Made(e: Entry, s: Snapshot) {
    e.key == KeyOf(s) && e.version == s.version && e.createdAt == s.createdAt
  }

  /** The entry comes from a timed snapshot of the room. */
  ghost predicate From(e: Entry, all: set<Snapshot>, room: Id) {
    exists s :: s in all && Times(s, room) && Made(e, s)
  }

  /** The room kept an entry all along. */
  ghost predicate Lives(entries: map<Id, Entry>, cs: seq<Command>, room: Id) {
    forall n {:trigger cs[..n]} :: 0 <= n <= |cs| ==> room in After(entries, cs[..n])
  }

  /** The creation time of the entry's match is unknown, and so is that of another match timed in the room. */
  ghost predicate Contested(e: Entry, all: set<Snapshot>, room: Id) {
    e.createdAt == 0 && exists t :: t in all && Times(t, room) && t.createdAt == 0 && t.game != e.key.game
  }

  /** f replaced e, directly or over many steps, while the entry of the room lived on. */
  ghost predicate Follows(e: Entry, f: Entry) {
    && (e.createdAt < f.createdAt ||
        (e.key.game == f.key.game && e.createdAt == f.createdAt && e.version <= f.version && e.key.turn <= f.key.turn))
    && (e.key == f.key ==> e.deadline == f.deadline)
  }

  lemma FollowsStep(e: Entry, f: Entry, s: Snapshot, now: int, all: set<Snapshot>, room: Id)
    requires Ordered(all, room) && From(e, all, room) && From(f, all, room) && s in all && Times(s, room)
    requires !Contested(e, all, room) && Follows(e, f) && !Stale(f, s)
    ensures Follows(e, Entry(KeyOf(s), s.version, s.createdAt,
                             if f.key == KeyOf(s) then f.deadline else Deadline(s, now)))
  {
    var d :| d in all && Times(d, room) && Made(e, d);
    var t :| t in all && Times(t, room) && Made(f, t);
  }

  lemma AppliedFrom(entries: map<Id, Entry>, c: Command, all: set<Snapshot>, room: Id)
    requires room in Applied(entries, c) && (c.Update? ==> c.snapshot in all)
    requires room in entries ==> From(entries[room], all, room)
    ensures From(Applied(entries, c)[room], all, room)
  {
    var after := Applied(entries, c)[room];
    if c.Update? && Times(c.snapshot, room) && !(room in entries && Stale(entries[room], c.snapshot)) {
      assert Made(after, c.snapshot);
    } else {
      assert room in entries && after == entries[room];
    }
  }

  lemma LivesBefore(entries: map<Id, Entry>, cs: seq<Command>, room: Id)
    requires cs != [] && Lives(entries, cs, room)
    ensures Lives(entries, cs[..|cs| - 1], room) && room in After(entries, cs)
  {
    var init := cs[..|cs| - 1];
    forall n | 0 <= n <= |init|
      ensures room in After(entries, init[..n])
    {
      assert init[..n] == cs[..n];
    }
    assert cs[..|cs|] == cs;
  }

  /** While an entry that is not contested lives, time of creation, version and turn never go back, and the deadline of
      the turn never changes - over any run of updates, late and repeated ones, and of stops of matches and rooms. */
  lemma {:induction false} DeadlineIsFixed(entries: map<Id, Entry>, cs: seq<Command>, all: set<Snapshot>, room: Id)
    requires Ordered(all, room) && Feeds(all, cs) && room in entries && Lives(entries, cs, room)
    requires From(entries[room], all, room) && !Contested(entries[room], all, room)
    ensures room in After(entries, cs)
    ensures From(After(entries, cs)[room], all, room) && Follows(entries[room], After(entries, cs)[room])
  {
    if cs != [] {
      var init, c := cs[..|cs| - 1], cs[|cs| - 1];
      LivesBefore(entries, cs, room);
      DeadlineIsFixed(entries, init, all, room);
      var before := After(entries, init);
      AppliedFrom(before, c, all, room);
      if c.Update? && Times(c.snapshot, room) && !Stale(before[room], c.snapshot) {
        FollowsStep(entries[room], before[room], c.snapshot, c.now, all, room);
      }
    }
  }

  // ---------------------------------------------------------------- when deadlines are fixed

  /** From whatever table: as long as the entry of the room lives, a turn that is timed at the start and at the end has
      the same deadline. */
  ghost predicate DeadlinesFixed(all: set<Snapshot>, room: Id) {
    forall entries: map<Id, Entry>, cs: seq<Command> {:trigger After(entries, cs)} ::
      Feeds(all, cs) && room in entries && From(entries[room], all, room) && Lives(entries, cs, room) &&
      room in After(entries, cs) && After(entries, cs)[room].key == entries[room].key ==>
      After(entries, cs)[room].deadline == entries[room].deadline
  }

  /** No two matches timed in the room have unknown creation times. */
  ghost predicate OneUnknown(all: set<Snapshot>, room: Id) {
    forall s, t :: s in all && t in all && Times(s, room) && Times(t, room) && s.createdAt == 0 && t.createdAt == 0 ==>
      s.game == t.game
  }

  /** Whatever two matches of unknown creation time are timed in a room: a response of one replaces the entry of the
      other, and the next response of the other brings back its own turn with a new deadline. */
  lemma UnknownTimesMoveDeadline(entries: map<Id, Entry>, s: Snapshot, t: Snapshot, earlier: int, now: int)
    requires Times(s, s.room) && Times(t, s.room) && s.createdAt == 0 && t.createdAt == 0 && s.game != t.game
    requires s.room in entries && entries[s.room].key == KeyOf(s) && entries[s.room].createdAt == 0
    ensures var cs := [Update(t, earlier), Update(s, now)];
            && Lives(entries, cs, s.room)
            && s.room in After(entries, cs) && After(entries, cs)[s.room].key == entries[s.room].key
            && After(entries, cs)[s.room].deadline == Deadline(s, now)
  {
    var cs := [Update(t, earlier), Update(s, now)];
    assert cs[..0] == [] && cs[..1] == [cs[0]] && cs[..2] == cs && [cs[0]][..0] == [];
    assert After(entries, [cs[0]]) == Applied(After(entries, []), cs[0]);
    assert After(entries, cs) == Applied(After(entries, cs[..1]), cs[1]);
  }

  /** Deadlines are fixed in a room if and only if no two matches timed in it have unknown creation times. */
  lemma DeadlinesFixedIff(all: set<Snapshot>, room: Id)
    requires Ordered(all, room)
    ensures DeadlinesFixed(all, room) <==> OneUnknown(all, room)
  {
    if OneUnknown(all, room) {
      forall entries, cs | Feeds(all, cs) && room in entries && From(entries[room], all, room) &&
                           Lives(entries, cs, room)
        ensures room in After(entries, cs) && Follows(entries[room], After(entries, cs)[room])
      {
        DeadlineIsFixed(entries, cs, all, room);
      }
    } else {
      var s, t :| s in all && t in all && Times(s, room) && Times(t, room) && s.createdAt == 0 && t.createdAt == 0 &&
                  s.game != t.game;
      var entries := map[room := Entry(KeyOf(s), s.version, 0, Deadline(s, 0) + 1)];
      assert Made(entries[room], s);
      UnknownTimesMoveDeadline(entries, s, t, 0, 0);
    }
  }

  // ---------------------------------------------------------------- from the empty table

  /** The run goes on from the table, the entry of the room lives, and the same turn is timed at both ends. */
  ghost predicate EndsWhereItBegan(entries: map<Id, Entry>, before: seq<Command>, cs: seq<Command>, all: set<Snapshot>,
                                   room: Id)
  {
    && Feeds(all, before) && Feeds(all, cs) && room in entries && Lives(entries, cs, room)
    && room in After(entries, cs) && After(entries, cs)[room].key == entries[room].key
  }

  /** From the empty table on: as long as the entry of the room lives, the deadline of a turn does not change. */
  ghost predicate AlwaysFixed(all: set<Snapshot>, room: Id) {
    forall before: seq<Command>,
        cs: seq<Command> {:trigger EndsWhereItBegan(After(map[], before), before, cs, all, room)} ::
      EndsWhereItBegan(After(map[], before), before, cs, all, room) ==>
      After(After(map[], before), cs)[room].deadline == After(map[], before)[room].deadline
  }

  /** The two responses give a turn the same deadline, at whatever times they arrive. */
  predicate SameEnd(s: Snapshot, t: Snapshot) {
    s.startedAt.Some? && t.startedAt.Some? && s.startedAt.value + s.seconds == t.startedAt.value + t.seconds
  }

  lemma {:induction false} EntryIsFrom(cs: seq<Command>, all: set<Snapshot>, room: Id)
    requires Feeds(all, cs) && room in After(map[], cs)
    ensures From(After(map[], cs)[room], all, room)
  {
    var before := After(map[], cs[..|cs| - 1]);
    if room in before { EntryIsFrom(cs[..|cs| - 1], all, room); }
    AppliedFrom(before, cs[|cs| - 1], all, room);
  }

  /** An entry of unknown creation time ends when the responses say. */
  ghost predicate Anchored(e: Entry, all: set<Snapshot>, room: Id) {
    e.createdAt == 0 ==>
      exists s :: s in all && Times(s, room) && KeyOf(s) == e.key && s.createdAt == 0 && s.startedAt.Some? &&
                  e.deadline == s.startedAt.value + s.seconds
  }

  /** All responses about a turn of a match of unknown creation time say when the turn started, and agree about its
      end. */
  ghost predicate AllAgree(all: set<Snapshot>, room: Id) {
    forall s, t :: s in all && t in all && Times(s, room) && Times(t, room) && s.createdAt == 0 && KeyOf(s) == KeyOf(t)
      ==> SameEnd(s, t)
  }

  lemma {:induction false} EntryIsAnchored(cs: seq<Command>, all: set<Snapshot>, room: Id)
    requires Ordered(all, room) && AllAgree(all, room) && Feeds(all, cs) && room in After(map[], cs)
    ensures Anchored(After(map[], cs)[room], all, room)
  {
    var before, c := After(map[], cs[..|cs| - 1]), cs[|cs| - 1];
    var after := Applied(before, c);
    if room in before { EntryIsAnchored(cs[..|cs| - 1], all, room); }
    if c.Update? && Times(c.snapshot, room) && !(room in before && Stale(before[room], c.snapshot)) {
      var s := c.snapshot;
      if s.createdAt == 0 && room in before && before[room].key == KeyOf(s) {
        EntryIsFrom(cs[..|cs| - 1], all, room);
      } else if s.createdAt == 0 {
        assert SameEnd(s, s) && KeyOf(s) == after[room].key;
      }
    } else {
      assert room in before && after[room] == before[room];
    }
  }

  lemma {:induction false} AfterBoth(before: seq<Command>, cs: seq<Command>)
    ensures After(After(map[], before), cs) == After(map[], before + cs)
  {
    if cs == [] {
      assert before + cs == before;
    } else {
      AfterBoth(before, cs[..|cs| - 1]);
      assert (before + cs)[..|before + cs| - 1] == before + cs[..|cs| - 1];
    }
  }

  lemma ContestedKeeps(before: seq<Command>, after: seq<Command>, all: set<Snapshot>, room: Id)
    requires Ordered(all, room) && AllAgree(all, room) && Feeds(all, before) && Feeds(all, after)
    requires room in After(map[], before) && room in After(map[], after) && After(map[], before)[room].createdAt == 0
    requires After(map[], after)[room].key == After(map[], before)[room].key
    ensures After(map[], after)[room].deadline == After(map[], before)[room].deadline
  {
    EntryIsAnchored(before, all, room);
    EntryIsAnchored(after, all, room);
    EntryIsFrom(before, all, room);
    EntryIsFrom(after, all, room);
    AnchoredAgree(After(map[], before)[room], After(map[], after)[room], all, room);
  }

  lemma AnchoredAgree(e: Entry, f: Entry, all: set<Snapshot>, room: Id)
    requires Ordered(all, room) && AllAgree(all, room) && From(e, all, room) && From(f, all, room)
    requires Anchored(e, all, room) && Anchored(f, all, room) && e.key == f.key && e.createdAt == 0
    ensures e.deadline == f.deadline
  {
    var s :| s in all && Times(s, room) && Made(e, s);
    var t :| t in all && Times(t, room) && Made(f, t);
    assert s.game == t.game;
  }

  lemma SameTurnSameDeadline(before: seq<Command>, cs: seq<Command>, all: set<Snapshot>, room: Id)
    requires Ordered(all, room) && (OneUnknown(all, room) || AllAgree(all, room))
    requires EndsWhereItBegan(After(map[], before), before, cs, all, room)
    ensures After(After(map[], before), cs)[room].deadline == After(map[], before)[room].deadline
  {
    var entries := After(map[], before);
    EntryIsFrom(before, all, room);
    if Contested(entries[room], all, room) {
      assert AllAgree(all, room);
      AfterBoth(before, cs);
      ContestedKeeps(before, before + cs, all, room);
    } else {
      DeadlineIsFixed(entries, cs, all, room);
    }
  }

  /** Otherwise there is a run in which the deadline of a turn moves. */
  lemma DeadlineMoves(all: set<Snapshot>, room: Id) returns (before: seq<Command>, cs: seq<Command>)
    requires Ordered(all, room) && !OneUnknown(all, room) && !AllAgree(all, room)
    ensures EndsWhereItBegan(After(map[], before), before, cs, all, room)
    ensures After(After(map[], before), cs)[room].deadline != After(map[], before)[room].deadline
  {
    var s, t :| s in all && t in all && Times(s, room) && Times(t, room) && s.createdAt == 0 && KeyOf(s) == KeyOf(t) &&
                !SameEnd(s, t);
    var u, v :| u in all && v in all && Times(u, room) && Times(v, room) && u.createdAt == 0 && v.createdAt == 0 &&
                u.game != v.game;
    var other := if u.game != s.game then u else v;
    var first, now :=
      if s.startedAt.None? then Deadline(t, 0) - s.seconds + 1 else 0,
      if s.startedAt.Some? && t.startedAt.None? then Deadline(s, 0) - t.seconds + 1 else 0;
    assert Deadline(s, first) != Deadline(t, now);
    before := [Update(s, first)];
    cs := [Update(other, now), Update(t, now)];
    assert before[..0] == [] && After(map[], []) == map[];
    assert After(map[], before) == Applied(map[], before[0]);
    UnknownTimesMoveDeadline(After(map[], before), t, other, now, now);
  }

  /** From the empty table on, deadlines are fixed in a room if and only if no two matches timed in it have unknown
      creation times, or the responses of such matches say when each turn started and agree about its end. */
  lemma AlwaysFixedIff(all: set<Snapshot>, room: Id)
    requires Ordered(all, room)
    ensures AlwaysFixed(all, room) <==> OneUnknown(all, room) || AllAgree(all, room)
  {
    if OneUnknown(all, room) || AllAgree(all, room) {
      forall before: seq<Command>, cs: seq<Command> | EndsWhereItBegan(After(map[], before), before, cs, all, room)
        ensures After(After(map[], before), cs)[room].deadline == After(map[], before)[room].deadline
      {
        SameTurnSameDeadline(before, cs, all, room);
      }
    } else {
      var before, cs := DeadlineMoves(all, room);
      assert EndsWhereItBegan(After(map[], before), before, cs, all, room);
    }
  }
}
