/** The connection registry: an index from rooms to connections, kept beside the connections themselves. */
module Registries {
  import opened Tiles

  class Connection {
    const client: Id
    const actor: Id
    var room: Id

    constructor (client: Id, actor: Id)
      ensures this.client == client && this.actor == actor && room == ""
    {
      this.client, this.actor, room := client, actor, "";
    }
  }

  class Registry {
    var connections: map<Id, Connection>
    var rooms: map<Id, set<Id>>

    /** Every connection is filed under its own id. */
    ghost predicate Filed()
      reads this
    {
      forall c :: c in connections ==> connections[c].client == c
    }

    /** Which room each client is in, as the connections themselves say. */
    function Where(): map<Id, Id>
      reads this, connections.Values
    {
      map c | c in connections :: connections[c].room
    }

    ghost predicate Valid()
      reads this, connections.Values
    {
      Filed() && Indexes(rooms, Where())
    }

    constructor ()
      ensures Valid() && connections == map[]
    {
      connections, rooms := map[], map[];
    }

    /** Adding keeps the index right exactly when the id is not connected in some room already. */
    method Add(client: Id, actor: Id) returns (state: Connection)
      requires Valid()
      modifies this
      ensures fresh(state) && state.client == client && state.actor == actor && state.room == ""
      ensures connections == old(connections)[client := state] && rooms == old(rooms)
      ensures Valid() <==> client !in old(connections) || old(connections)[client].room == ""
    {
      state := new Connection(client, actor);
      connections := connections[client := state];
      assert Where() == old(Where())[client := ""];
      AddKeepsIndex(rooms, old(Where()), client);
    }

    /** Takes a client out of the entry of a room and drops an entry that becomes empty; other rooms keep theirs. */
    method RemoveClientFromRoom(room: Id, client: Id)
      modifies `rooms
      ensures forall r :: r != room ==> (r in rooms <==> r in old(rooms)) && (r in rooms ==> rooms[r] == old(rooms)[r])
      ensures In(rooms, room) == In(old(rooms), room) - {client}
      ensures (room in old(rooms) && room in rooms ==> rooms[room] != {})
      ensures rooms == Without(old(rooms), room, client)
    {
      if room in rooms {
        var clients := rooms[room] - {client};
        rooms := if clients == {} then rooms - {room} else rooms[room := clients];
      }
    }

    /** Moves a connection to another room, unless it is no longer the registered one. */
    method SetRoom(state: Connection, room: Id) returns (previous: Id)
      requires Valid()
      modifies this, state
      ensures Valid() && connections == old(connections)
      ensures if state.client in connections && connections[state.client] == state then
                state.room == room && previous == old(state.room)
              else previous == "" && state.room == old(state.room) && rooms == old(rooms)
    {
      var client := state.client;
      ghost var index, was := rooms, Where();
      if client !in connections || connections[client] != state {
        return "";
      }
      previous := state.room;
      if previous != "" {
        RemoveClientFromRoom(previous, client);
      }
      state.room := room;
      if room != "" {
        var clients := if room in rooms then rooms[room] else {};
        rooms := rooms[room := clients + {client}];
      }
      assert Where() == was[client := room] by {
        assert forall c :: c in connections && c != client ==> connections[c] != state;
      }
      MoveKeepsIndex(index, was, client, room);
    }

    method Remove(client: Id) returns (found: bool)
      requires Valid()
      modifies this
      ensures Valid() && found == (client in old(connections)) && connections == old(connections) - {client}
    {
      if client !in connections {
        assert connections == connections - {client};
        return false;
      }
      var state := connections[client];
      if state.room != "" {
        RemoveClientFromRoom(state.room, client);
      }
      connections := connections - {client};
      assert Where() == old(Where()) - {client};
      LeaveKeepsIndex(old(rooms), old(Where()), client);
      found := true;
    }

    /** The indexed lookup finds an actor exactly when a scan of all connections would; nobody is found in no room. */
    method HasLocalClientForActor(room: Id, actor: Id) returns (r: bool)
      requires Valid()
      ensures r <==> room != "" && exists c :: c in connections && connections[c].room == room &&
                                               connections[c].actor == actor
    {
      var todo := if room in rooms then rooms[room] else {};
      assert EntryFits(rooms, Where(), room);
      assert todo == if room == "" then {} else MembersOf(Where(), room);
      while todo != {}
        invariant forall c :: c in todo ==> room != "" && c in connections && connections[c].room == room
        invariant forall c :: room != "" && c in connections && connections[c].room == room && c !in todo ==>
                    connections[c].actor != actor
        decreases todo
      {
        var c :| c in todo;
        if c in connections && connections[c].actor == actor {
          return true;
        }
        todo := todo - {c};
      }
      r := false;
    }
  }

  // ---------------------------------------------------------------- the index

  /** The clients in a room: a scan of all connections. */
  function MembersOf(where: map<Id, Id>, room: Id): set<Id> {
    set c | c in where && where[c] == room
  }

  /** The index entry of a room is exactly the scan, and there are no empty entries. */
  ghost predicate EntryFits(rooms: map<Id, set<Id>>, where: map<Id, Id>, r: Id) {
    if r != "" && MembersOf(where, r) != {} then r in rooms && rooms[r] == MembersOf(where, r) else r !in rooms
  }

  ghost predicate Indexes(rooms: map<Id, set<Id>>, where: map<Id, Id>) {
    forall r {:trigger EntryFits(rooms, where, r)} :: EntryFits(rooms, where, r)
  }

  /** The clients filed under a room. */
  function In(rooms: map<Id, set<Id>>, room: Id): set<Id> {
    if room in rooms then rooms[room] else {}
  }

  function Without(rooms: map<Id, set<Id>>, room: Id, client: Id): map<Id, set<Id>> {
    if room !in rooms then rooms
    else if rooms[room] - {client} == {} then rooms - {room}
    else rooms[room := rooms[room] - {client}]
  }

  function With(rooms: map<Id, set<Id>>, room: Id, client: Id): map<Id, set<Id>> {
    if room == "" then rooms
    else rooms[room := (if room in rooms then rooms[room] else {}) + {client}]
  }

  lemma LeaveKeepsIndex(rooms: map<Id, set<Id>>, where: map<Id, Id>, client: Id)
    requires Indexes(rooms, where) && client in where
    ensures Indexes(Without(rooms, where[client], client), where - {client})
    ensures where[client] == "" ==> Without(rooms, where[client], client) == rooms
  {
    var next, left := Without(rooms, where[client], client), where - {client};
    forall r
      ensures EntryFits(next, left, r)
    {
      assert EntryFits(rooms, where, r);
      assert MembersOf(left, r) == MembersOf(where, r) - {client};
      if r != where[client] { assert client !in MembersOf(where, r); } else { assert client in MembersOf(where, r); }
    }
    assert EntryFits(rooms, where, "");
  }

  lemma EnterKeepsIndex(rooms: map<Id, set<Id>>, where: map<Id, Id>, client: Id, room: Id)
    requires Indexes(rooms, where) && client !in where
    ensures Indexes(With(rooms, room, client), where[client := room])
  {
    var entered, next := With(rooms, room, client), where[client := room];
    forall r
      ensures EntryFits(entered, next, r)
    {
      assert EntryFits(rooms, where, r);
      assert MembersOf(next, r) == MembersOf(where, r) + if r == room then {client} else {};
    }
  }

  lemma MoveKeepsIndex(rooms: map<Id, set<Id>>, where: map<Id, Id>, client: Id, room: Id)
    requires Indexes(rooms, where) && client in where
    ensures Indexes(With(Without(rooms, where[client], client), room, client), where[client := room])
    ensures where[client] == "" ==> Without(rooms, where[client], client) == rooms
  {
    LeaveKeepsIndex(rooms, where, client);
    EnterKeepsIndex(Without(rooms, where[client], client), where - {client}, client, room);
    assert (where - {client})[client := room] == where[client := room];
  }

  /** A second connection under an id that is still in a room leaves a stale entry behind. */
  lemma AddKeepsIndex(rooms: map<Id, set<Id>>, where: map<Id, Id>, client: Id)
    requires Indexes(rooms, where)
    ensures Indexes(rooms, where[client := ""]) <==> client !in where || where[client] == ""
  {
    if client in where && where[client] != "" {
      var r := where[client];
      assert EntryFits(rooms, where, r) && client in MembersOf(where, r);
      assert client !in MembersOf(where[client := ""], r);
      assert !EntryFits(rooms, where[client := ""], r);
    } else {
      var next := where[client := ""];
      forall r
        ensures EntryFits(rooms, next, r)
      {
        assert EntryFits(rooms, where, r);
        assert r != "" ==> MembersOf(next, r) == MembersOf(where, r);
      }
    }
  }
}
