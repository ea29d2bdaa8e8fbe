/** The directory of rooms: reservations waiting for their host, active rooms, and the
    name under which each active room can be found. */
module Registry {
  import opened Wrappers
  import opened Types
  import Room

  /** A reservation: the name exactly as requested, and when it was made. */
  datatype PendingRoom = PendingRoom(name: string, creation: Instant)

  class Registry {
    var pendingRooms: map<Ulid, PendingRoom>
    var rooms: map<Ulid, Room.Room>
    var roomsNameMapping: map<string, Ulid>
    /** Every id handed out so far. */
    ghost var minted: set<Ulid>

    /** No id is both pending and active; every active room is filed under its own id and
        found under its own name; every name leads to an active room of that name; and no
        id in use was minted by anyone else. */
    ghost predicate Valid()
      reads this
    {
      && pendingRooms.Keys !! rooms.Keys
      && (forall id :: id in rooms ==>
            && rooms[id].id == id
            && rooms[id].name in roomsNameMapping
            && roomsNameMapping[rooms[id].name] == id)
      && (forall n :: n in roomsNameMapping ==>
            roomsNameMapping[n] in rooms && rooms[roomsNameMapping[n]].name == n)
      && pendingRooms.Keys + rooms.Keys <= minted
    }

    /** `create` asserts that the reserved name is not already taken by an active room. */
    predicate NameFree(id: Ulid)
      reads this
    {
      id in pendingRooms ==> pendingRooms[id].name !in roomsNameMapping
    }

    /** `Registry::default()`. */
    constructor ()
      ensures Valid()
      ensures pendingRooms == map[] && rooms == map[] && roomsNameMapping == map[]
    {
      pendingRooms := map[];
      rooms := map[];
      roomsNameMapping := map[];
      minted := {};
    }

    /** `reserve`: always succeeds, with the freshly minted `id`. The name is kept exactly
        as given; it is not checked against other rooms' names. */
    method Reserve(name: string, id: Ulid, now: Instant) returns (r: Option<(Ulid, string)>)
      requires Valid()
      requires id !in minted
      modifies this
      ensures Valid()
      ensures r == Some((id, name))
      ensures id !in old(pendingRooms) && id !in old(rooms)
      ensures pendingRooms == old(pendingRooms)[id := PendingRoom(name, now)]
      ensures rooms == old(rooms) && roomsNameMapping == old(roomsNameMapping)
      ensures minted == old(minted) + {id}
    {
      pendingRooms := pendingRooms[id := PendingRoom(name, now)];
      minted := minted + {id};
      r := Some((id, name));
    }

    /** `create` with its name check made before any update: the host claims
        reservation `id`. An unknown id, or a reservation whose name an active room
        already holds, is refused and changes nothing; otherwise the reservation becomes
        an active room, with a fresh actor, found under the reserved name. */
    method Create(id: Ulid) returns (created: bool)
      requires Valid()
      modifies this
      ensures Valid()
      ensures created <==> id in old(pendingRooms) && old(NameFree(id))
      ensures !created ==>
        && pendingRooms == old(pendingRooms) && rooms == old(rooms)
        && roomsNameMapping == old(roomsNameMapping)
      ensures created ==>
        && pendingRooms == old(pendingRooms) - {id}
        && roomsNameMapping == old(roomsNameMapping)[old(pendingRooms)[id].name := id]
        && id in rooms && fresh(rooms[id])
        && rooms[id].id == id && rooms[id].name == old(pendingRooms)[id].name
        && rooms[id].State() == Room.Initial(id, old(pendingRooms)[id].name)
        && rooms == old(rooms)[id := rooms[id]]
      ensures minted == old(minted)
    {
      if id !in pendingRooms || pendingRooms[id].name in roomsNameMapping {
        return false;
      }
      var name := pendingRooms[id].name;
      pendingRooms := pendingRooms - {id};
      roomsNameMapping := roomsNameMapping[name := id];
      var room := new Room.Room(id, name);
      rooms := rooms[id := room];
      created := true;
    }

    /** `create` as written: the reservation is taken out and the name is mapped to `id`
        before `assert!` looks at what the mapping held. When the name was already an
        active room's, the assertion panics (`panicked`) with both updates in place; the
        registry's mutex does not poison, so the server goes on from that state, in
        which the name leads to an id that is neither pending nor active. */
    method CreateAsWritten(id: Ulid) returns (created: bool, panicked: bool)
      requires Valid()
      modifies this
      ensures panicked <==> id in old(pendingRooms) && !old(NameFree(id))
      ensures created <==> id in old(pendingRooms) && !panicked
      ensures id !in old(pendingRooms) ==>
        && pendingRooms == old(pendingRooms) && rooms == old(rooms)
        && roomsNameMapping == old(roomsNameMapping)
      ensures id in old(pendingRooms) ==>
        && pendingRooms == old(pendingRooms) - {id}
        && roomsNameMapping == old(roomsNameMapping)[old(pendingRooms)[id].name := id]
      ensures created ==>
        && Valid() && id in rooms && fresh(rooms[id])
        && rooms[id].id == id && rooms[id].name == old(pendingRooms)[id].name
        && rooms[id].State() == Room.Initial(id, old(pendingRooms)[id].name)
        && rooms == old(rooms)[id := rooms[id]]
      ensures panicked ==>
        && rooms == old(rooms) && !Valid()
        && FindRoom(old(pendingRooms)[id].name) == Some((id, old(pendingRooms)[id].name))
        && !JoinRoom(id)
      ensures minted == old(minted)
    {
      if id !in pendingRooms {
        return false, false;
      }
      var name := pendingRooms[id].name;
      var taken := name in roomsNameMapping;
      pendingRooms := pendingRooms - {id};
      roomsNameMapping := roomsNameMapping[name := id];
      if taken {
        // `insert` returned the old id: the assertion fails here.
        assert roomsNameMapping[name] !in rooms;
        return false, true;
      }
      var room := new Room.Room(id, name);
      rooms := rooms[id := room];
      created, panicked := true, false;
    }

    /** `remove`: drops the room `id` and the name `name`, whether or not either is
        there, in any state of the registry. When they are a room's own id and name, which
        is how a room's actor calls it, a valid registry stays valid. */
    method Remove(id: Ulid, name: string)
      modifies this
      ensures rooms == old(rooms) - {id}
      ensures roomsNameMapping == old(roomsNameMapping) - {name}
      ensures pendingRooms == old(pendingRooms) && minted == old(minted)
      ensures old(Valid() && id in rooms && rooms[id].name == name) ==> Valid()
      ensures old(Valid() && id !in rooms && name !in roomsNameMapping) ==> Valid()
    {
      rooms := rooms - {id};
      roomsNameMapping := roomsNameMapping - {name};
    }

    /** `find_room`: exact lookup of the name, no trimming or case folding; the name in
        the answer is the query itself. A name found always leads to an active room. */
    function FindRoom(name: string): (r: Option<(Ulid, string)>)
      reads this
      ensures r.Some? <==> name in roomsNameMapping
      ensures r.Some? ==> r.value == (roomsNameMapping[name], name)
      ensures Valid() && r.Some? ==> r.value.0 in rooms && rooms[r.value.0].name == name
    {
      if name in roomsNameMapping then Some((roomsNameMapping[name], name)) else None
    }

    /** `join_room`: succeeds exactly for an active room, where the participant's session
        is started; the registry's maps are not touched. */
    function JoinRoom(id: Ulid): (joined: bool)
      reads this
      ensures joined <==> id in rooms
    {
      id in rooms
    }

    /** A room found by name can be joined, and every active room is found under its
        own name. */
    lemma FindAndJoinAgree(name: string, id: Ulid)
      requires Valid()
      ensures FindRoom(name).Some? ==> JoinRoom(FindRoom(name).value.0)
      ensures JoinRoom(id) ==> FindRoom(rooms[id].name) == Some((id, rooms[id].name))
    {
    }
  }

  /** The `HostLeft` arm of a room's actor, seen from the registry: the actor asks for the
      removal of its own id and name, and the registry removes exactly that room, stays
      valid, and frees the name. */
  method RemoveOnHostLeft(registry: Registry, id: Ulid)
    requires registry.Valid()
    requires id in registry.rooms && !registry.rooms[id].closed
    modifies registry, registry.rooms[id], registry.rooms[id].run
    ensures registry.Valid()
    ensures !registry.JoinRoom(id)
    ensures registry.FindRoom(old(registry.rooms[id].name)) == None
    ensures registry.rooms == old(registry.rooms) - {id}
    ensures registry.pendingRooms == old(registry.pendingRooms)
  {
    var room := registry.rooms[id];
    room.Step(Room.HostLeft);
    var (roomId, roomName) := room.removal.value;
    registry.Remove(roomId, roomName);
  }

  /** Reserving a name, hosting it and looking it up by that exact name finds the room,
      which participants can then join. */
  method ReserveHostFind(registry: Registry, name: string, id: Ulid, now: Instant)
    requires registry.Valid() && id !in registry.minted
    requires name !in registry.roomsNameMapping
    modifies registry
    ensures registry.Valid()
    ensures registry.FindRoom(name) == Some((id, name))
    ensures registry.JoinRoom(id)
  {
    var reserved := registry.Reserve(name, id, now);
    var created := registry.Create(id);
  }

  /** `reserve` does not check names: the same name reserved twice gives two pending
      reservations with different ids. Once the first is hosted, the second's name is
      taken, and hosting it is refused with the registry left as it was. */
  method ReserveSameNameTwice(registry: Registry, name: string, first: Ulid, second: Ulid, now: Instant)
    returns (hostedSecond: bool)
    requires registry.Valid() && first != second
    requires first !in registry.minted && second !in registry.minted
    requires name !in registry.roomsNameMapping
    modifies registry
    ensures registry.Valid()
    ensures !hostedSecond
    ensures second in registry.pendingRooms && registry.pendingRooms[second] == PendingRoom(name, now)
    ensures registry.FindRoom(name) == Some((first, name)) && registry.JoinRoom(first)
    ensures !registry.NameFree(second)
  {
    var r1 := registry.Reserve(name, first, now);
    var r2 := registry.Reserve(name, second, now);
    var created := registry.Create(first);
    hostedSecond := registry.Create(second);
  }

  /** The same scenario against `create` as written: hosting the second reservation
      panics after remapping the name, so the registry is no longer valid, the name
      leads to an id nobody can join, and the first room, still active, can no longer be
      found by its name. */
  method ReserveSameNameTwiceAsWritten(registry: Registry, name: string, first: Ulid, second: Ulid, now: Instant)
    returns (panicked: bool)
    requires registry.Valid() && first != second
    requires first !in registry.minted && second !in registry.minted
    requires name !in registry.roomsNameMapping
    modifies registry
    ensures panicked && !registry.Valid()
    ensures registry.FindRoom(name) == Some((second, name)) && !registry.JoinRoom(second)
    ensures registry.JoinRoom(first)
  {
    var r1 := registry.Reserve(name, first, now);
    var r2 := registry.Reserve(name, second, now);
    var created := registry.Create(first);
    var hosted;
    hosted, panicked := registry.CreateAsWritten(second);
  }

  /** After the panic of `create` as written, the first room's host leaves: its actor
      asks for the removal of its own id and name, which drops the dangling name as well,
      and the registry is valid again, with neither the room nor the name left. */
  method HostLeavesAfterPanic(registry: Registry, name: string, first: Ulid, second: Ulid, now: Instant)
    requires registry.Valid() && first != second
    requires first !in registry.minted && second !in registry.minted
    requires name !in registry.roomsNameMapping
    modifies registry
    ensures registry.Valid()
    ensures registry.FindRoom(name) == None && !registry.JoinRoom(first) && !registry.JoinRoom(second)
  {
    var r1 := registry.Reserve(name, first, now);
    var r2 := registry.Reserve(name, second, now);
    var created := registry.Create(first);
    ghost var hosted := registry.rooms;
    ghost var mapped := registry.roomsNameMapping;
    var createdSecond, panicked := registry.CreateAsWritten(second);
    registry.Remove(first, name);
    assert registry.rooms == hosted - {first};
    assert registry.roomsNameMapping == mapped - {name};
  }
}
