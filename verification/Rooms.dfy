/** Rooms and their manager (`managers/room.cpp`, `managers/roomManager.cpp`). */
module Rooms {
  import opened Widths
  import opened Names
  import opened Sessions

  class Room {
    const uuid: Uuid
    const maxPlayers: u32
    const questionCount: u32
    const limit: u32
    var users: seq<Name>
    var active: bool

    constructor (admin: Name, uuid: Uuid, maxPlayers: u32, questionCount: u32, limit: u32)
      ensures this.uuid == uuid && Value() == RoomValue([admin], maxPlayers, questionCount, limit, false)
    {
      this.uuid, this.maxPlayers, this.questionCount, this.limit := uuid, maxPlayers, questionCount, limit;
      users, active := [admin], false;
    }

    ghost function Value(): RoomValue
      reads this
    {
      RoomValue(users, maxPlayers, questionCount, limit, active)
    }

    method AddUser(user: Name) returns (ok: bool)
      modifies this
      ensures ok <==> |old(users)| < maxPlayers && user !in old(users)
      ensures Value() == if ok then old(Value()).(users := old(users) + [user]) else old(Value())
    {
      if |users| >= maxPlayers {
        return false;
      }
      if user in users {
        return false;
      }
      users := users + [user];
      ok := true;
    }

    method RemoveUser(user: Name)
      modifies this
      ensures Value() == RoomWithout(old(Value()), user)
    {
      users := Without(users, user);
    }

    method SetIsActive(isActive: bool)
      modifies this
      ensures Value() == old(Value()).(active := isActive)
    {
      active := isActive;
    }
  }

  class RoomManager {
    var rooms: map<Uuid, Room>

    ghost predicate Valid()
      reads this
    {
      forall u :: u in rooms ==> rooms[u].uuid == u
    }

    ghost function Value(): map<Uuid, RoomValue>
      reads this, rooms.Values
    {
      map u | u in rooms :: rooms[u].Value()
    }

    constructor ()
      ensures Valid() && rooms == map[]
    {
      rooms := map[];
    }

    /** `uuid` is the one `generateRoomUUID` found to be free. */
    method CreateRoom(admin: Name, uuid: Uuid, maxPlayers: u32, questionCount: u32, limit: u32) returns (room: Room)
      requires Valid() && uuid !in rooms
      modifies this
      ensures Valid() && fresh(room) && rooms == old(rooms)[uuid := room]
      ensures Value() == old(Value())[uuid := RoomValue([admin], maxPlayers, questionCount, limit, false)]
    {
      room := new Room(admin, uuid, maxPlayers, questionCount, limit);
      rooms := rooms[uuid := room];
    }

    method DeleteRoom(uuid: Uuid)
      requires Valid()
      modifies this
      ensures Valid() && rooms == old(rooms) - {uuid} && Value() == old(Value()) - {uuid}
    {
      rooms := rooms - {uuid};
    }

    method GetRoom(uuid: Uuid) returns (room: Option<Room>)
      requires Valid()
      ensures room == if uuid in rooms then Some(rooms[uuid]) else None
    {
      room := if uuid in rooms then Some(rooms[uuid]) else None;
    }

    method GetRoomState(uuid: Uuid) returns (state: Option<RoomValue>)
      requires Valid()
      ensures state == if uuid in rooms then Some(rooms[uuid].Value()) else None
    {
      if uuid !in rooms {
        return None;
      }
      var room := rooms[uuid];
      state := Some(RoomValue(room.users, room.maxPlayers, room.questionCount, room.limit, room.active));
    }

    /** Removes the user, and the room with its last user. */
    method RemovePlayerFromRoom(uuid: Uuid, user: Name)
      requires Valid() && uuid in rooms
      modifies this, rooms[uuid]
      ensures Valid() && forall u :: u in rooms ==> u in old(rooms) && rooms[u] == old(rooms)[u]
      ensures var r := RoomWithout(old(Value())[uuid], user);
              Value() == if r.users == [] then old(Value()) - {uuid} else old(Value())[uuid := r]
    {
      var room := rooms[uuid];
      room.RemoveUser(user);
      if room.users == [] {
        rooms := rooms - {uuid};
      }
    }

    lemma Lookup(uuid: Uuid)
      ensures uuid in Value() <==> uuid in rooms
      ensures uuid in rooms ==> Value()[uuid] == rooms[uuid].Value()
    {
    }

    /** A change to one room changes one value of the map. */
    twostate lemma OneRoomChanged(room: Room)
      requires Valid() && rooms == old(rooms) && room.uuid in rooms && rooms[room.uuid] == room
      requires forall u :: u in rooms && u != room.uuid ==> unchanged(rooms[u])
      ensures Value() == old(Value())[room.uuid := room.Value()]
    {
    }
  }
}
