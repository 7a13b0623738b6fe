/**
 The room registry (app/domain/models.py) and the routing an entrance worker derives from it.
 */
module Registry {
  import opened Domain

  datatype Entrance = Entrance(key: string, enabled: bool)

  datatype RoomRegistry = RoomRegistry(entrances: seq<Entrance>, rooms: seq<Room>)
  {
    /** What the registry validators accept. */
    ghost predicate Valid() {
      && (forall i, j :: 0 <= i < j < |entrances| ==> entrances[i].key != entrances[j].key)
      && (forall r :: r in rooms ==> exists e :: e in entrances && e.key == r.entranceKey)
      && (forall i, j :: 0 <= i < j < |rooms| && rooms[i].slave.Some? && rooms[j].slave.Some? ==>
            rooms[i].entranceKey != rooms[j].entranceKey || rooms[i].slave != rooms[j].slave)
      && (forall i, j :: 0 <= i < j < |rooms| ==> rooms[i].key != rooms[j].key)
      && (forall i, j :: 0 <= i < j < |rooms| && Truthy(rooms[i].clockRoomId) ==> rooms[i].clockRoomId != rooms[j].clockRoomId)
      && (forall r :: r in rooms && r.slave.Some? ==> 1 <= r.slave.value <= 255)
    }
  }

  /** A room that the worker of the entrance drives. */
  predicate Routed(room: Room, entranceKey: string) {
    room.enabled && room.entranceKey == entranceKey && room.slave.Some?
  }

  function SlaveAddresses(rooms: seq<Room>, entranceKey: string): map<string, int> {
    if rooms == [] then map[]
    else
      var before, room := SlaveAddresses(rooms[..|rooms| - 1], entranceKey), rooms[|rooms| - 1];
      if Routed(room, entranceKey) then before[room.key := room.slave.value] else before
  }

  lemma {:induction false} SlaveAddressesExactly(rooms: seq<Room>, entranceKey: string, key: string)
    requires forall i, j :: 0 <= i < j < |rooms| ==> rooms[i].key != rooms[j].key
    ensures key in SlaveAddresses(rooms, entranceKey) <==>
              exists i :: 0 <= i < |rooms| && rooms[i].key == key
                && rooms[i].enabled && rooms[i].entranceKey == entranceKey && rooms[i].slave.Some?
    ensures forall i :: 0 <= i < |rooms| && rooms[i].key == key && rooms[i].enabled && rooms[i].entranceKey == entranceKey && rooms[i].slave.Some? ==>
              key in SlaveAddresses(rooms, entranceKey) && SlaveAddresses(rooms, entranceKey)[key] == rooms[i].slave.value
  {
    if rooms != [] {
      SlaveAddressesExactly(rooms[..|rooms| - 1], entranceKey, key);
    }
  }

  /** Within an entrance no two rooms share a slave, every slave is addressable, and only enabled rooms of the entrance are driven. */
  lemma RoutingIsInjective(registry: RoomRegistry, entranceKey: string, a: string, b: string)
    requires registry.Valid()
    requires a in SlaveAddresses(registry.rooms, entranceKey) && b in SlaveAddresses(registry.rooms, entranceKey)
    ensures var slaves := SlaveAddresses(registry.rooms, entranceKey);
            && (slaves[a] == slaves[b] ==> a == b)
            && 1 <= slaves[a] <= 255
            && exists room :: room in registry.rooms && room.key == a && room.enabled && room.entranceKey == entranceKey
                 && room.slave == Some(slaves[a])
  {
    SlaveAddressesExactly(registry.rooms, entranceKey, a);
    SlaveAddressesExactly(registry.rooms, entranceKey, b);
    var i :| 0 <= i < |registry.rooms| && registry.rooms[i].key == a && Routed(registry.rooms[i], entranceKey);
    var j :| 0 <= j < |registry.rooms| && registry.rooms[j].key == b && Routed(registry.rooms[j], entranceKey);
    assert registry.rooms[i] in registry.rooms;
  }
}
