/** Rooms and their equipment: the entities (Features/Rooms/Room.cs,
    Features/Equipments/Equipment.cs), the request and response records, the
    mappings between them (Features/Rooms/RoomMappings.cs) and the table rules
    of the Rooms, Equipments and RoomEquipments tables. A stored room is a
    `RoomRecord` value; the tracked entity that RoomService loads and edits in
    place is an object of class `Room`. */
module Rooms {
  import opened Optional
  import opened Seqs

  datatype Equipment = Equipment(id: int, name: string)

  datatype EquipmentResponse = EquipmentResponse(id: int, name: string)

  /** A row of Rooms together with its RoomEquipments links, in link order. */
  datatype RoomRecord = RoomRecord(id: int, name: string, capacity: int, location: string, equipments: seq<Equipment>)

  datatype GetRoomResponse = GetRoomResponse(id: int, name: string, capacity: int, location: string, equipments: seq<EquipmentResponse>)

  datatype CreateRoomRequest = CreateRoomRequest(name: string, capacity: int, location: string, equipmentIds: Option<seq<int>>)

  datatype UpdateRoomRequest = UpdateRoomRequest(name: string, capacity: int, location: string, equipmentIds: seq<int>)

  function EquipmentKey(e: Equipment): int { e.id }

  function RoomKey(r: RoomRecord): int { r.id }

  /** The room entity as EF Core tracks it. */
  class Room {
    var id: int
    var name: string
    var capacity: int
    var location: string
    var equipments: seq<Equipment>

    /** `new Room { Name = ..., Capacity = ..., Location = ... }`: the key is
        not assigned yet and the equipment list starts empty. */
    constructor (name: string, capacity: int, location: string)
      ensures this.id == 0 && this.name == name && this.capacity == capacity
      ensures this.location == location && this.equipments == []
    {
      this.id := 0;
      this.name := name;
      this.capacity := capacity;
      this.location := location;
      this.equipments := [];
    }

    /** A tracked entity materialised from a stored row. */
    constructor Load(record: RoomRecord)
      ensures Record() == record
    {
      id := record.id;
      name := record.name;
      capacity := record.capacity;
      location := record.location;
      equipments := record.equipments;
    }

    /** The row this entity is saved as. */
    function Record(): RoomRecord
      reads this
    {
      RoomRecord(id, name, capacity, location, equipments)
    }
  }

  /** `CreateRoomRequest.ToRoom()`: a new entity with the request's fields and no equipment. */
  method ToRoom(request: CreateRoomRequest) returns (room: Room)
    ensures fresh(room)
    ensures room.name == request.name && room.capacity == request.capacity && room.location == request.location
    ensures room.id == 0 && room.equipments == []
  {
    room := new Room(request.name, request.capacity, request.location);
  }

  /** `UpdateRoomRequest.ToRoom(room)`: overwrites exactly the name, capacity
      and location of the given entity and returns that same entity. */
  method ToRoomInPlace(request: UpdateRoomRequest, room: Room) returns (updated: Room)
    modifies room
    ensures updated == room
    ensures room.name == request.name && room.capacity == request.capacity && room.location == request.location
    ensures room.id == old(room.id) && room.equipments == old(room.equipments)
  {
    room.name := request.name;
    room.capacity := request.capacity;
    room.location := request.location;
    return room;
  }

  /** `e => new EquipmentResponse(e.Id, e.Name)` over a room's equipment:
      one response per equipment, in order, with its id and name. */
  function EquipmentResponses(equipments: seq<Equipment>): (rs: seq<EquipmentResponse>)
    ensures |rs| == |equipments|
    ensures forall i :: 0 <= i < |rs| ==> rs[i].id == equipments[i].id && rs[i].name == equipments[i].name
  {
    seq(|equipments|, i requires 0 <= i < |equipments| => EquipmentResponse(equipments[i].id, equipments[i].name))
  }

  /** The response for a stored room, built the same way by
      `ToGetRoomResponse` and inline by RoomService. */
  function RoomResponse(record: RoomRecord): (r: GetRoomResponse)
    ensures r.id == record.id && r.name == record.name
    ensures r.capacity == record.capacity && r.location == record.location
    ensures |r.equipments| == |record.equipments|
    ensures forall i :: 0 <= i < |r.equipments| ==>
      r.equipments[i] == EquipmentResponse(record.equipments[i].id, record.equipments[i].name)
  {
    GetRoomResponse(record.id, record.name, record.capacity, record.location, EquipmentResponses(record.equipments))
  }

  /** Two rooms with the same response carry the same equipment ids and names:
      the response loses nothing of the stored room. */
  lemma {:induction false} RoomResponseInjective(a: RoomRecord, b: RoomRecord)
    requires RoomResponse(a) == RoomResponse(b)
    ensures a == b
  {
    var ra, rb := RoomResponse(a), RoomResponse(b);
    assert |a.equipments| == |b.equipments|;
    forall i | 0 <= i < |a.equipments| ensures a.equipments[i] == b.equipments[i] {
      assert ra.equipments[i] == rb.equipments[i];
    }
  }

  /** `ToGetRoomResponse` on a tracked entity. */
  function ToGetRoomResponse(room: Room): (r: GetRoomResponse)
    reads room
    ensures r.id == room.id && r.name == room.name && r.capacity == room.capacity && r.location == room.location
    ensures |r.equipments| == |room.equipments|
    ensures forall i :: 0 <= i < |r.equipments| ==>
      r.equipments[i].id == room.equipments[i].id && r.equipments[i].name == room.equipments[i].name
  {
    RoomResponse(room.Record())
  }

  /** `context.Equipments.Where(e => ids.Contains(e.Id))`: the existing
      equipment whose id is listed, in table order; unknown ids select nothing. */
  function SelectEquipments(table: seq<Equipment>, ids: seq<int>): (selected: seq<Equipment>)
    ensures forall e :: e in selected <==> e in table && e.id in ids
    ensures IncreasingBy(table, EquipmentKey) ==> IncreasingBy(selected, EquipmentKey)
  {
    FilterKeepsIncreasingEquipment(table, ids);
    Filter(table, (e: Equipment) => e.id in ids)
  }

  lemma FilterKeepsIncreasingEquipment(table: seq<Equipment>, ids: seq<int>)
    ensures IncreasingBy(table, EquipmentKey) ==> IncreasingBy(Filter(table, (e: Equipment) => e.id in ids), EquipmentKey)
  {
    if IncreasingBy(table, EquipmentKey) {
      FilterKeepsIncreasing(table, (e: Equipment) => e.id in ids, EquipmentKey);
    }
  }

  predicate RoomExists(rooms: seq<RoomRecord>, id: int) {
    exists r :: r in rooms && r.id == id
  }

  /** The stored room with key `id`. */
  function RoomWithId(rooms: seq<RoomRecord>, id: int): (room: RoomRecord)
    requires RoomExists(rooms, id)
    ensures room in rooms && room.id == id
  {
    var i := IndexOf(rooms, RoomKey, id);
    assert i.Some? by {
      var r :| r in rooms && r.id == id;
      assert RoomKey(r) == id;
    }
    rooms[i.value]
  }

  /** The Rooms table with its RoomEquipments links: keys handed out in
      increasing order and below the next key, every link to an existing
      equipment, and at most one link per (room, equipment) pair. */
  predicate RoomsTableValid(rooms: seq<RoomRecord>, equipments: seq<Equipment>, nextRoomId: int) {
    && IncreasingBy(rooms, RoomKey)
    && (forall r :: r in rooms ==> r.id < nextRoomId)
    && (forall r :: r in rooms ==> LinksValid(r.equipments, equipments))
  }

  predicate LinksValid(linked: seq<Equipment>, equipments: seq<Equipment>) {
    (forall e :: e in linked ==> e in equipments) && IncreasingBy(linked, EquipmentKey)
  }

  /** The equipment seeded by EquipmentConfiguration. */
  const SeededEquipments: seq<Equipment> := [
    Equipment(1, "Projector"),
    Equipment(2, "Whiteboard"),
    Equipment(3, "Conference Phone"),
    Equipment(4, "TV")
  ]
}
