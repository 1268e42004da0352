/** The room service (Features/Rooms/RoomService.cs): the two queries and
    the create, update and delete commands on the Rooms table. Create and
    update resolve equipment ids against the Equipments table; delete is
    refused while a non-cancelled reservation holds the room and otherwise
    cascades to the room's reservations. */
module RoomService {
  import opened Optional
  import opened Results
  import opened Text
  import opened Seqs
  import opened Rooms
  import opened Reservations
  import opened Data

  const ActiveReservationsMessage := "Cannot delete room with active reservations."

  /** `GetAllRoomsAsync`: one response per stored room, in table order. */
  function GetAllRooms(context: BookingContext): (res: Result<seq<GetRoomResponse>>)
    reads context
    ensures res.Success? && |res.value| == |context.rooms|
    ensures forall i :: 0 <= i < |context.rooms| ==> res.value[i] == RoomResponse(context.rooms[i])
  {
    var rooms := context.rooms;
    Success(seq(|rooms|, i requires 0 <= i < |rooms| => RoomResponse(rooms[i])))
  }

  /** `GetRoomByIdAsync`: NotFound exactly when no room has the key;
      otherwise the response of the room with that key. */
  function GetRoomById(context: BookingContext, id: int): (res: Result<GetRoomResponse>)
    reads context
    ensures res.Fail? <==> !RoomExists(context.rooms, id)
    ensures res.Fail? ==> res.error == NotFound("Room", Some(IntToString(id)))
    ensures res.Success? ==>
      res.value.id == id && exists room :: room in context.rooms && room.id == id && res.value == RoomResponse(room)
  {
    match IndexOf(context.rooms, RoomKey, id)
    case None => Fail(NotFound("Room", Some(IntToString(id))))
    case Some(i) => Success(RoomResponse(context.rooms[i]))
  }

  /** The equipment a new room is linked to: nothing unless the request
      lists ids, otherwise the existing equipment whose id is listed. */
  function CreateEquipments(table: seq<Equipment>, ids: Option<seq<int>>): (selected: seq<Equipment>)
    ensures ids.None? || ids.value == [] ==> selected == []
    ensures ids.Some? ==> forall e :: e in selected <==> e in table && e.id in ids.value
    ensures IncreasingBy(table, EquipmentKey) ==> LinksValid(selected, table)
  {
    if ids.Some? && |ids.value| != 0 then SelectEquipments(table, ids.value) else []
  }

  /** Appending a room under the next key, linked to existing equipment,
      keeps the store valid. */
  lemma {:induction false} AddRoomKeepsValid(
    rooms: seq<RoomRecord>, equipments: seq<Equipment>, rs: seq<Reservation>, users: map<string, string>,
    nextRoomId: int, nextReservationId: int, room: RoomRecord)
    requires IncreasingBy(equipments, EquipmentKey)
    requires RoomsTableValid(rooms, equipments, nextRoomId)
    requires ReservationsValid(rs, rooms, users, nextReservationId)
    requires room.id == nextRoomId && LinksValid(room.equipments, equipments)
    ensures RoomsTableValid(rooms + [room], equipments, nextRoomId + 1)
    ensures ReservationsValid(rs, rooms + [room], users, nextReservationId)
  {
    var rooms' := rooms + [room];
    forall i, j | 0 <= i < j < |rooms'| ensures RoomKey(rooms'[i]) < RoomKey(rooms'[j]) {
      if j == |rooms| {
        assert rooms'[i] in rooms;
      } else {
        assert rooms'[i] == rooms[i] && rooms'[j] == rooms[j];
      }
    }
    forall r | r in rs ensures RoomExists(rooms', r.roomId) {
      var x :| x in rooms && x.id == r.roomId;
      assert x in rooms';
    }
    RoomsChangeKeepsValid(rs, rooms, rooms', users, nextReservationId);
  }

  /** `CreateRoomAsync`: a new room with the request's fields and the
      selected equipment is stored under the next key, and its response is
      returned. Nothing else changes. */
  method CreateRoom(context: BookingContext, request: CreateRoomRequest) returns (res: Result<GetRoomResponse>)
    requires context.Valid()
    modifies context
    ensures context.Valid()
    ensures
      var stored := RoomRecord(old(context.nextRoomId), request.name, request.capacity, request.location,
                               CreateEquipments(old(context.equipments), request.equipmentIds));
      && context.rooms == old(context.rooms) + [stored]
      && res == Success(RoomResponse(stored))
    ensures context.nextRoomId == old(context.nextRoomId) + 1
    ensures context.equipments == old(context.equipments) && context.reservations == old(context.reservations)
    ensures context.users == old(context.users) && context.nextReservationId == old(context.nextReservationId)
  {
    var room := ToRoom(request);
    if request.equipmentIds.Some? && |request.equipmentIds.value| != 0 {
      room.equipments := [];
      var selected := SelectEquipments(context.equipments, request.equipmentIds.value);
      room.equipments := room.equipments + selected;
      assert room.equipments == selected;
    }
    assert room.equipments == CreateEquipments(context.equipments, request.equipmentIds);
    // SaveChanges assigns the key.
    room.id := context.nextRoomId;
    AddRoomKeepsValid(context.rooms, context.equipments, context.reservations, context.users,
                      context.nextRoomId, context.nextReservationId, room.Record());
    context.rooms := context.rooms + [room.Record()];
    context.nextRoomId := context.nextRoomId + 1;
    res := Success(ToGetRoomResponse(room));
  }

  /** Replacing a room's row by one with the same key, linked to existing
      equipment, keeps the store valid. */
  lemma {:induction false} ReplaceRoomKeepsValid(
    rooms: seq<RoomRecord>, equipments: seq<Equipment>, rs: seq<Reservation>, users: map<string, string>,
    nextRoomId: int, nextReservationId: int, i: nat, room: RoomRecord)
    requires RoomsTableValid(rooms, equipments, nextRoomId)
    requires ReservationsValid(rs, rooms, users, nextReservationId)
    requires i < |rooms| && room.id == rooms[i].id && LinksValid(room.equipments, equipments)
    ensures RoomsTableValid(rooms[i := room], equipments, nextRoomId)
    ensures ReservationsValid(rs, rooms[i := room], users, nextReservationId)
  {
    var rooms' := rooms[i := room];
    forall x | x in rooms' ensures x.id < nextRoomId && LinksValid(x.equipments, equipments) {
      var k :| 0 <= k < |rooms'| && rooms'[k] == x;
      assert k == i || rooms[k] == x;
    }
    forall r | r in rs ensures RoomExists(rooms', r.roomId) {
      var k :| 0 <= k < |rooms| && rooms[k].id == r.roomId;
      assert rooms'[k].id == r.roomId;
    }
    RoomsChangeKeepsValid(rs, rooms, rooms', users, nextReservationId);
  }

  /** `UpdateRoomAsync`: NotFound with nothing changed for an unknown key;
      otherwise the room keeps its key, takes the request's name, capacity and
      location, and is linked to exactly the listed existing equipment. */
  method UpdateRoom(context: BookingContext, id: int, request: UpdateRoomRequest) returns (res: Result<()>)
    requires context.Valid()
    modifies context
    ensures context.Valid()
    ensures
      var found := IndexOf(old(context.rooms), RoomKey, id);
      && (found.None? ==> res == Fail(NotFound("Room", Some(IntToString(id)))) && context.rooms == old(context.rooms))
      && (found.Some? ==>
            && res == Success(())
            && context.rooms == old(context.rooms)[found.value := RoomRecord(id, request.name, request.capacity, request.location,
                                                                             SelectEquipments(old(context.equipments), request.equipmentIds))])
    ensures context.nextRoomId == old(context.nextRoomId)
    ensures context.equipments == old(context.equipments) && context.reservations == old(context.reservations)
    ensures context.users == old(context.users) && context.nextReservationId == old(context.nextReservationId)
  {
    var found := IndexOf(context.rooms, RoomKey, id);
    if found.None? {
      return Fail(NotFound("Room", Some(IntToString(id))));
    }
    var i := found.value;
    var existing := new Room.Load(context.rooms[i]);
    var updated := ToRoomInPlace(request, existing);
    updated.equipments := SelectEquipments(context.equipments, request.equipmentIds);
    ReplaceRoomKeepsValid(context.rooms, context.equipments, context.reservations, context.users,
                          context.nextRoomId, context.nextReservationId, i, updated.Record());
    context.rooms := context.rooms[i := updated.Record()];
    res := Success(());
  }

  /** `r.RoomId == id && r.Status != ReservationStatus.Cancelled` for some row. */
  predicate HasLiveReservations(rs: seq<Reservation>, id: int) {
    exists r :: r in rs && r.roomId == id && r.status != Cancelled
  }

  /** The rooms that remain after removing room `id`. */
  function OtherRoom(id: int): RoomRecord -> bool {
    (room: RoomRecord) => room.id != id
  }

  /** The reservations that remain after the cascade from room `id`. */
  function NotInRoom(id: int): Reservation -> bool {
    (r: Reservation) => r.roomId != id
  }

  /** Removing a room and, by cascade, its reservations keeps the store valid. */
  lemma {:induction false} RemoveRoomKeepsValid(
    rooms: seq<RoomRecord>, equipments: seq<Equipment>, rs: seq<Reservation>, users: map<string, string>,
    nextRoomId: int, nextReservationId: int, id: int)
    requires RoomsTableValid(rooms, equipments, nextRoomId)
    requires ReservationsValid(rs, rooms, users, nextReservationId)
    ensures RoomsTableValid(Filter(rooms, OtherRoom(id)), equipments, nextRoomId)
    ensures ReservationsValid(Filter(rs, NotInRoom(id)), Filter(rooms, OtherRoom(id)), users, nextReservationId)
  {
    var rooms' := Filter(rooms, OtherRoom(id));
    FilterKeepsIncreasing(rooms, OtherRoom(id), RoomKey);
    forall r | r in rs && NotInRoom(id)(r) ensures RoomExists(rooms', r.roomId) {
      var x :| x in rooms && x.id == r.roomId;
      assert OtherRoom(id)(x);
    }
    FilterKeepsValid(rs, rooms, rooms', users, nextReservationId, NotInRoom(id));
  }

  /** `DeleteRoomAsync`: NotFound for an unknown key; a ValidationError with
      nothing changed while a non-cancelled reservation holds the room;
      otherwise the room is removed together with its reservations, all of
      which were cancelled. */
  method DeleteRoom(context: BookingContext, id: int) returns (res: Result<()>)
    requires context.Valid()
    modifies context
    ensures context.Valid()
    ensures
      var found := IndexOf(old(context.rooms), RoomKey, id);
      var live := HasLiveReservations(old(context.reservations), id);
      && (found.None? ==> res == Fail(NotFound("Room", Some(IntToString(id)))))
      && (found.Some? && live ==> res == Fail(Validation(ActiveReservationsMessage)))
      && (found.Some? && !live ==> res == Success(()))
    ensures res.Fail? ==> context.rooms == old(context.rooms) && context.reservations == old(context.reservations)
    ensures res.Success? ==>
      && context.rooms == Filter(old(context.rooms), OtherRoom(id))
      && context.reservations == Filter(old(context.reservations), NotInRoom(id))
      && !RoomExists(context.rooms, id)
      && (forall r :: r in old(context.reservations) && r.roomId == id ==> r.status == Cancelled)
    ensures context.nextRoomId == old(context.nextRoomId) && context.equipments == old(context.equipments)
    ensures context.users == old(context.users) && context.nextReservationId == old(context.nextReservationId)
  {
    var found := IndexOf(context.rooms, RoomKey, id);
    if found.None? {
      return Fail(NotFound("Room", Some(IntToString(id))));
    }
    if HasLiveReservations(context.reservations, id) {
      return Fail(Validation(ActiveReservationsMessage));
    }
    RemoveRoomKeepsValid(context.rooms, context.equipments, context.reservations, context.users,
                         context.nextRoomId, context.nextReservationId, id);
    context.rooms := Filter(context.rooms, OtherRoom(id));
    context.reservations := Filter(context.reservations, NotInRoom(id));
    res := Success(());
  }
}
