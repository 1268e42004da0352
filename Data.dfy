/** The store the services work on: the tables of BookingContext with the
    constraints their configurations declare. Key generation follows
    SQLite AUTOINCREMENT: each table hands out keys in increasing order. */
module Data {
  import opened Seqs
  import opened Rooms
  import opened Reservations

  class BookingContext {
    var equipments: seq<Equipment>
    var rooms: seq<RoomRecord>
    var reservations: seq<Reservation>
    /** AspNetUsers, as user id to email. */
    var users: map<string, string>
    var nextRoomId: int
    var nextReservationId: int

    /** Every table satisfies its keys, foreign keys and unique indexes, and
        active bookings of a room never overlap. */
    ghost predicate Valid()
      reads this
    {
      && IncreasingBy(equipments, EquipmentKey)
      && RoomsTableValid(rooms, equipments, nextRoomId)
      && ReservationsValid(reservations, rooms, users, nextReservationId)
    }

    /** A fresh database: the seeded equipment, no rooms, no reservations. */
    constructor (users: map<string, string>)
      ensures Valid()
      ensures equipments == SeededEquipments && rooms == [] && reservations == []
      ensures this.users == users && nextRoomId == 1 && nextReservationId == 1
    {
      equipments := SeededEquipments;
      rooms := [];
      reservations := [];
      this.users := users;
      nextRoomId := 1;
      nextReservationId := 1;
    }
  }
}
