/** Reservations: the entity (Features/Reservations/Reservation.cs), its
    request and response records and mappings
    (Features/Reservations/ReservationMappings.cs), the overlap rule the
    service enforces and the store constraints of the Reservations table
    (Features/Reservations/ReservationConfiguration.cs). */
module Reservations {
  import opened Seqs
  import opened Calendar
  import opened Rooms

  datatype ReservationStatus = Active | Cancelled

  /** `Status.ToString()`: the enum member's name. */
  function StatusName(s: ReservationStatus): (name: string)
    ensures name == "Active" <==> s == Active
    ensures name == "Cancelled" <==> s == Cancelled
  {
    match s
    case Active => "Active"
    case Cancelled => "Cancelled"
  }

  /** A row of Reservations. Instants are UTC ticks. */
  datatype Reservation = Reservation(
    id: int,
    roomId: int,
    userId: string,
    startTimeUtc: Ticks,
    endTimeUtc: Ticks,
    status: ReservationStatus,
    createdAtUtc: Ticks)

  /** A `TimeOnly`: ticks since midnight. */
  type TimeOfDay = t: nat | t < TicksPerDay

  datatype CreateReservationRequest = CreateReservationRequest(roomId: int, date: Date, startTime: TimeOfDay, endTime: TimeOfDay)

  datatype GetReservationResponse = GetReservationResponse(
    id: int,
    roomId: int,
    roomName: string,
    userId: string,
    userName: string,
    startTimeUtc: Ticks,
    endTimeUtc: Ticks,
    status: string)

  function ReservationKey(r: Reservation): int { r.id }

  /** `request.ToReservation(userId, startUtc, endUtc)` with the entity's
      defaults: no key yet, status Active, created at the current instant. */
  function ToReservation(request: CreateReservationRequest, userId: string, startUtc: Ticks, endUtc: Ticks, nowUtc: Ticks): (r: Reservation)
    ensures r.roomId == request.roomId && r.userId == userId
    ensures r.startTimeUtc == startUtc && r.endTimeUtc == endUtc
    ensures r.status == Active && r.createdAtUtc == nowUtc && r.id == 0
  {
    Reservation(0, request.roomId, userId, startUtc, endUtc, Active, nowUtc)
  }

  /** `reservation.ToDto()` once the room and the user are loaded: the room's
      name and the user's email travel with the reservation. */
  function ToDto(r: Reservation, roomName: string, userEmail: string): (d: GetReservationResponse)
    ensures d.id == r.id && d.roomId == r.roomId && d.userId == r.userId
    ensures d.startTimeUtc == r.startTimeUtc && d.endTimeUtc == r.endTimeUtc
    ensures d.roomName == roomName && d.userName == userEmail
    ensures d.status == StatusName(r.status)
  {
    GetReservationResponse(r.id, r.roomId, roomName, r.userId, userEmail, r.startTimeUtc, r.endTimeUtc, StatusName(r.status))
  }

  /** The response keeps everything of the reservation but its creation instant. */
  lemma ToDtoKeepsReservation(a: Reservation, b: Reservation, roomName: string, userEmail: string)
    requires ToDto(a, roomName, userEmail) == ToDto(b, roomName, userEmail)
    ensures a.(createdAtUtc := 0) == b.(createdAtUtc := 0)
  {
    var da, db := ToDto(a, roomName, userEmail), ToDto(b, roomName, userEmail);
    assert StatusName(a.status) == da.status == db.status == StatusName(b.status);
  }

  /** The filter of the overlap query: an Active booking of the same room whose
      half-open interval [start, end) meets the requested one. */
  predicate Blocks(r: Reservation, roomId: int, startUtc: Ticks, endUtc: Ticks) {
    r.roomId == roomId && r.status == Active && r.startTimeUtc < endUtc && r.endTimeUtc > startUtc
  }

  /** `context.Reservations.AnyAsync(...)` with the filter above. */
  function OverlapExists(rs: seq<Reservation>, roomId: int, startUtc: Ticks, endUtc: Ticks): (b: bool)
    ensures b <==> exists r :: r in rs && Blocks(r, roomId, startUtc, endUtc)
  {
    if rs == [] then false
    else Blocks(rs[0], roomId, startUtc, endUtc) || OverlapExists(rs[1..], roomId, startUtc, endUtc)
  }

  /** Cancelled bookings, bookings of other rooms and bookings that only touch
      the requested interval never block it. */
  lemma NonBlockingCases(r: Reservation, roomId: int, startUtc: Ticks, endUtc: Ticks)
    ensures r.status == Cancelled ==> !Blocks(r, roomId, startUtc, endUtc)
    ensures r.roomId != roomId ==> !Blocks(r, roomId, startUtc, endUtc)
    ensures r.endTimeUtc == startUtc || r.startTimeUtc == endUtc ==> !Blocks(r, roomId, startUtc, endUtc)
  {
  }

  /** Two bookings of one room overlap under the same half-open rule. */
  predicate Overlap(a: Reservation, b: Reservation) {
    a.startTimeUtc < b.endTimeUtc && a.endTimeUtc > b.startTimeUtc
  }

  /** Blocking is symmetric: a booking blocks a request exactly when the
      booking the request would become overlaps it. */
  lemma BlocksIsOverlap(r: Reservation, n: Reservation)
    requires r.roomId == n.roomId && r.status == Active
    ensures Blocks(r, n.roomId, n.startTimeUtc, n.endTimeUtc) <==> Overlap(r, n) && Overlap(n, r)
  {
  }

  /** The unique index on (RoomId, StartTimeUtc, EndTimeUtc): some stored row,
      of any status, already has this exact slot. */
  predicate SlotTaken(rs: seq<Reservation>, roomId: int, startUtc: Ticks, endUtc: Ticks) {
    exists r :: r in rs && r.roomId == roomId && r.startTimeUtc == startUtc && r.endTimeUtc == endUtc
  }

  /** Active bookings of one room are pairwise non-overlapping. */
  predicate ActiveDisjoint(rs: seq<Reservation>) {
    forall a, b :: a in rs && b in rs && a.id != b.id && a.roomId == b.roomId && a.status == Active && b.status == Active ==>
      !Overlap(a, b)
  }

  /** No two rows share a (room, start, end) slot. */
  predicate SlotsUnique(rs: seq<Reservation>) {
    forall a, b :: a in rs && b in rs && a.id != b.id && a.roomId == b.roomId ==>
      !(a.startTimeUtc == b.startTimeUtc && a.endTimeUtc == b.endTimeUtc)
  }

  /** What the creation pipeline guarantees of every row it stores: the start
      is not after the end. */
  predicate WellFormed(r: Reservation) {
    r.startTimeUtc <= r.endTimeUtc
  }

  /** The Reservations table: keys handed out in increasing order below the
      next key, every row well formed, its room and user existing, active
      bookings disjoint and slots unique. */
  predicate ReservationsValid(rs: seq<Reservation>, rooms: seq<RoomRecord>, users: map<string, string>, nextReservationId: int) {
    && IncreasingBy(rs, ReservationKey)
    && (forall r :: r in rs ==> r.id < nextReservationId && WellFormed(r))
    && (forall r :: r in rs ==> RoomExists(rooms, r.roomId) && r.userId in users)
    && ActiveDisjoint(rs)
    && SlotsUnique(rs)
  }

  /** Inserting a booking that the overlap query let through and that the
      unique index accepts, under the next key, keeps the table valid. */
  lemma {:induction false} InsertKeepsValid(rs: seq<Reservation>, rooms: seq<RoomRecord>, users: map<string, string>, nextReservationId: int, n: Reservation)
    requires ReservationsValid(rs, rooms, users, nextReservationId)
    requires n.id == nextReservationId && WellFormed(n) && n.status == Active
    requires RoomExists(rooms, n.roomId) && n.userId in users
    requires !OverlapExists(rs, n.roomId, n.startTimeUtc, n.endTimeUtc)
    requires !SlotTaken(rs, n.roomId, n.startTimeUtc, n.endTimeUtc)
    ensures ReservationsValid(rs + [n], rooms, users, nextReservationId + 1)
  {
    var rs' := rs + [n];
    forall i, j | 0 <= i < j < |rs'| ensures ReservationKey(rs'[i]) < ReservationKey(rs'[j]) {
      if j == |rs| {
        assert rs'[i] in rs;
      } else {
        assert rs'[i] == rs[i] && rs'[j] == rs[j];
      }
    }
    forall a, b | a in rs' && b in rs' && a.id != b.id && a.roomId == b.roomId && a.status == Active && b.status == Active
      ensures !Overlap(a, b)
    {
      if a == n {
        assert !Blocks(b, n.roomId, n.startTimeUtc, n.endTimeUtc);
      } else if b == n {
        assert !Blocks(a, n.roomId, n.startTimeUtc, n.endTimeUtc);
      }
    }
  }

  /** Cancelling one row keeps the table valid. */
  lemma {:induction false} CancelKeepsValid(rs: seq<Reservation>, rooms: seq<RoomRecord>, users: map<string, string>, nextReservationId: int, i: nat)
    requires ReservationsValid(rs, rooms, users, nextReservationId)
    requires i < |rs|
    ensures ReservationsValid(rs[i := rs[i].(status := Cancelled)], rooms, users, nextReservationId)
  {
    var rs' := rs[i := rs[i].(status := Cancelled)];
    forall r | r in rs' ensures r in rs || r == rs[i].(status := Cancelled) {
      var k :| 0 <= k < |rs'| && rs'[k] == r;
    }
    forall a, b | a in rs' && b in rs' && a.id != b.id && a.roomId == b.roomId
      ensures !(a.startTimeUtc == b.startTimeUtc && a.endTimeUtc == b.endTimeUtc)
    {
      var a0 := if a in rs then a else rs[i];
      var b0 := if b in rs then b else rs[i];
      assert a0 in rs && b0 in rs && a0.id == a.id && b0.id == b.id;
    }
  }

  /** The table stays valid against a new table of rooms as long as every
      room a row references is still there. */
  lemma RoomsChangeKeepsValid(rs: seq<Reservation>, rooms: seq<RoomRecord>, rooms': seq<RoomRecord>, users: map<string, string>, nextReservationId: int)
    requires ReservationsValid(rs, rooms, users, nextReservationId)
    requires forall r :: r in rs ==> RoomExists(rooms', r.roomId)
    ensures ReservationsValid(rs, rooms', users, nextReservationId)
  {
  }

  /** Removing rows keeps the rest valid against a table of rooms that still
      holds the rooms they reference. */
  lemma {:induction false} FilterKeepsValid(rs: seq<Reservation>, rooms: seq<RoomRecord>, rooms': seq<RoomRecord>, users: map<string, string>, nextReservationId: int, keep: Reservation -> bool)
    requires ReservationsValid(rs, rooms, users, nextReservationId)
    requires forall r :: r in rs && keep(r) ==> RoomExists(rooms', r.roomId)
    ensures ReservationsValid(Filter(rs, keep), rooms', users, nextReservationId)
  {
    FilterKeepsIncreasing(rs, keep, ReservationKey);
  }

  /** `OrderBy(r => r.StartTimeUtc)` */
  predicate SortedByStart(rs: seq<Reservation>) {
    forall i, j :: 0 <= i < j < |rs| ==> rs[i].startTimeUtc <= rs[j].startTimeUtc
  }

  /** Insertion of one row into a list ordered by start, before the rows
      that start at the same instant. */
  function InsertByStart(r: Reservation, sorted: seq<Reservation>): (s: seq<Reservation>)
    ensures multiset(s) == multiset(sorted) + multiset{r}
    ensures |s| == |sorted| + 1
    ensures s[0] == r || (sorted != [] && s[0] == sorted[0])
  {
    if sorted == [] || r.startTimeUtc <= sorted[0].startTimeUtc then [r] + sorted
    else
      assert sorted == [sorted[0]] + sorted[1..];
      [sorted[0]] + InsertByStart(r, sorted[1..])
  }

  /** Insertion keeps a list ordered by start. */
  lemma {:induction false} InsertByStartSorted(r: Reservation, sorted: seq<Reservation>)
    requires SortedByStart(sorted)
    ensures SortedByStart(InsertByStart(r, sorted))
  {
    if sorted == [] || r.startTimeUtc <= sorted[0].startTimeUtc {
    } else {
      var rest := InsertByStart(r, sorted[1..]);
      InsertByStartSorted(r, sorted[1..]);
      var s := InsertByStart(r, sorted);
      assert s == [sorted[0]] + rest;
      forall i, j | 0 <= i < j < |s| ensures s[i].startTimeUtc <= s[j].startTimeUtc {
        assert s[j] == rest[j - 1];
        if i == 0 {
          assert sorted[0].startTimeUtc <= rest[0].startTimeUtc;
        } else {
          assert s[i] == rest[i - 1];
        }
      }
    }
  }

  /** The rows ordered by start instant: a permutation of its input. */
  function SortByStart(rs: seq<Reservation>): (s: seq<Reservation>)
    ensures SortedByStart(s)
    ensures multiset(s) == multiset(rs)
  {
    if rs == [] then []
    else
      assert rs == [rs[0]] + rs[1..];
      InsertByStartSorted(rs[0], SortByStart(rs[1..]));
      InsertByStart(rs[0], SortByStart(rs[1..]))
  }

  /** Sorting keeps the rows: as many, and the same ones. */
  lemma SortByStartKeepsRows(rs: seq<Reservation>)
    ensures |SortByStart(rs)| == |rs|
    ensures forall r :: r in SortByStart(rs) <==> r in rs
  {
    var sorted := SortByStart(rs);
    assert |sorted| == |multiset(sorted)| == |multiset(rs)| == |rs|;
    forall r ensures r in sorted <==> r in rs {
      assert r in sorted <==> r in multiset(sorted);
      assert r in rs <==> r in multiset(rs);
    }
  }
}
