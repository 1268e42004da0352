/** The reservation service (Features/Reservations/ReservationService.cs):
    the creation pipeline, the two list queries and cancellation. The
    local-to-UTC conversion of the requested times is the parameter `toUtc`
    and the clock reading is the parameter `nowUtc`. */
module ReservationService {
  import opened Optional
  import opened Results
  import opened Text
  import opened Calendar
  import opened Seqs
  import opened Rooms
  import opened Reservations
  import opened PublicHolidays
  import opened Data

  const PastStartMessage := "Reservation start time must be in the future."
  const OrderMessage := "Start time must be before end time."
  const ConflictMessage := "The room is already booked for the requested time slot."
  const HolidayMessage := "Reservations cannot be made on public holidays."
  const AlreadyCancelledMessage := "Reservation is already cancelled."
  /** The country whose public holidays block reservations. */
  const HolidayCountry := "MX"

  /** The checks of `CreateReservationAsync` that run before the holiday
      lookup, in their order; None when the request passes all of them. */
  function CheckRequest(rooms: seq<RoomRecord>, rs: seq<Reservation>, roomId: int, startUtc: Ticks, endUtc: Ticks, nowUtc: Ticks): (e: Option<Error>)
    ensures startUtc <= nowUtc ==> e == Some(Validation(PastStartMessage))
    ensures nowUtc < startUtc && startUtc > endUtc ==> e == Some(Validation(OrderMessage))
    ensures nowUtc < startUtc <= endUtc && !RoomExists(rooms, roomId) ==>
      e == Some(NotFound("Room", Some(IntToString(roomId))))
    ensures nowUtc < startUtc <= endUtc && RoomExists(rooms, roomId) ==>
      (e == Some(Conflict(ConflictMessage)) <==> exists r :: r in rs && Blocks(r, roomId, startUtc, endUtc))
    ensures e.None? <==>
      nowUtc < startUtc <= endUtc && RoomExists(rooms, roomId) && !OverlapExists(rs, roomId, startUtc, endUtc)
  {
    if startUtc <= nowUtc then Some(Validation(PastStartMessage))
    else if startUtc > endUtc then Some(Validation(OrderMessage))
    else if IndexOf(rooms, RoomKey, roomId).None? then Some(NotFound("Room", Some(IntToString(roomId))))
    else if OverlapExists(rs, roomId, startUtc, endUtc) then Some(Conflict(ConflictMessage))
    else None
  }

  /** A zero-length booking passes the order check: only a start strictly
      after the end is refused. */
  lemma ZeroLengthPassesOrderCheck(rooms: seq<RoomRecord>, rs: seq<Reservation>, roomId: int, t: Ticks, nowUtc: Ticks)
    requires nowUtc < t
    ensures CheckRequest(rooms, rs, roomId, t, t, nowUtc) != Some(Validation(OrderMessage))
  {
  }

  /** Re-booking the exact slot of a stored reservation (a cancelled one,
      say) for a future start, when no Active booking of the room overlaps
      it, passes every check before the holiday lookup, yet the unique slot index refuses it:
      on a date that is not a holiday the insert throws (`CreateReservation`). */
  lemma CancelledSlotPassesChecks(rooms: seq<RoomRecord>, rs: seq<Reservation>, r: Reservation, nowUtc: Ticks)
    requires r in rs && RoomExists(rooms, r.roomId) && nowUtc < r.startTimeUtc <= r.endTimeUtc
    requires !OverlapExists(rs, r.roomId, r.startTimeUtc, r.endTimeUtc)
    ensures CheckRequest(rooms, rs, r.roomId, r.startTimeUtc, r.endTimeUtc, nowUtc).None?
    ensures SlotTaken(rs, r.roomId, r.startTimeUtc, r.endTimeUtc)
    ensures r.startTimeUtc < r.endTimeUtc ==> r.status == Cancelled
  {
  }

  /** What the unique slot index and the user foreign key let through. */
  predicate Insertable(rs: seq<Reservation>, users: map<string, string>, n: Reservation) {
    !SlotTaken(rs, n.roomId, n.startTimeUtc, n.endTimeUtc) && n.userId in users
  }

  /** What one holiday lookup for `year` does to the memo cache and to the
      requests sent: a cached year is served without a request; an uncached
      one sends one request and is cached exactly when the request succeeds;
      entries already cached are kept. `fetched` is the list the lookup yields
      or the exception it throws. */
  ghost predicate HolidayLookupEffect(cache: map<string, seq<PublicHolidayResponse>>, requests: seq<(int, string)>,
                                      cache0: map<string, seq<PublicHolidayResponse>>, requests0: seq<(int, string)>,
                                      year: int, fetched: Completion<seq<PublicHolidayResponse>>)
  {
    var key := CacheKey(HolidayCountry, year);
    && (key in cache0 ==> cache == cache0 && requests == requests0)
    && (key !in cache0 ==> requests == requests0 + [(year, HolidayCountry)])
    && (fetched.Returned? ==> key in cache && cache[key] == fetched.value)
    && (fetched.Threw? ==> cache == cache0)
    && cache.Keys <= cache0.Keys + {key}
    && (forall k :: k in cache0 ==> k in cache && cache[k] == cache0[k])
  }

  /** `CreateReservationAsync`. The checks short-circuit in order; the holiday
      service is asked about the UTC date of the start only once they pass;
      the insert is refused by the store when the slot is taken by a row of
      any status or the user does not exist. On success exactly one Active
      row owned by `userId` is added under the next key. */
  method CreateReservation(context: BookingContext, holidays: PublicHolidayService, request: CreateReservationRequest,
                           userId: string, toUtc: (Date, TimeOfDay) -> Ticks, nowUtc: Ticks)
    returns (c: Completion<Result<GetReservationResponse>>)
    requires context.Valid()
    modifies context, holidays
    ensures context.Valid()
    ensures context.rooms == old(context.rooms) && context.equipments == old(context.equipments)
    ensures context.users == old(context.users) && context.nextRoomId == old(context.nextRoomId)
    ensures
      var startUtc := toUtc(request.date, request.startTime);
      var endUtc := toUtc(request.date, request.endTime);
      var check := CheckRequest(old(context.rooms), old(context.reservations), request.roomId, startUtc, endUtc, nowUtc);
      var answer := old(holidays.Answer(DateOf(startUtc), HolidayCountry));
      var n := ToReservation(request, userId, startUtc, endUtc, nowUtc).(id := old(context.nextReservationId));
      var accepted := check.None? && answer == Returned(false) && Insertable(old(context.reservations), old(context.users), n);
      && (check.Some? ==> c == Returned(Fail(check.value)) && unchanged(holidays))
      && (check.None? ==> holidays.queries == old(holidays.queries) + [(DateOf(startUtc), HolidayCountry)])
      && (check.None? ==> HolidayLookupEffect(holidays.cache, holidays.requests, old(holidays.cache), old(holidays.requests),
                                               DateOf(startUtc).year, old(holidays.HolidaysFor(DateOf(startUtc).year, HolidayCountry))))
      && (check.None? && answer.Threw? ==> c == Threw(answer.exception))
      && (check.None? && answer == Returned(true) ==> c == Returned(Fail(Validation(HolidayMessage))))
      && (check.None? && answer == Returned(false) && !accepted ==> c == Threw(DbUpdateFailed))
      && (accepted ==>
            && context.reservations == old(context.reservations) + [n]
            && context.nextReservationId == old(context.nextReservationId) + 1
            && c == Returned(Success(ToDto(n, RoomWithId(old(context.rooms), request.roomId).name, old(context.users)[userId]))))
      && (!accepted ==>
            context.reservations == old(context.reservations) && context.nextReservationId == old(context.nextReservationId))
  {
    var startUtc := toUtc(request.date, request.startTime);
    var endUtc := toUtc(request.date, request.endTime);
    var check := CheckRequest(context.rooms, context.reservations, request.roomId, startUtc, endUtc, nowUtc);
    if check.Some? {
      return Returned(Fail(check.value));
    }
    var isHoliday := holidays.IsPublicPublicHoliday(DateOf(startUtc), HolidayCountry);
    if isHoliday.Threw? {
      return Threw(isHoliday.exception);
    }
    if isHoliday.value {
      return Returned(Fail(Validation(HolidayMessage)));
    }
    var n := ToReservation(request, userId, startUtc, endUtc, nowUtc).(id := context.nextReservationId);
    if !Insertable(context.reservations, context.users, n) {
      return Threw(DbUpdateFailed);
    }
    InsertKeepsValid(context.reservations, context.rooms, context.users, context.nextReservationId, n);
    context.reservations := context.reservations + [n];
    context.nextReservationId := context.nextReservationId + 1;
    var room := RoomWithId(context.rooms, request.roomId);
    return Returned(Success(ToDto(n, room.name, context.users[userId])));
  }

  /** `GetReservationAsync` is not implemented: every call throws. */
  function GetReservation(reservationId: int): (c: Completion<Result<GetReservationResponse>>)
    ensures c.Threw? && c.exception == NotImplemented
  {
    Threw(NotImplemented)
  }

  /** Every row references an existing room and user, so `ToDto` can load both. */
  predicate References(rooms: seq<RoomRecord>, users: map<string, string>, rs: seq<Reservation>) {
    forall r :: r in rs ==> RoomExists(rooms, r.roomId) && r.userId in users
  }

  /** `r.ToDto()` with the room and the user loaded from the store. */
  function ReservationDto(rooms: seq<RoomRecord>, users: map<string, string>, r: Reservation): GetReservationResponse
    requires RoomExists(rooms, r.roomId) && r.userId in users
  {
    ToDto(r, RoomWithId(rooms, r.roomId).name, users[r.userId])
  }

  /** `.Select(r => r.ToDto())`: one response per row, in row order. */
  function Dtos(rooms: seq<RoomRecord>, users: map<string, string>, rs: seq<Reservation>): (ds: seq<GetReservationResponse>)
    requires References(rooms, users, rs)
    ensures |ds| == |rs|
    ensures forall i :: 0 <= i < |rs| ==> ds[i] == ReservationDto(rooms, users, rs[i])
  {
    seq(|rs|, i requires 0 <= i < |rs| => ReservationDto(rooms, users, rs[i]))
  }

  /** The responses are exactly those of the rows. */
  lemma DtosMembership(rooms: seq<RoomRecord>, users: map<string, string>, rs: seq<Reservation>)
    requires References(rooms, users, rs)
    ensures forall d :: d in Dtos(rooms, users, rs) <==> exists r :: r in rs && d == ReservationDto(rooms, users, r)
  {
    var ds := Dtos(rooms, users, rs);
    forall d | d in ds ensures exists r :: r in rs && d == ReservationDto(rooms, users, r) {
      var i :| 0 <= i < |ds| && ds[i] == d;
      assert rs[i] in rs;
    }
    forall r | r in rs ensures ReservationDto(rooms, users, r) in ds {
      var i :| 0 <= i < |rs| && rs[i] == r;
      assert ds[i] == ReservationDto(rooms, users, r);
    }
  }

  /** `.OrderBy(r => r.StartTimeUtc)` then `.Select(r => r.ToDto())`: one
      response per row, ordered by start. */
  function OrderedDtos(rooms: seq<RoomRecord>, users: map<string, string>, rs: seq<Reservation>): (ds: seq<GetReservationResponse>)
    requires References(rooms, users, rs)
    ensures |ds| == |rs|
    ensures forall i, j :: 0 <= i < j < |ds| ==> ds[i].startTimeUtc <= ds[j].startTimeUtc
    ensures forall d :: d in ds <==> exists r :: r in rs && d == ReservationDto(rooms, users, r)
  {
    var sorted := SortByStart(rs);
    SortByStartKeepsRows(rs);
    DtosMembership(rooms, users, sorted);
    Dtos(rooms, users, sorted)
  }

  /** The filter of `GetReservationsByUserAsync`. */
  function OwnedBy(userId: string): Reservation -> bool {
    (r: Reservation) => r.userId == userId
  }

  /** `GetReservationsByUserAsync`: the user's reservations of any status,
      each once, ordered by start. */
  function GetReservationsByUser(context: BookingContext, userId: string): (res: Result<seq<GetReservationResponse>>)
    reads context
    requires context.Valid()
    ensures res.Success?
    ensures |res.value| == |Filter(context.reservations, OwnedBy(userId))|
    ensures forall i, j :: 0 <= i < j < |res.value| ==> res.value[i].startTimeUtc <= res.value[j].startTimeUtc
    ensures forall d :: d in res.value <==>
      exists r :: r in context.reservations && r.userId == userId && d == ReservationDto(context.rooms, context.users, r)
    ensures forall d :: d in res.value ==> d.userId == userId
  {
    var owned := Filter(context.reservations, OwnedBy(userId));
    Success(OrderedDtos(context.rooms, context.users, owned))
  }

  /** `GetAllReservationsAsync`: every reservation, each once, ordered by start. */
  function GetAllReservations(context: BookingContext): (res: Result<seq<GetReservationResponse>>)
    reads context
    requires context.Valid()
    ensures res.Success?
    ensures |res.value| == |context.reservations|
    ensures forall i, j :: 0 <= i < j < |res.value| ==> res.value[i].startTimeUtc <= res.value[j].startTimeUtc
    ensures forall d :: d in res.value <==>
      exists r :: r in context.reservations && d == ReservationDto(context.rooms, context.users, r)
  {
    Success(OrderedDtos(context.rooms, context.users, context.reservations))
  }

  /** `CancelReservationAsync`: Active becomes Cancelled and nothing else
      changes; an unknown key or a second cancellation is refused with the
      store untouched. */
  method CancelReservation(context: BookingContext, reservationId: int) returns (res: Result<()>)
    requires context.Valid()
    modifies context
    ensures context.Valid()
    ensures context.rooms == old(context.rooms) && context.equipments == old(context.equipments)
    ensures context.users == old(context.users)
    ensures context.nextRoomId == old(context.nextRoomId) && context.nextReservationId == old(context.nextReservationId)
    ensures
      var found := IndexOf(old(context.reservations), ReservationKey, reservationId);
      && (found.None? ==>
            res == Fail(NotFound("Reservation", Some(IntToString(reservationId)))) &&
            context.reservations == old(context.reservations))
      && (found.Some? && old(context.reservations)[found.value].status == Cancelled ==>
            res == Fail(Validation(AlreadyCancelledMessage)) &&
            context.reservations == old(context.reservations))
      && (found.Some? && old(context.reservations)[found.value].status == Active ==>
            res == Success(()) &&
            context.reservations ==
              old(context.reservations)[found.value := old(context.reservations)[found.value].(status := Cancelled)])
  {
    var found := IndexOf(context.reservations, ReservationKey, reservationId);
    if found.None? {
      return Fail(NotFound("Reservation", Some(IntToString(reservationId))));
    }
    var i := found.value;
    if context.reservations[i].status == Cancelled {
      return Fail(Validation(AlreadyCancelledMessage));
    }
    CancelKeepsValid(context.reservations, context.rooms, context.users, context.nextReservationId, i);
    context.reservations := context.reservations[i := context.reservations[i].(status := Cancelled)];
    return Success(());
  }
}
