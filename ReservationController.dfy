/** The reservations controller (Features/Reservations/ReservationController.cs):
    the caller's identity arrives as `isAdmin` and `callerId`, read from the
    token's claims. */
module ReservationController {
  import opened Results
  import opened Calendar
  import opened Rooms
  import opened Reservations
  import opened PublicHolidays
  import opened Data
  import opened Api
  import Service = ReservationService

  /** The route the created reservation points to. */
  const GetByIdRouteName := "GetReservationByIdAsync"

  /** `GET api/reservations`: an administrator lists every reservation, anyone
      else only their own; both come back with 200. */
  function ListReservations(context: BookingContext, isAdmin: bool, callerId: string): (a: ActionResult<seq<GetReservationResponse>>)
    reads context
    requires context.Valid()
    ensures a.Ok? && StatusCode(a) == 200
    ensures isAdmin ==> |a.value| == |context.reservations|
    ensures isAdmin ==> forall r :: r in context.reservations ==>
      Service.ReservationDto(context.rooms, context.users, r) in a.value
    ensures !isAdmin ==> forall d :: d in a.value ==> d.userId == callerId
    ensures !isAdmin ==> forall r :: r in context.reservations && r.userId == callerId ==>
      Service.ReservationDto(context.rooms, context.users, r) in a.value
  {
    if isAdmin then FromValueResult(Service.GetAllReservations(context))
    else FromValueResult(Service.GetReservationsByUser(context, callerId))
  }

  /** `GET api/reservations/{id}`: the service throws, so the action does too. */
  function GetReservationById(id: int): (c: Completion<ActionResult<GetReservationResponse>>)
    ensures c == Threw(NotImplemented)
  {
    match Service.GetReservation(id)
    case Threw(e) => Threw(e)
    case Returned(result) => Returned(FromValueResult(result))
  }

  /** `POST api/reservations`: the owner is always the caller. A refused
      request answers with the mapped error of the service and stores
      nothing; an accepted one answers 201 pointing at the new reservation's
      route, with the response of the stored row as body. */
  method CreateReservation(context: BookingContext, holidays: PublicHolidayService, request: CreateReservationRequest,
                           callerId: string, toUtc: (Date, TimeOfDay) -> Ticks, nowUtc: Ticks)
    returns (c: Completion<ActionResult<GetReservationResponse>>)
    requires context.Valid()
    modifies context, holidays
    ensures context.Valid()
    ensures context.rooms == old(context.rooms) && context.equipments == old(context.equipments)
    ensures context.users == old(context.users) && context.nextRoomId == old(context.nextRoomId)
    ensures c.Returned? ==> StatusCode(c.value) in {201, 400, 404, 409}
    ensures c.Returned? && c.value.ObjectResult? ==> context.reservations == old(context.reservations)
    ensures c.Returned? && c.value.CreatedAtRoute? ==>
      && c.value.routeName == GetByIdRouteName
      && c.value.id == c.value.value.id
      && c.value.value.userId == callerId
      && c.value.value.status == "Active"
      && |context.reservations| == |old(context.reservations)| + 1
      && context.reservations[..|old(context.reservations)|] == old(context.reservations)
      && context.reservations[|old(context.reservations)|].id == c.value.id
      && context.reservations[|old(context.reservations)|].userId == callerId
      && context.reservations[|old(context.reservations)|].status == Active
    ensures c.Threw? ==> context.reservations == old(context.reservations)
    ensures
      var startUtc := toUtc(request.date, request.startTime);
      var endUtc := toUtc(request.date, request.endTime);
      var check := Service.CheckRequest(old(context.rooms), old(context.reservations), request.roomId, startUtc, endUtc, nowUtc);
      var answer := old(holidays.Answer(DateOf(startUtc), Service.HolidayCountry));
      var n := ToReservation(request, callerId, startUtc, endUtc, nowUtc).(id := old(context.nextReservationId));
      var accepted := check.None? && answer == Returned(false) && Service.Insertable(old(context.reservations), old(context.users), n);
      && (check.Some? ==> c == Returned(MapErrorToActionResult(check.value)) && unchanged(holidays))
      && (check.None? ==> holidays.queries == old(holidays.queries) + [(DateOf(startUtc), Service.HolidayCountry)])
      && (check.None? ==> Service.HolidayLookupEffect(holidays.cache, holidays.requests, old(holidays.cache), old(holidays.requests),
                                                       DateOf(startUtc).year, old(holidays.HolidaysFor(DateOf(startUtc).year, Service.HolidayCountry))))
      && (check.None? && answer.Threw? ==> c == Threw(answer.exception))
      && (check.None? && answer == Returned(true) ==> c == Returned(ObjectResult(400, Service.HolidayMessage)))
      && (check.None? && answer == Returned(false) && !accepted ==> c == Threw(DbUpdateFailed))
      && (accepted ==>
            && context.reservations == old(context.reservations) + [n]
            && context.nextReservationId == old(context.nextReservationId) + 1
            && c == Returned(CreatedAtRoute(GetByIdRouteName, n.id,
                 ToDto(n, RoomWithId(old(context.rooms), request.roomId).name, old(context.users)[callerId]))))
      && (!accepted ==>
            context.reservations == old(context.reservations) && context.nextReservationId == old(context.nextReservationId))
  {
    var result := Service.CreateReservation(context, holidays, request, callerId, toUtc, nowUtc);
    match result
    case Threw(e) =>
      return Threw(e);
    case Returned(r) =>
      if r.Fail? {
        return Returned(FromValueResult(r));
      }
      return Returned(CreatedAtRoute(GetByIdRouteName, r.value.id, r.value));
  }
}
