# Booking rooms — a Dafny model of the booking rules

This project models the rule core of the booking-rooms system in Dafny. The backend is an ASP.NET Core API over a SQLite store, and the web client is a small React app. The model covers the following:

- **Reservation service.** It has one creation pipeline, whose checks short-circuit in this order:
  1. the start is in the future;
  2. the start is not after the end;
  3. the room exists;
  4. no active booking of the room overlaps;
  5. the start's UTC date is not a Mexican public holiday;
  6. the store accepts the row.

  The service also has the two list queries and cancellation.
- **Room service.** It has the queries, plus create, update and delete. Equipment ids are resolved against the seeded equipment table. Deleting a room is refused while a live reservation holds it; otherwise the delete cascades to its reservations.
- **Mappings** between entities, requests and responses.
- **Store constraints**, stated as invariants of the `BookingContext` class:
  - keys increase;
  - foreign keys resolve;
  - the unique `(RoomId, StartTimeUtc, EndTimeUtc)` index holds;
  - active bookings of a room never overlap.

  Every command is proved to preserve them.
- **Public-holiday oracle.** This is the production memo cache in front of the HTTP service, plus the set-backed double used by the integration tests.
- **Error taxonomy** and its mapping to HTTP status codes.
- **Reservation controller**'s list dispatch and owner assignment.
- **Web client**: the route guard, the time padding of the reservation form, and the form's end-time check.

State that the source changes in place is held in classes:

- `Data.BookingContext` holds the tables.
- `Rooms.Room` is the tracked room entity that update edits in place.
- `PublicHolidays.PublicHolidayService` holds the cache.
- `FakePublicHolidays.FakePublicHolidayService` holds the configured dates.

Query expressions are functions, and the properties that relate several operations are lemmas.

The environment comes in as parameters:

- Instants are UTC ticks (`Calendar.Ticks`).
- The clock reading is the parameter `nowUtc`. The entity's `CreatedAtUtc` is taken from the same reading.
- The host-time-zone conversion of the requested local times is the parameter `toUtc`.
- The holiday HTTP endpoint is the function `fetch` that a `PublicHolidayService` is built with.
- `ReservationService.CreateReservation` takes the production `PublicHolidayService`, where the source depends on the `IPublicHolidayService` interface. Since `fetch` is arbitrary, any deterministic holiday oracle behind that interface is covered, including the integration tests' fake (modelled separately as `FakePublicHolidays.FakePublicHolidayService`).
- The caller's identity (`UserId`, `IsAdmin`) is passed to the controller.
- Exceptions that escape a call are `Results.Completion.Threw`:
  - a non-success holiday response;
  - a store constraint violation on insert;
  - the unimplemented lookup by id.

Where the code and the documented intent differ, the model follows the code:

- The order check refuses only a start strictly after the end (`startUtc > endUtc`), so a zero-length booking is accepted (`ReservationService.ZeroLengthPassesOrderCheck`). The web form, by contrast, refuses an end equal to the start (`ReservationForm.ValidateEndTimeOnClockTimes`).
- The unique slot index ignores the status. Take a stored slot that starts in the future and that no Active booking of its room overlaps, such as the slot of a cancelled reservation. Re-booking exactly that slot passes every check that runs before the holiday lookup (`ReservationService.CancelledSlotPassesChecks`). A slot of positive length that passes in this way is necessarily that of a cancelled reservation. On a date that is not a public holiday, the store then refuses it: this is the `Threw(DbUpdateFailed)` case of `ReservationService.CreateReservation`.
- `Reservation.UserId` is declared with a maximum length of 100. SQLite does not enforce declared lengths, so this is not an invariant of the model.

Result.cs is not part of this model. `Result<T>` and the non-generic `Result` are modelled as the tagged union `Results.Result<T>`, with `Result<()>` standing for the non-generic one.

## Model

| member | source | states |
|---|---|---|
| Results.NotFound | backend/BookingRooms.API/Common/Results/Error.cs:7-10 | code "NotFound"; the description starts with the entity name and ends with " was not found."; with a key it has " with key '" after the entity name, then the key text, then the closing quote, and the lengths fix which of the two texts it is |
| Results.NotFoundKeyDetermined | backend/BookingRooms.API/Common/Results/Error.cs:7-10 | the key can be read back from a NotFound description: equal errors for one entity came from equal keys |
| Results.Validation | backend/BookingRooms.API/Common/Results/Error.cs:12-13 | code "ValidationError", description passed through unchanged |
| Results.Conflict | backend/BookingRooms.API/Common/Results/Error.cs:15-16 | code "Conflict", description passed through unchanged |
| Results.Failure | backend/BookingRooms.API/Common/Results/Error.cs:18-19 | code "Failure", description passed through unchanged |
| Results.Unauthorized | backend/BookingRooms.API/Common/Results/Error.cs:21-22 | code "Unauthorized", description passed through unchanged |
| Results.FactoryCodesDistinct | backend/BookingRooms.API/Common/Results/Error.cs:5-22 | `None` has empty code and description; the six kinds of error use six different codes |
| Api.MapErrorToActionResult | backend/BookingRooms.API/Common/ApiControllerBase.cs:40-50 | the body is the description; 400, 404, 409 and 401 each exactly for their code; 500 exactly for every other code |
| Api.FromResult | backend/BookingRooms.API/Common/ApiControllerBase.cs:12-16 | success gives 204 No Content; failure gives exactly `MapErrorToActionResult` of the error, so a status among 400/401/404/409/500 with the description as body |
| Api.FromValueResult | backend/BookingRooms.API/Common/ApiControllerBase.cs:18-26 | success gives 200 carrying the value; failure gives exactly `MapErrorToActionResult` of the error, so a status among 400/401/404/409/500 with the description as body |
| Api.FromResultWith | backend/BookingRooms.API/Common/ApiControllerBase.cs:28-38 | success gives the caller's response for the value; failure gives exactly `MapErrorToActionResult` of the error, so a status among 400/401/404/409/500 with the description as body |
| Api.FactoriesLandOnIntendedStatus | backend/BookingRooms.API/Common/ApiControllerBase.cs:44-49 | each Error factory lands on its intended status (400, 404, 409, 401); Failure and None fall through to 500 |
| Text.NatToString | backend/BookingRooms.API/Common/Results/Error.cs:10 | the decimal rendering of a key is a non-empty string of digits |
| Text.NatToStringRoundTrip | backend/BookingRooms.API/Common/Results/Error.cs:10 | reading the digits back gives the number |
| Text.IntToString | backend/BookingRooms.API/Infrastructure/PublicHolidays/PublicHolidayService.cs:25 | the rendering is non-empty, digits after an optional '-', and starts with '-' exactly for negative numbers |
| Text.IntToStringInjective | backend/BookingRooms.API/Infrastructure/PublicHolidays/PublicHolidayService.cs:25 | distinct integers render differently |
| Calendar.DateOfFirstInstant | backend/BookingRooms.API/Features/Reservations/ReservationService.cs:53 | tick 0 is 0001-01-01 |
| Calendar.DateOfHolidayTestInstant | backend/BookingRooms.Specs/Integration/Reservations/ReservationsTests.cs:229-248 | the test books 2025-01-01 10:00 local time; on a UTC host that instant falls on 2025-01-01, and the last tick of 2024 falls on 2024-12-31 |
| PublicHolidays.HasPublicType | backend/BookingRooms.API/Infrastructure/PublicHolidays/PublicHolidayService.cs:17 | true exactly when some type equals "Public", ignoring case |
| PublicHolidays.IsPublicHolidayIn | backend/BookingRooms.API/Infrastructure/PublicHolidays/PublicHolidayService.cs:15-17 | true exactly when some entry is dated `date` and is typed Public |
| PublicHolidays.PublicTypeIgnoresCase | backend/BookingRooms.API/Infrastructure/PublicHolidays/PublicHolidayService.cs:17 | "PUBLIC" and "public" count; "Bank" and "School" do not; an empty type list does not |
| PublicHolidays.CacheKeyInjective | backend/BookingRooms.API/Infrastructure/PublicHolidays/PublicHolidayService.cs:25 | distinct (country, year) pairs get distinct cache keys, even for country codes that contain a colon |
| PublicHolidays.HolidaysOf | backend/BookingRooms.API/Infrastructure/PublicHolidays/PublicHolidayService.cs:38-39 | a null body is the empty list; otherwise the decoded list |
| PublicHolidays.PublicHolidayService.constructor | backend/BookingRooms.API/Infrastructure/PublicHolidays/PublicHolidayService.cs:5 | starts with an empty cache and no requests sent |
| PublicHolidays.PublicHolidayService.GetPublicHolidays | backend/BookingRooms.API/Infrastructure/PublicHolidays/PublicHolidayService.cs:20-44 | a hit returns the cached list and sends nothing; a miss sends exactly one request; a non-success status throws and caches nothing; a success caches the list under the key, so the next lookup is a hit with the same list |
| PublicHolidays.PublicHolidayService.IsPublicPublicHoliday | backend/BookingRooms.API/Infrastructure/PublicHolidays/PublicHolidayService.cs:8-18 | the answer is the list rule applied to the list of `date`'s year, or that list's exception; a cached year sends no request and an uncached one sends exactly one; cached entries are kept and at most that year's entry is added; a list obtained is cached under the year's key, and a throw leaves the cache unchanged |
| FakePublicHolidays.FakeHoliday | backend/BookingRooms.Specs/Integration/Reservations/FakePublicHolidayService.cs:12-20 | each entry the fake builds has the configured date, the given country and the single type "Public" |
| FakePublicHolidays.FakeYearListDates | backend/BookingRooms.Specs/Integration/Reservations/FakePublicHolidayService.cs:10-22 | the list's dates are exactly the configured dates of that year, whatever the country code |
| FakePublicHolidays.FakePublicHolidayService.constructor | backend/BookingRooms.Specs/Integration/Reservations/FakePublicHolidayService.cs:7 | starts with no configured dates |
| FakePublicHolidays.FakePublicHolidayService.IsPublicPublicHoliday | backend/BookingRooms.Specs/Integration/Reservations/FakePublicHolidayService.cs:8-24 | true exactly when `date` is configured, whatever the country; dates of other years never count; the configured set is not modified |
| FakePublicHolidays.FakeListIsPublicHolidayList | backend/BookingRooms.Specs/Integration/Reservations/FakePublicHolidayService.cs:14-24 | the production list rule accepts a fake entry on its own date |
| Seqs.Filter | backend/BookingRooms.API/Features/Reservations/ReservationService.cs:87 | `Where` keeps exactly the elements that satisfy the condition and never adds any |
| Seqs.FilterCounts | backend/BookingRooms.API/Features/Reservations/ReservationService.cs:87 | every kept element occurs as often as in the input; every other element does not occur |
| Seqs.FilterKeepsIncreasing | backend/BookingRooms.API/Features/Rooms/RoomService.cs:113 | removing rows keeps the keys of the rest increasing |
| Seqs.IncreasingKeysUnique | backend/BookingRooms.API/Features/Reservations/ReservationService.cs:112 | in a table with increasing keys, one key identifies one row |
| Seqs.IndexOf | backend/BookingRooms.API/Features/Reservations/ReservationService.cs:112 | lookup by key finds nothing exactly when no row has the key; otherwise it finds a row with the key |
| Rooms.Room.constructor | backend/BookingRooms.API/Features/Rooms/Room.cs:5-13 | a new room entity has no key yet and an empty equipment list |
| Rooms.Room.Load | backend/BookingRooms.API/Features/Rooms/RoomService.cs:74-76 | the tracked entity holds exactly the stored row |
| Rooms.ToRoom | backend/BookingRooms.API/Features/Rooms/RoomMappings.cs:18-26 | a fresh entity with the request's name, capacity and location, no key and no equipment |
| Rooms.ToRoomInPlace | backend/BookingRooms.API/Features/Rooms/RoomMappings.cs:28-34 | returns the same object; overwrites exactly name, capacity and location; key and equipment untouched |
| Rooms.EquipmentResponses | backend/BookingRooms.API/Features/Rooms/RoomMappings.cs:14 | one response per equipment, in order, with its id and name |
| Rooms.RoomResponse | backend/BookingRooms.API/Features/Rooms/RoomService.cs:39-45 | keeps the id, name, capacity and location, and maps the equipment one-to-one in order |
| Rooms.RoomResponseInjective | backend/BookingRooms.API/Features/Rooms/RoomMappings.cs:7-16 | the response loses nothing: equal responses come from equal rooms |
| Rooms.ToGetRoomResponse | backend/BookingRooms.API/Features/Rooms/RoomMappings.cs:7-16 | keeps the entity's id, name, capacity and location, and maps its equipment one-to-one in order |
| Rooms.SelectEquipments | backend/BookingRooms.API/Features/Rooms/RoomService.cs:85-87 | selects exactly the existing equipment whose id is listed (unknown ids select nothing), keeping the table's key order |
| Rooms.RoomWithId | backend/BookingRooms.API/Features/Rooms/RoomService.cs:29-32 | the row found by key is a stored room with that key |
| Data.BookingContext.constructor | backend/BookingRooms.API/Features/Equipments/EquipmentConfiguration.cs:14-19 | a fresh store holds the four seeded pieces of equipment and no rooms or reservations, and is valid |
| Reservations.StatusName | backend/BookingRooms.API/Features/Reservations/ReservationMappings.cs:15 | "Active" exactly for Active and "Cancelled" exactly for Cancelled |
| Reservations.ToReservation | backend/BookingRooms.API/Features/Reservations/ReservationMappings.cs:18-28 | copies the room from the request, and the user, start and end from the arguments; status Active and creation instant as the entity defaults |
| Reservations.ToDto | backend/BookingRooms.API/Features/Reservations/ReservationMappings.cs:5-16 | keeps id, room, user, start and end; takes the room's name and the user's email; the status is the enum name |
| Reservations.ToDtoKeepsReservation | backend/BookingRooms.API/Features/Reservations/ReservationMappings.cs:5-16 | the response determines the reservation up to its creation instant |
| Reservations.OverlapExists | backend/BookingRooms.API/Features/Reservations/ReservationService.cs:41-45 | true exactly when some Active booking of the same room has start before the requested end and end after the requested start |
| Reservations.NonBlockingCases | backend/BookingRooms.API/Features/Reservations/ReservationService.cs:41-45 | cancelled bookings, other rooms and merely touching intervals never block |
| Reservations.BlocksIsOverlap | backend/BookingRooms.API/Features/Reservations/ReservationService.cs:41-45 | the query's condition is the symmetric half-open overlap of the two bookings |
| Reservations.InsertKeepsValid | backend/BookingRooms.API/Features/Reservations/ReservationConfiguration.cs:32-40 | inserting a booking the overlap query let through, under the next key, keeps keys, foreign keys, slot uniqueness and active disjointness |
| Reservations.CancelKeepsValid | backend/BookingRooms.API/Features/Reservations/ReservationService.cs:124 | cancelling a row keeps the table valid |
| Reservations.RoomsChangeKeepsValid | backend/BookingRooms.API/Features/Reservations/ReservationConfiguration.cs:32-35 | the reservation table stays valid while every room it references still exists |
| Reservations.FilterKeepsValid | backend/BookingRooms.API/Features/Reservations/ReservationConfiguration.cs:32-35 | removing reservations keeps the rest valid against rooms that still hold them |
| Reservations.InsertByStart | backend/BookingRooms.API/Features/Reservations/ReservationService.cs:88 | inserting gives a permutation of the list plus the row, one longer, headed by the row or by the old head |
| Reservations.InsertByStartSorted | backend/BookingRooms.API/Features/Reservations/ReservationService.cs:88 | inserting into a list ordered by start keeps it ordered by start |
| Reservations.SortByStart | backend/BookingRooms.API/Features/Reservations/ReservationService.cs:88 | the result is ordered by start and is a permutation of the input |
| Reservations.SortByStartKeepsRows | backend/BookingRooms.API/Features/Reservations/ReservationService.cs:102 | ordering keeps the number of rows and exactly the same rows |
| ReservationService.CheckRequest | backend/BookingRooms.API/Features/Reservations/ReservationService.cs:21-50 | a past start gives the future-start ValidationError; then a start after the end gives the order ValidationError; then a missing room gives NotFound("Room", id); then Conflict exactly when an active booking overlaps; otherwise all checks pass |
| ReservationService.ZeroLengthPassesOrderCheck | backend/BookingRooms.API/Features/Reservations/ReservationService.cs:29-32 | a booking whose start equals its end is not refused by the order check |
| ReservationService.CancelledSlotPassesChecks | backend/BookingRooms.API/Features/Reservations/ReservationConfiguration.cs:39-40 | a stored slot that starts in the future and that no Active booking of its room overlaps passes every check before the holiday lookup, yet is taken for the unique index; if it has positive length, its reservation is Cancelled |
| ReservationService.CreateReservation | backend/BookingRooms.API/Features/Reservations/ReservationService.cs:10-74 | a failed check returns its error and touches neither the store nor the holiday service; otherwise the holiday service is asked exactly once, about the UTC date of the start in "MX", sending a request only when that year is not cached and caching the year's list when it is obtained, with other cache entries kept; its exception propagates; a holiday gives a ValidationError; a taken slot or unknown user throws; otherwise exactly one Active row with the request's room, the caller's id and the computed times is appended under the next key and its response returned; the store stays valid |
| ReservationService.GetReservation | backend/BookingRooms.API/Features/Reservations/ReservationService.cs:76-79 | always throws NotImplemented |
| ReservationService.Dtos | backend/BookingRooms.API/Features/Reservations/ReservationService.cs:91 | one response per row, in order, built with the row's room and user |
| ReservationService.DtosMembership | backend/BookingRooms.API/Features/Reservations/ReservationService.cs:91 | the responses are exactly the responses of the rows |
| ReservationService.OrderedDtos | backend/BookingRooms.API/Features/Reservations/ReservationService.cs:98-105 | as many responses as rows, ordered by start, and exactly the rows' responses |
| ReservationService.GetReservationsByUser | backend/BookingRooms.API/Features/Reservations/ReservationService.cs:81-94 | succeeds with exactly the user's reservations of any status, each once, ordered by start; every item has the user's id |
| ReservationService.GetAllReservations | backend/BookingRooms.API/Features/Reservations/ReservationService.cs:96-108 | succeeds with every reservation, each once, ordered by start |
| ReservationService.CancelReservation | backend/BookingRooms.API/Features/Reservations/ReservationService.cs:110-128 | an unknown key gives NotFound("Reservation", id); an already cancelled row gives a ValidationError; in both cases nothing changes; otherwise only that row's status becomes Cancelled; the store stays valid |
| RoomService.GetAllRooms | backend/BookingRooms.API/Features/Rooms/RoomService.cs:11-25 | one response per stored room, in order, each with its equipment |
| RoomService.GetRoomById | backend/BookingRooms.API/Features/Rooms/RoomService.cs:27-48 | NotFound("Room", id) exactly when no room has the key; otherwise the response of a stored room with that key |
| RoomService.CreateEquipments | backend/BookingRooms.API/Features/Rooms/RoomService.cs:54-62 | a null or empty id list gives no equipment; otherwise exactly the existing equipment with a listed id, as valid links |
| RoomService.AddRoomKeepsValid | backend/BookingRooms.API/Features/Rooms/RoomService.cs:64-65 | appending a room under the next key with valid links keeps the store valid |
| RoomService.CreateRoom | backend/BookingRooms.API/Features/Rooms/RoomService.cs:50-70 | stores exactly one new room under the next key with the request's fields and the selected equipment, returns its response, changes nothing else and keeps the store valid |
| RoomService.ReplaceRoomKeepsValid | backend/BookingRooms.API/Features/Rooms/RoomService.cs:89-91 | replacing a room's row by one with the same key and valid links keeps the store valid |
| RoomService.UpdateRoom | backend/BookingRooms.API/Features/Rooms/RoomService.cs:72-94 | an unknown key gives NotFound and changes nothing; otherwise the room keeps its key, takes the request's name, capacity and location, and is linked to exactly the listed existing equipment; the store stays valid |
| RoomService.RemoveRoomKeepsValid | backend/BookingRooms.API/Features/Reservations/ReservationConfiguration.cs:32-35 | removing a room together with its reservations keeps the store valid |
| RoomService.DeleteRoom | backend/BookingRooms.API/Features/Rooms/RoomService.cs:96-117 | an unknown key gives NotFound; a non-cancelled reservation of the room gives a ValidationError; in both cases nothing changes; otherwise the room and, by cascade, its reservations (all cancelled) are removed, and the store stays valid |
| ReservationController.ListReservations | backend/BookingRooms.API/Features/Reservations/ReservationController.cs:12-23 | 200 in both cases; an admin gets a response for every reservation; anyone else gets only items with their own user id, and all of them |
| ReservationController.GetReservationById | backend/BookingRooms.API/Features/Reservations/ReservationController.cs:25-30 | the action throws, as the service does |
| ReservationController.CreateReservation | backend/BookingRooms.API/Features/Reservations/ReservationController.cs:32-46 | a failed check answers `MapErrorToActionResult` of the service's error (so a past start gives 400 with its message); a holiday gives 400 with the holiday message; exceptions propagate; a refusal stores nothing; rooms, equipment, users and the room key are untouched; the holiday service is left alone after a failed check, and otherwise is asked once with the same cache and request effect as the service states; success appends the service's new row and answers 201 with its response (room, times, owner, status), on route "GetReservationByIdAsync" with the new id, and the appended Active row and the response are owned by the caller |
| ProtectedRoute.HasRole | frontend/bookin-rooms-web/src/auth/ProtectedRoute.tsx:16 | true exactly when some role of the user is among the required roles |
| ProtectedRoute.Guard | frontend/bookin-rooms-web/src/auth/ProtectedRoute.tsx:8-23 | login exactly when signed out; unauthorized exactly when signed in with a non-empty required set sharing no role; otherwise the page |
| ProtectedRoute.MoreRolesAdmitMore | frontend/bookin-rooms-web/src/auth/ProtectedRoute.tsx:15-22 | widening a non-empty set of required roles never turns away an admitted user |
| ReservationForm.ToTimeWithSeconds | frontend/bookin-rooms-web/src/features/reservations/ReservationFormDialog.tsx:90-96 | the empty string is unchanged; a length-5 string gains ":00"; any other length is unchanged |
| ReservationForm.ToTimeWithSecondsIdempotent | frontend/bookin-rooms-web/src/features/reservations/ReservationFormDialog.tsx:90-96 | padding twice is padding once |
| ReservationForm.LexTotal | frontend/bookin-rooms-web/src/features/reservations/ReservationFormDialog.tsx:199 | the string order compares any two strings |
| ReservationForm.LexAntisymmetric | frontend/bookin-rooms-web/src/features/reservations/ReservationFormDialog.tsx:199 | strings that are each at most the other are equal |
| ReservationForm.ValidateEndTime | frontend/bookin-rooms-web/src/features/reservations/ReservationFormDialog.tsx:197-203 | passes when either time is empty; otherwise fails with "End time must be after start time" exactly when the end is at most the start in string order |
| ReservationForm.MinutesOf | frontend/bookin-rooms-web/src/features/reservations/ReservationFormDialog.tsx:181 | a clock time is a minute of the day |
| ReservationForm.LexOrderIsTimeOrder | frontend/bookin-rooms-web/src/features/reservations/ReservationFormDialog.tsx:199 | on "HH:MM" clock times, string order is the order of the day |
| ReservationForm.ValidateEndTimeOnClockTimes | frontend/bookin-rooms-web/src/features/reservations/ReservationFormDialog.tsx:197-203 | on clock times the check passes exactly when the end is a later minute than the start |

## Left out

- Local-to-UTC conversion of the requested date and times depends on the host time zone and daylight saving (ReservationService.cs:12-19). It is the parameter `toUtc`.
- The clock (ReservationService.cs:21) is the parameter `nowUtc`. The entity default `CreatedAtUtc = DateTime.UtcNow` is taken to be the same reading.
- HTTP transport, JSON decoding of the holiday list and the 12-hour expiry of cache entries are not modelled. The endpoint is a deterministic function of (year, country), and a cache entry never expires.
- Calendar.DateOf: the civil-date computation behind `DateOnly.FromDateTime` carries no general contract; no range bounds on month and day are proved for all instants. Its value is established at specific instants only.
- ReservationForm.LexLessOrEqual: JavaScript compares strings by UTF-16 code units, while the model compares characters. The two orders agree on the ASCII clock times the form produces, but can differ for characters outside the Basic Multilingual Plane.
- ReservationForm.ToTimeWithSeconds: the length test counts characters, whereas JavaScript's `value.length` counts UTF-16 code units. The two agree on the ASCII "HH:MM" values a time input produces.
- PublicHolidays.EqualsIgnoreCase: ordinal case-insensitive comparison is modelled for ASCII letters only. Other scripts' case pairs are not equated.
- Cancellation tokens are left out. So is a cached entry that is null, which the service never stores.
- Concurrency is left out. Each service call is one atomic step on the store, so the race between two creations that both pass the overlap check is not represented.
- EF Core mechanics are left out: change tracking, `AsNoTracking`, `Include`, `LoadAsync`, and transactions of `SaveChangesAsync`. Each command is modelled by its effect on the tables.
- SQLite returns rows with equal `StartTimeUtc` in an unspecified order. `ReservationService.OrderedDtos` therefore promises only ordering by start and the same rows, not an order among ties.
- A null `EquipmentIds` in an update request is not modelled; `UpdateRoomRequest.equipmentIds` is a list.
- Declared maximum lengths are not enforced by SQLite and are not modelled. This covers room name and location, equipment name, and reservation user id.
- User emails are modelled as present. ASP.NET Identity users, registration and login are outside the model, and the users table is a map from id to email.
- ReservationController.ListReservations: the claims (`UserId`, `IsAdmin`) and the authorization attribute are inputs, not derived from a token.
- Exceptions escaping a controller are returned as `Threw` and not turned into responses. The global exception handler is outside the model.
- Cancellation has no route in the controller, so it is modelled at service level only.
- The rest of the web client is outside the model: pages, tables, dialogs, the auth context and the API wrappers.
