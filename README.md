# Reservation management: booking workflow model

A Dafny model of the service layer of a room-rental back end
(martingarrote/reservation-management). The system keeps customers, rooms
and reservations. A reservation binds a customer to a room for a whole
number of months. The model covers:

- the three services: create, partial update, delete and the read queries;
- the helpers those services call: month arithmetic and age, the discount
  formula and audit stamping;
- the repository queries the services use, as filters over the stored maps;
- the bean-validation constraints on the request records.

Layout, one module per file:

| file | module | models |
|---|---|---|
| wrappers.dfy | `Wrappers` | `Option` (a nullable reference), `Result` (a return value or a thrown exception) |
| consts.dfy | `Consts` | the constants and exception kinds of `ExceptionConsts` |
| dates.dfy | `Dates` | `LocalDate.plusMonths`, `Period.between(..).getYears()`, calendar order |
| pricing.dfy | `Pricing` | `MathUtils.calculateValueWithDiscount` |
| auditing.dfy | `Auditing` | `AuditUtils.AuditDefineFields` and the four audit fields |
| entities.dfy | `Entities` | the `Customer`, `Room` and `Reservation` entities as values; a reservation refers to its customer and room by id, and queries join the current rows |
| dtos.dfy | `Dtos` | the three request records, their validation, and the field-for-field copies to and from entities |
| repositories.dfy | `Repositories` | `search`, `findByCustomerId`, `findByReservedRoomId`, `findByBusy` |
| store.dfy | `Store` | the class `Database`: one map per table plus the id counters; the store's insert, overwrite and delete; the cascade merge of a reservation's customer and room into their tables |
| customer_service.dfy, room_service.dfy, reservation_service.dfy | `CustomerService`, `RoomService`, `ReservationService` | the services |

The services change state, so they are methods. Each takes the
`Database` and names in `modifies` the tables it may change. Each states
its complete outcome and the store's new state. The clock is an input:
`today` stands for `LocalDate.now()` and `now` for
`System.currentTimeMillis()`. Two more inputs stand for store behaviour:
`persistOk` says whether the store's write succeeds, and `existsAfterMiss`
is the store's answer to `existsById` after `findById` found nothing.

Some behaviour of the code is unlikely to be what its authors meant. The
model follows the code as written, and the source itself shows each gap:

- `save` sets the end date to *today* plus the duration, whatever start
  date the record gives.
- `save` computes the long-stay discount (`DISCOUNT_MONTHS` = 12,
  `DISCOUNT_PERCENTAGE` = 10 in `consts/ExceptionConsts.java:17-18`) and
  drops the result, so the stored price is never discounted.
- `update` copies the record's *start* date into the stored end date
  (`ReservationService.java:115-116`).
- Creating a reservation from a record without an id does not mark the
  room's row busy: only the caller's room record is marked, and the
  associations cascade MERGE, not PERSIST. The room can be booked again.
- Deleting a reservation does not free its room.
- The duration limit rejects 36 months itself, while the message of
  `DURATION_OUT_OF_ALLOWED_RANGE` (`consts/ExceptionConsts.java:19-20`)
  says "greater than 36".

## Model

| member | source | states |
|---|---|---|
| `Dates.PlusMonths` | src/main/java/com/martingarrote/reservationmanagement/utils/LocalDateUtils.java:7 | the result is a valid date; its year*12+month moves by exactly the months added; the day is kept when the target month has it, otherwise clamped to that month's last day |
| `Dates.FutureDate` | src/main/java/com/martingarrote/reservationmanagement/utils/LocalDateUtils.java:6-8 | today plus the months is a valid date exactly that many months later |
| `Dates.PlusZeroMonths` | src/main/java/com/martingarrote/reservationmanagement/utils/LocalDateUtils.java:7 | adding 0 months gives the date back |
| `Dates.PlusMonthsNotBefore` | src/main/java/com/martingarrote/reservationmanagement/utils/LocalDateUtils.java:7 | adding a non-negative number of months never yields an earlier date |
| `Dates.PlusMonthsMonotonic` | src/main/java/com/martingarrote/reservationmanagement/utils/LocalDateUtils.java:7 | more months never yield an earlier date |
| `Dates.EndOfJanuaryPlusOneMonth` | src/main/java/com/martingarrote/reservationmanagement/utils/LocalDateUtils.java:7 | 2024-01-31 plus one month is 2024-02-29; 2023-01-31 plus one month is 2023-02-28 |
| `Dates.PlusMonthsNotAdditive` | src/main/java/com/martingarrote/reservationmanagement/utils/LocalDateUtils.java:7 | adding one month twice differs from adding two months once when a day was clamped |
| `Dates.AgeInYears` | src/main/java/com/martingarrote/reservationmanagement/utils/LocalDateUtils.java:10-12 | the years of `Period.between` (months truncated toward zero); never negative for a birth date not after today, 0 on the birth day; `AgeIsWholeYears` ties it to the anniversaries |
| `Dates.AgeIsWholeYears` | src/main/java/com/martingarrote/reservationmanagement/utils/LocalDateUtils.java:11 | for a birth date not after today, the age is at least n exactly when the n-th anniversary has been reached |
| `Dates.AgeMonotonic` | src/main/java/com/martingarrote/reservationmanagement/utils/LocalDateUtils.java:11 | the age never decreases as today advances |
| `Dates.LeapDayBirthday` | src/main/java/com/martingarrote/reservationmanagement/utils/LocalDateUtils.java:11 | a 29 February birthday is still 17 on 28 February and 18 on 1 March of its 18th year |
| `Pricing.CalculateValueWithDiscount` | src/main/java/com/martingarrote/reservationmanagement/utils/MathUtils.java:5-9 | the result is v·(100−p)/100; for v ≥ 0 and 0 ≤ p ≤ 100 it lies between 0 and v |
| `Pricing.NoDiscount` | src/main/java/com/martingarrote/reservationmanagement/utils/MathUtils.java:5-9 | a 0% discount returns the value |
| `Pricing.FullDiscount` | src/main/java/com/martingarrote/reservationmanagement/utils/MathUtils.java:5-9 | a 100% discount returns 0 |
| `Pricing.TenPercentDiscount` | src/main/java/com/martingarrote/reservationmanagement/utils/MathUtils.java:5-9 | a 10% discount returns 0.9 of the value |
| `Pricing.DiscountLowersPositiveValue` | src/main/java/com/martingarrote/reservationmanagement/utils/MathUtils.java:5-9 | a positive discount strictly lowers a positive value |
| `Auditing.Stamped` | src/main/java/com/martingarrote/reservationmanagement/utils/AuditUtils.java:9-20 | if either created field is missing, both become "Admin" and now; if both are present they are kept; updatedBy and updatedAt always become "Admin" and now |
| `Auditing.AuditDefineFields` | src/main/java/com/martingarrote/reservationmanagement/utils/AuditUtils.java:9-20 | the field-by-field assignments produce exactly the stamped fields |
| `Auditing.StampedIsComplete` | src/main/java/com/martingarrote/reservationmanagement/utils/AuditUtils.java:11-19 | after a stamp all four audit fields are present |
| `Auditing.FirstStampTimesAgree` | src/main/java/com/martingarrote/reservationmanagement/utils/AuditUtils.java:11-19 | on a first stamp createdAt equals updatedAt equals now |
| `Auditing.StampTwice` | src/main/java/com/martingarrote/reservationmanagement/utils/AuditUtils.java:13-19 | a second stamp keeps the created fields of the first and moves only updatedAt |
| `Dtos.NotBlankIffVisibleChar` | src/main/java/com/martingarrote/reservationmanagement/models/dtos/ReservationDTO.java:20-21 | @NotBlank (not empty after trim) holds exactly when some character is above ' ' |
| `Dtos.NotBlank` | src/main/java/com/martingarrote/reservationmanagement/models/dtos/CustomerDTO.java:18-19 | @NotBlank: not null and non-empty after `trim`; a string that passes it is non-empty, so it passes the updates' emptiness guards |
| `Dtos.SpacesAreBlank` | src/main/java/com/martingarrote/reservationmanagement/models/dtos/CustomerDTO.java:18-19 | a string of spaces is non-empty but fails @NotBlank |
| `Dtos.ValidCustomer` | src/main/java/com/martingarrote/reservationmanagement/models/dtos/CustomerDTO.java:18-29 | the customer record's constraints: name, cpf and email not blank, a date of birth in the past when given; a valid record carries every NOT NULL field of the entity |
| `Dtos.ValidRoom` | src/main/java/com/martingarrote/reservationmanagement/models/dtos/RoomDTO.java:19-36 | the room record's constraints: every field present, description not blank, size at least 10; a valid record carries every field of the entity and a non-empty description |
| `Dtos.ValidReservation` | src/main/java/com/martingarrote/reservationmanagement/models/dtos/ReservationDTO.java:20-46 | the reservation record's constraints: every field present, code and description not blank, duration at least 1; code and description are then non-empty and the duration positive |
| `Dtos.ValidReservationHasNoUpperBound` | src/main/java/com/martingarrote/reservationmanagement/models/dtos/ReservationDTO.java:35-37 | a record with a 36-month duration passes validation: the record has a lower bound of 1 and no upper bound |
| `Dtos.BirthTodayIsInvalid` | src/main/java/com/martingarrote/reservationmanagement/models/dtos/CustomerDTO.java:21-22 | @Past rejects a date of birth equal to today |
| `Dtos.ToCustomer` | src/main/java/com/martingarrote/reservationmanagement/services/CustomerService.java:109 | the field-for-field copy: a null id becomes 0, the audit fields are null, and copying back gives the record with the entity's id |
| `Dtos.ToRoom` | src/main/java/com/martingarrote/reservationmanagement/services/RoomService.java:118 | the field-for-field copy: a null id becomes 0, the audit fields are null, and copying back gives the record with the entity's id |
| `Dtos.ToReservation` | src/main/java/com/martingarrote/reservationmanagement/services/ReservationService.java:169 | the copy of a reservation record, nested customer and room copied the same way; copying back gives the record with the ids the entities received |
| `Dtos.ToCustomerDTO` | src/main/java/com/martingarrote/reservationmanagement/services/CustomerService.java:44 | the entity-to-record copy behind every customer read: the id is always present and the record can be copied back; `CustomerRoundTrip` shows only the audit fields are lost |
| `Dtos.ToRoomDTO` | src/main/java/com/martingarrote/reservationmanagement/services/RoomService.java:41 | the entity-to-record copy behind every room read: the id is always present and the record can be copied back; `RoomRoundTrip` shows only the audit fields are lost |
| `Dtos.ToReservationDTO` | src/main/java/com/martingarrote/reservationmanagement/services/ReservationService.java:44 | the entity-to-record copy behind every reservation read: the ids of the reservation, its customer and its room are present and the record can be copied back |
| `Dtos.CustomerRoundTrip` | src/main/java/com/martingarrote/reservationmanagement/services/CustomerService.java:44 | copying a customer to its record and back loses only its audit fields |
| `Dtos.RoomRoundTrip` | src/main/java/com/martingarrote/reservationmanagement/services/RoomService.java:41 | copying a room to its record and back loses only its audit fields |
| `Dtos.ReservationRoundTrip` | src/main/java/com/martingarrote/reservationmanagement/services/ReservationService.java:44 | copying a reservation to its record and back loses only the audit fields of it and of its customer and room |
| `Dtos.ReservationDTORoundTrip` | src/main/java/com/martingarrote/reservationmanagement/services/ReservationService.java:169 | copying a complete record with ids to an entity and back gives the record back |
| `Repositories.Search` | src/main/java/com/martingarrote/reservationmanagement/repositories/ReservationRepository.java:15-17 | the result is a sub-map of the stored reservations |
| `Repositories.SearchFindsActiveMatch` | src/main/java/com/martingarrote/reservationmanagement/repositories/ReservationRepository.java:15 | every reservation whose active flag equals the requested one is found |
| `Repositories.SearchFindsEndingSoon` | src/main/java/com/martingarrote/reservationmanagement/repositories/ReservationRepository.java:16 | every reservation ending between today and endsIn, both included, is found, whatever flag was asked for |
| `Repositories.SearchExcludesOthers` | src/main/java/com/martingarrote/reservationmanagement/repositories/ReservationRepository.java:15-16 | a reservation meeting neither clause is not found; with a null flag only the date clause selects |
| `Repositories.FindByCustomerId` | src/main/java/com/martingarrote/reservationmanagement/repositories/ReservationRepository.java:19 | exactly the stored reservations whose customer has that id, unchanged |
| `Repositories.FindByReservedRoomId` | src/main/java/com/martingarrote/reservationmanagement/repositories/ReservationRepository.java:22 | exactly the stored reservations whose room has that id, unchanged |
| `Repositories.FindByBusy` | src/main/java/com/martingarrote/reservationmanagement/repositories/RoomRepository.java:12 | exactly the stored rooms with that busy flag, unchanged |
| `Repositories.FindByBusyPartitions` | src/main/java/com/martingarrote/reservationmanagement/repositories/RoomRepository.java:12 | the busy rooms and the free rooms are disjoint and together make up the whole room table |
| `Store.MergedAudit` | src/main/java/com/martingarrote/reservationmanagement/models/entities/Customer.java:28-35 | after a merge the row keeps its createdBy and createdAt (columns declared not updatable) and takes the copy's updated fields |
| `Store.RestampKeepsCreation` | src/main/java/com/martingarrote/reservationmanagement/models/entities/Customer.java:28-35 | re-stamping a stored row in an update moves only its updated fields: the not-updatable creation stamp stays as it was, even when missing |
| `Store.CustomerMerged` | src/main/java/com/martingarrote/reservationmanagement/models/entities/Reservation.java:18-19 | cascade MERGE of a reservation's customer: the row with the copy's id takes the copy's state except the creation stamp; no other row and no key changes; a copy with no row changes nothing |
| `Store.RoomMerged` | src/main/java/com/martingarrote/reservationmanagement/models/entities/Reservation.java:21-22 | cascade MERGE of a reservation's room, likewise |
| `Store.CustomerMergedIdempotent` | src/main/java/com/martingarrote/reservationmanagement/models/entities/Reservation.java:18-19 | merging the same customer copy twice is merging it once |
| `Store.RoomMergedIdempotent` | src/main/java/com/martingarrote/reservationmanagement/models/entities/Reservation.java:21-22 | merging the same room copy twice is merging it once |
| `CustomerService.ListAll` | src/main/java/com/martingarrote/reservationmanagement/services/CustomerService.java:32-37 | one record per stored customer, under its id |
| `CustomerService.FindById` | src/main/java/com/martingarrote/reservationmanagement/services/CustomerService.java:39-48 | the stored customer's record, or null when the id is absent; nothing changes |
| `CustomerService.DeleteById` | src/main/java/com/martingarrote/reservationmanagement/services/CustomerService.java:50-61 | absent id: false, no change; referenced by a reservation: UNABLE_TO_DELETE, no change; otherwise exactly that customer is removed and true returned |
| `CustomerService.Update` | src/main/java/com/martingarrote/reservationmanagement/services/CustomerService.java:67-98 | present id: name, cpf and email replaced only by non-empty strings, the date of birth only by a non-null one, audit re-stamped (the row keeps its creation stamp, a not-updatable column), id returned, no age check; absent id: no change and null, or UPDATE_ERROR when the store still reports the id |
| `CustomerService.Save` | src/main/java/com/martingarrote/reservationmanagement/services/CustomerService.java:100-119 | age below 18: AGE_SHOULD_BIGGER_THAN_EIGHTEEN and no write; a failed write: INSERT_ERROR and no change; otherwise the copied, stamped customer is inserted under a fresh id, which is returned |
| `CustomerService.MergeCustomer` | src/main/java/com/martingarrote/reservationmanagement/services/CustomerService.java:74-85 | the partial update keeps the id and audit fields, takes each field from either the stored customer or the record, and never empties a filled-in field |
| `CustomerService.AgeGuardIsEighteenthBirthday` | src/main/java/com/martingarrote/reservationmanagement/services/CustomerService.java:104-106 | the age guard refuses exactly those whose 18th birthday has not come |
| `CustomerService.AcceptedStaysAdult` | src/main/java/com/martingarrote/reservationmanagement/services/CustomerService.java:104-106 | a customer old enough today is old enough on every later day |
| `CustomerService.BlankUpdateKeepsCustomer` | src/main/java/com/martingarrote/reservationmanagement/services/CustomerService.java:74-85 | empty strings and a null date leave the customer's fields unchanged |
| `CustomerService.ValidUpdateReplacesFields` | src/main/java/com/martingarrote/reservationmanagement/services/CustomerService.java:74-85 | a valid record replaces name, cpf and email (and the date of birth when given); id and audit stay |
| `CustomerService.MergeCustomerIdempotent` | src/main/java/com/martingarrote/reservationmanagement/services/CustomerService.java:74-85 | the same partial update applied twice equals it applied once |
| `RoomService.ListAll` | src/main/java/com/martingarrote/reservationmanagement/services/RoomService.java:29-34 | one record per stored room, under its id |
| `RoomService.FindById` | src/main/java/com/martingarrote/reservationmanagement/services/RoomService.java:36-45 | the stored room's record, or null when the id is absent; nothing changes |
| `RoomService.FindByBusy` | src/main/java/com/martingarrote/reservationmanagement/services/RoomService.java:47-52 | records of exactly the rooms with that busy flag; nothing changes |
| `RoomService.DeleteById` | src/main/java/com/martingarrote/reservationmanagement/services/RoomService.java:54-66 | absent id: false, no change; referenced by a reservation: UNABLE_TO_DELETE, no change; otherwise exactly that room is removed and true returned |
| `RoomService.Update` | src/main/java/com/martingarrote/reservationmanagement/services/RoomService.java:72-109 | present id: the description replaced only by a non-empty one, number, size, price, busy and active always replaced, audit re-stamped (the row keeps its creation stamp, a not-updatable column), id returned; absent id: no change and null, or UPDATE_ERROR when the store still reports the id |
| `RoomService.Save` | src/main/java/com/martingarrote/reservationmanagement/services/RoomService.java:111-128 | no business check; a failed write: INSERT_ERROR and no change; otherwise the copied, stamped room is inserted under a fresh id, which is returned |
| `RoomService.MergeRoom` | src/main/java/com/martingarrote/reservationmanagement/services/RoomService.java:79-96 | the partial update keeps the id and audit fields, and the description is either kept or the record's and never becomes empty |
| `RoomService.UpdateCanClearBusy` | src/main/java/com/martingarrote/reservationmanagement/services/RoomService.java:91-93 | an update whose record says busy = false frees the room, whatever holds it |
| `RoomService.FullUpdateReplacesRoom` | src/main/java/com/martingarrote/reservationmanagement/services/RoomService.java:79-96 | with a non-empty description the updated room is the record's copy with the stored id and audit |
| `RoomService.EmptyDescriptionKept` | src/main/java/com/martingarrote/reservationmanagement/services/RoomService.java:82-84 | with an empty description only the description is kept; every other field comes from the record |
| `ReservationService.Joined` | src/main/java/com/martingarrote/reservationmanagement/models/entities/Reservation.java:18-22 | a query loads a reservation's own columns as stored and its customer and room from their current rows |
| `ReservationService.ListAll` | src/main/java/com/martingarrote/reservationmanagement/services/ReservationService.java:32-37 | one record per stored reservation, under its id, with the current customer and room rows |
| `ReservationService.FindById` | src/main/java/com/martingarrote/reservationmanagement/services/ReservationService.java:39-48 | the stored reservation's record with the current customer and room rows, or null when the id is absent; nothing changes |
| `ReservationService.Search` | src/main/java/com/martingarrote/reservationmanagement/services/ReservationService.java:50-60 | exactly the reservations whose active flag matches, or that end between today and today plus endsIn months; records show the current customer and room rows; nothing changes |
| `ReservationService.FindByCustomer` | src/main/java/com/martingarrote/reservationmanagement/services/ReservationService.java:62-70 | records of exactly the reservations of that customer, with the current customer and room rows; nothing changes |
| `ReservationService.DeleteById` | src/main/java/com/martingarrote/reservationmanagement/services/ReservationService.java:72-79 | removes exactly that reservation, returning whether it existed; no room row changes, so a room a booking marked busy stays busy |
| `ReservationService.Save` | src/main/java/com/martingarrote/reservationmanagement/services/ReservationService.java:135-179 | price := rate × duration and end date := today + duration months on every path; 36 months or more: DURATION_OUT_OF_ALLOWED_RANGE, room flag untouched, checked before busy; a room record saying busy: ROOM_IS_BUSY (the row is not consulted); a failed store write: the store's own error rethrown; all three leave every table unchanged; otherwise the room copy is marked busy and the stamped reservation is inserted under the next id, the counter advancing; a record without an id is persisted, which does not cascade, so the customer and room rows are unchanged and the room's row keeps its busy flag; a record with an id is merged, which writes the customer and room copies into their rows, so the room's row is busy; a long stay at a non-zero rate is stored undiscounted |
| `ReservationService.ExpectedPrice` | src/main/java/com/martingarrote/reservationmanagement/services/ReservationService.java:141 | the price save stores: rate × months; at least one month's rate for a stay of a month or more, and zero exactly when the rate or the duration is zero |
| `ReservationService.Update` | src/main/java/com/martingarrote/reservationmanagement/services/ReservationService.java:85-133 | present id: code and description replaced only by non-empty strings, start date only by a non-null one, end date set to the record's start date when the record has an end date, customer, room, price, duration and active always replaced, no duration or busy check, audit re-stamped (the row keeps its creation stamp), the record's customer and room merged into their tables, id returned; absent id: no table changes and null, or UPDATE_ERROR |
| `ReservationService.MergeReservation` | src/main/java/com/martingarrote/reservationmanagement/services/ReservationService.java:89-120 | the partial update keeps the id and audit fields; code and description are kept or the record's and never become empty; the start date is replaced exactly when the record has one, otherwise start and end date are kept; the end date is kept or becomes the new start date; customer, room, price, duration and active are always the record's |
| `ReservationService.ValidUpdateReplacesReservation` | src/main/java/com/martingarrote/reservationmanagement/services/ReservationService.java:89-120 | a record that passes validation replaces the whole reservation except its id, its audit fields and its end date, which becomes the record's start date |
| `ReservationService.LongStayPriceIsUndiscounted` | src/main/java/com/martingarrote/reservationmanagement/services/ReservationService.java:141-156 | for 12 months or more at a non-zero rate, the price save stores (rate × months) differs from the discounted price it computes |
| `ReservationService.SearchFindsEndingToday` | src/main/java/com/martingarrote/reservationmanagement/services/ReservationService.java:50-57 | with endsIn ≥ 0 a reservation ending today is always found |
| `ReservationService.UpdateEndDateIsStartDate` | src/main/java/com/martingarrote/reservationmanagement/services/ReservationService.java:115-117 | when the record has an end date, the stored end date becomes the record's start date, not its end date |
| `ReservationService.UpdateWithOwnRecord` | src/main/java/com/martingarrote/reservationmanagement/services/ReservationService.java:89-120 | updating a reservation with its own record moves its end date to its start date and clears the audit fields of its customer and room copies |
| `ReservationService.MergeReservationIdempotent` | src/main/java/com/martingarrote/reservationmanagement/services/ReservationService.java:89-120 | the same partial update applied twice equals it applied once |
| `ReservationService.BookedRoomReadsBusy` | src/main/java/com/martingarrote/reservationmanagement/services/ReservationService.java:162-173 | after a save that merges (a record with an id), a query of the reservation shows its room busy |
| `ReservationService.RoomChangeShowsInReservation` | src/main/java/com/martingarrote/reservationmanagement/models/entities/Reservation.java:21-22 | a change to a room's row shows in every reservation referring to it, and nothing else in the loaded reservation changes |
| `ReservationService.CustomerChangeShowsInReservation` | src/main/java/com/martingarrote/reservationmanagement/models/entities/Reservation.java:18-19 | a change to a customer's row shows in every reservation referring to it, and nothing else in the loaded reservation changes |
| `ReservationService.UpdateWritesRoomFlag` | src/main/java/com/martingarrote/reservationmanagement/services/ReservationService.java:99-102 | update writes the record's busy flag into the room's row with no check, so it can free a held room |

## Left out

- Controllers, the CORS configuration and the application bootstrap are left out. They are HTTP transport; the controllers' `@Valid` is what makes the validation predicates the create preconditions.
- ReservationService.Save: a new reservation whose customer or room copy refers to no stored row (id 0 or unknown) fails when the store flushes; the model leaves that outcome to `persistOk`, like any other store failure. When the record has an id, the cascade merge of a copy whose id has no row is not modelled. The model leaves that table unchanged and the reservation keeps its copy. JPA would insert a new row, or fail, depending on the persistence provider.
- ReservationService.Update: the same gap applies to the customer and room copies of an update.
- The record's id on create is not fully modelled: the model always inserts under a fresh id. In the source, a record with an id that is already stored makes the repository's save merge over that row. The id decides only whether the customer and room copies are merged into their tables. A null id is copied as 0, the primitive default.
- The ordering of query results is not modelled: queries return maps keyed by id rather than lists.
- Money uses exact `real` arithmetic. IEEE-754 rounding of `double` prices is not modelled.
- Calendar bounds are not modelled. Years are unbounded, so the `DateTimeException` that `LocalDate` throws outside ±999,999,999 is missing.
- The 32-bit overflow of `Integer` durations and counters is not modelled.
- The clock is an input: `today` and `now` are independent parameters, although in the source both come from one clock.
- The race between `save`'s busy check and its write is not modelled, because the code has no locking. The model covers only the outcome a concurrent change causes in `update`: the store reports an id as existing after the lookup missed (`existsAfterMiss`).
- Null-pointer failures are excluded by preconditions: fields the services dereference must be present. This covers customer `save`'s date of birth, the `search` parameter `endsIn`, and the update fields read through `isEmpty`/`toString`. The nested customer and room records of a reservation must have every field their entities' NOT NULL columns need. The source needs that only when the record has an id and the copies are merged into their rows. A record without an id writes only the references, so the source also accepts incomplete nested records there; the model does not cover that case.
- A reservation update that has an end date but no start date is excluded by precondition: it would write a null end date into a NOT NULL column.
- Exceptions from the store's write inside `update` are left out: the model assumes that write succeeds.
- `@Email` syntax validation is a library rule and is not modelled.
- The unique constraints on reservation code, customer cpf and room number are enforced by the database and are not modelled.
- Exception messages are not modelled, only their kinds. `UNABLE_TO_DELETE` is used by the customer and room services but is not defined in `consts/ExceptionConsts.java` as given.
- `ReservationService.findByRoom`, which the service tests call, is not part of `ReservationService.java`, so it is not modelled. The query underneath it, `findByReservedRoomId`, is modelled.
- `create` in each service only calls `save`, so it is modelled by `Save`.
- The persistence context is not modelled: each service call reads and writes the tables directly, and the tables are the only shared state.
- Auditing.AuditDefineFields: entities are values here, so it returns the stamped fields rather than writing them into the caller's object in place.
