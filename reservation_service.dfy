/** ReservationService: the booking workflow (save), partial update,
    deletion, search and the read operations. `today` is the clock's date,
    `now` its timestamp; `persistOk` says whether the store accepts the write. */
module ReservationService {
  import opened Wrappers
  import opened Consts
  import opened Dates
  import opened Pricing
  import opened Auditing
  import opened Entities
  import opened Dtos
  import Repositories
  import opened Store

  /** A stored reservation as a query loads it: its customer and room are
      references, so they are read from their tables by id. A reference
      with no row keeps the copy the reservation was saved with. */
  function Joined(customers: map<int, Customer>, rooms: map<int, Room>, r: Reservation): (j: Reservation)
    // the reservation's own columns are what was stored
    ensures j.(customer := r.customer, reservedRoom := r.reservedRoom) == r
    // the references show the current rows
    ensures r.customer.id in customers ==> j.customer == customers[r.customer.id]
    ensures r.reservedRoom.id in rooms ==> j.reservedRoom == rooms[r.reservedRoom.id]
  {
    r.(customer := if r.customer.id in customers then customers[r.customer.id] else r.customer,
       reservedRoom := if r.reservedRoom.id in rooms then rooms[r.reservedRoom.id] else r.reservedRoom)
  }

  /** The reservations of a query result, loaded and copied to their records. */
  function ToDTOs(db: Database, m: map<int, Reservation>): map<int, ReservationDTO>
    reads db
  {
    map id | id in m :: ToReservationDTO(Joined(db.customers, db.rooms, m[id]))
  }

  /** listAll: every stored reservation, copied to its record. */
  method ListAll(db: Database) returns (r: map<int, ReservationDTO>)
    ensures r.Keys == db.reservations.Keys
    ensures forall id :: id in r ==> r[id] == ToReservationDTO(Joined(db.customers, db.rooms, db.reservations[id]))
  {
    r := ToDTOs(db, db.reservations);
  }

  /** findById: the stored reservation's record, or null when there is none. */
  method FindById(db: Database, id: int) returns (r: Option<ReservationDTO>)
    ensures id in db.reservations ==> r == Some(ToReservationDTO(Joined(db.customers, db.rooms, db.reservations[id])))
    ensures id !in db.reservations ==> r == None
  {
    if id in db.reservations {
      r := Some(ToReservationDTO(Joined(db.customers, db.rooms, db.reservations[id])));
    } else {
      r := None;
    }
  }

  /** search: the reservations whose active flag equals `active`, or whose
      end date lies between today and `endsIn` months from today (both
      ends included). */
  method Search(db: Database, active: Option<bool>, endsIn: int, today: Date)
    returns (r: map<int, ReservationDTO>)
    requires Valid(today)
    ensures forall id :: id in r <==>
              && id in db.reservations
              && ((active.Some? && db.reservations[id].active == active.value)
                  || (OnOrBefore(today, db.reservations[id].endDate)
                      && OnOrBefore(db.reservations[id].endDate, FutureDate(today, endsIn))))
    ensures forall id :: id in r ==> r[id] == ToReservationDTO(Joined(db.customers, db.rooms, db.reservations[id]))
  {
    var endsInDate := FutureDate(today, endsIn);
    r := ToDTOs(db, Repositories.Search(db.reservations, active, today, endsInDate));
  }

  /** findByCustomer: the records of exactly the reservations of that customer. */
  method FindByCustomer(db: Database, customerId: int) returns (r: map<int, ReservationDTO>)
    ensures forall id :: id in r <==> id in db.reservations && db.reservations[id].customer.id == customerId
    ensures forall id :: id in r ==> r[id] == ToReservationDTO(Joined(db.customers, db.rooms, db.reservations[id]))
  {
    r := ToDTOs(db, Repositories.FindByCustomerId(db.reservations, customerId));
  }

  /** deleteById: removes the reservation when it exists. The room it holds
      is not freed: no room changes, so a room a booking marked busy stays
      busy. */
  method DeleteById(db: Database, id: int) returns (deleted: bool)
    requires db.Valid()
    modifies db`reservations
    ensures db.Valid()
    ensures deleted == (id in old(db.reservations))
    ensures db.reservations == old(db.reservations) - {id}
    ensures db.rooms == old(db.rooms)
  {
    if id in db.reservations {
      db.RemoveReservation(id);
      deleted := true;
    } else {
      deleted := false;
    }
  }

  /** The price save computes: the room's monthly rate times the months. */
  function ExpectedPrice(d: ReservationDTO): (price: real)
    requires d.reservedRoom.Some? && d.reservedRoom.value.pricePerMonth.Some? && d.duration.Some?
    // a stay of at least a month costs at least one month's rate
    ensures d.duration.value >= 1 && d.reservedRoom.value.pricePerMonth.value >= 0.0 ==>
              price >= d.reservedRoom.value.pricePerMonth.value
    // the price is zero exactly when the rate or the duration is
    ensures price == 0.0 <==> d.reservedRoom.value.pricePerMonth.value == 0.0 || d.duration.value == 0
  {
    d.reservedRoom.value.pricePerMonth.value * d.duration.value as real
  }

  /** Whether the repository's save treats the copied reservation as new:
      its id is a primitive long, so a null id is copied as 0, and 0 means
      not yet stored. */
  predicate IsNew(d: ReservationDTO) {
    d.id.GetOr(0) == 0
  }

  /** save (and create, which only calls it). In order: the price is set to
      rate times months and the end date to today plus the months, whatever
      the record said; the long-stay discount is computed and dropped; a
      duration of 36 months or more is refused; a room record that is
      already busy is refused, a free one is marked busy; then the
      reservation is copied, stamped and saved. A record without an id is
      copied with id 0, which the repository's save treats as new and
      persists: the associations cascade MERGE only, so the customer and
      room rows are not written and the room's row keeps its busy flag. A
      record with an id is merged instead, and the merge cascades: the
      customer and room copies are written into their rows, so the room's
      row becomes busy. The busy test reads the caller's room record, not
      the room's row. `booked` is the caller's record as these steps leave
      it, on every path. */
  method Save(db: Database, d: ReservationDTO, today: Date, now: Timestamp, persistOk: bool)
    returns (res: Result<int, Error>, booked: ReservationDTO)
    requires db.Valid() && Valid(today)
    requires ValidReservation(d)
    requires CustomerMappable(d.customer.value) && RoomMappable(d.reservedRoom.value)
    modifies db`reservations, db`nextReservationId, db`customers, db`rooms
    ensures db.Valid()
    ensures booked
         == d.(reservationPrice := Some(ExpectedPrice(d)),
               endDate := Some(FutureDate(today, d.duration.value)),
               reservedRoom := Some(d.reservedRoom.value.(busy :=
                 Some(d.reservedRoom.value.busy.value || d.duration.value < MaxReservationDuration))))
    ensures res
         == if d.duration.value >= MaxReservationDuration then Err(DurationOutOfAllowedRange)
            else if d.reservedRoom.value.busy.value then Err(RoomIsBusy)
            else if !persistOk then Err(StoreFailure)
            else Ok(old(db.nextReservationId))
    ensures res.Err? ==>
              && db.reservations == old(db.reservations) && db.nextReservationId == old(db.nextReservationId)
              && db.customers == old(db.customers) && db.rooms == old(db.rooms)
    ensures res.Ok? ==>
              && res.value !in old(db.reservations)
              && db.nextReservationId == old(db.nextReservationId) + 1
              && db.reservations
                 == old(db.reservations)[res.value := ToReservation(booked).(id := res.value, audit := Stamped(NoAudit, now))]
    // a new reservation is persisted: no cascade
    ensures res.Ok? && IsNew(d) ==>
              db.customers == old(db.customers) && db.rooms == old(db.rooms)
    // a reservation with an id is merged, and the merge cascades
    ensures res.Ok? && !IsNew(d) ==>
              && db.customers == CustomerMerged(old(db.customers), ToCustomer(d.customer.value))
              && db.rooms == RoomMerged(old(db.rooms), ToRoom(booked.reservedRoom.value))
    ensures res.Ok? ==>
              && db.reservations[res.value].reservationPrice == ExpectedPrice(d)
              && db.reservations[res.value].endDate == FutureDate(today, d.duration.value)
              && db.reservations[res.value].startDate == d.startDate.value
              && db.reservations[res.value].reservedRoom.busy
    // only a merged booking marks the room's row busy
    ensures res.Ok? && !IsNew(d) && ToRoom(d.reservedRoom.value).id in old(db.rooms) ==>
              db.rooms[ToRoom(d.reservedRoom.value).id].busy
    ensures res.Ok? && IsNew(d) && ToRoom(d.reservedRoom.value).id in old(db.rooms) ==>
              db.rooms[ToRoom(d.reservedRoom.value).id].busy == old(db.rooms[ToRoom(d.reservedRoom.value).id].busy)
    // a long stay's stored price is not the discounted price
    ensures res.Ok? && d.duration.value >= DiscountMonths && d.reservedRoom.value.pricePerMonth.value != 0.0 ==>
              db.reservations[res.value].reservationPrice
              != CalculateValueWithDiscount(ExpectedPrice(d), DiscountPercentage as real)
  {
    booked := d;
    var room := d.reservedRoom.value;
    var duration := d.duration.value;

    var futureDate := FutureDate(today, duration);
    var expectedPrice := room.pricePerMonth.value * duration as real;
    assert expectedPrice == ExpectedPrice(d);
    if booked.reservationPrice != Some(expectedPrice) {
      booked := booked.(reservationPrice := Some(expectedPrice));
    }
    if booked.endDate != Some(futureDate) {
      booked := booked.(endDate := Some(futureDate));
    }

    if duration >= DiscountMonths {
      // the discounted price is computed, then dropped
      var discounted := CalculateValueWithDiscount(booked.reservationPrice.value, DiscountPercentage as real);
    }

    if duration >= MaxReservationDuration {
      assert room.(busy := Some(room.busy.value)) == room;
      return Err(DurationOutOfAllowedRange), booked;
    }

    if !room.busy.value {
      booked := booked.(reservedRoom := Some(room.(busy := Some(true))));
    } else {
      return Err(RoomIsBusy), booked;
    }

    if !persistOk {
      return Err(StoreFailure), booked;
    }
    var reservation := ToReservation(booked);
    var audit := AuditDefineFields(reservation.audit, now);
    reservation := reservation.(audit := audit);
    var id := db.InsertReservation(reservation);
    if !IsNew(d) {
      db.CascadeCustomer(reservation.customer);
      db.CascadeRoom(reservation.reservedRoom);
    }
    if duration >= DiscountMonths && room.pricePerMonth.value != 0.0 {
      LongStayPriceIsUndiscounted(d);
    }
    res := Ok(id);
  }

  /** What update dereferences: every field but the id and the two dates,
      and nested records complete enough to copy. An end date is only
      copied from a present start date. */
  predicate UpdateReady(d: ReservationDTO) {
    && d.code.Some?
    && d.customer.Some? && CustomerMappable(d.customer.value)
    && d.reservedRoom.Some? && RoomMappable(d.reservedRoom.value)
    && d.reservationPrice.Some? && d.description.Some? && d.duration.Some? && d.active.Some?
    && (d.endDate.Some? ==> d.startDate.Some?)
  }

  /** The fields of a stored reservation after the partial update of
      `update`. Code and description keep their old values when the new ones
      are empty, the start date when the new one is null. Customer, room,
      price, duration and active are always replaced (their guard tests
      toString() of a present object, which is never empty). When the
      record has an end date, the stored end date is set to the record's
      START date. No duration limit or busy check applies. */
  function MergeReservation(r: Reservation, d: ReservationDTO): (m: Reservation)
    requires UpdateReady(d)
    // the identity and the audit fields are not the record's to change
    ensures m.id == r.id && m.audit == r.audit
    // code and description are kept or taken from the record, and never become empty
    ensures m.code in {r.code, d.code.value} && (r.code != [] ==> m.code != [])
    ensures m.description in {r.description, d.description.value} && (r.description != [] ==> m.description != [])
    // the end date is kept or becomes the new start date
    ensures m.endDate in {r.endDate, m.startDate}
    // the start date is replaced exactly when the record has one
    ensures d.startDate.Some? ==> m.startDate == d.startDate.value
    ensures d.startDate.None? ==> m.startDate == r.startDate && m.endDate == r.endDate
    // customer, room, price, duration and active are always the record's
    ensures m.customer == ToCustomer(d.customer.value) && m.reservedRoom == ToRoom(d.reservedRoom.value)
    ensures m.reservationPrice == d.reservationPrice.value && m.duration == d.duration.value
    ensures m.active == d.active.value
  {
    r.(code := if d.code.value != [] then d.code.value else r.code,
       customer := ToCustomer(d.customer.value),
       reservedRoom := ToRoom(d.reservedRoom.value),
       reservationPrice := d.reservationPrice.value,
       description := if d.description.value != [] then d.description.value else r.description,
       duration := d.duration.value,
       startDate := if d.startDate.Some? then d.startDate.value else r.startDate,
       endDate := if d.endDate.Some? then d.startDate.value else r.endDate,
       active := d.active.value)
  }

  /** update: the stored reservation is merged with the record field by
      field, stamped and saved, and its id returned. The creation stamp is
      not an updatable column, so the row keeps the one it has. A missing id gives
      null, or UPDATE_ERROR when the store's existence check
      (`existsAfterMiss`) still reports the id as present. */
  method Update(db: Database, d: ReservationDTO, id: int, now: Timestamp, existsAfterMiss: bool)
    returns (res: Result<Option<int>, Error>)
    requires db.Valid()
    requires id in db.reservations ==> UpdateReady(d)
    modifies db`reservations, db`customers, db`rooms
    ensures db.Valid()
    ensures id in old(db.reservations) ==>
              && res == Ok(Some(id))
              && (var r := old(db.reservations[id]);
                  db.reservations == old(db.reservations)[id := MergeReservation(r, d).(audit := MergedAudit(r.audit, Stamped(r.audit, now)))])
              && db.customers == CustomerMerged(old(db.customers), ToCustomer(d.customer.value))
              && db.rooms == RoomMerged(old(db.rooms), ToRoom(d.reservedRoom.value))
    ensures id !in old(db.reservations) ==>
              && db.reservations == old(db.reservations)
              && db.customers == old(db.customers) && db.rooms == old(db.rooms)
              && res == if existsAfterMiss then Err(UpdateError) else Ok(None)
  {
    if id in db.reservations {
      var reservation := db.reservations[id];
      if d.code.value != [] {
        reservation := reservation.(code := d.code.value);
      }
      reservation := reservation.(customer := ToCustomer(d.customer.value));
      reservation := reservation.(reservedRoom := ToRoom(d.reservedRoom.value));
      reservation := reservation.(reservationPrice := d.reservationPrice.value);
      if d.description.value != [] {
        reservation := reservation.(description := d.description.value);
      }
      reservation := reservation.(duration := d.duration.value);
      if d.startDate.Some? {
        reservation := reservation.(startDate := d.startDate.value);
      }
      if d.endDate.Some? {
        reservation := reservation.(endDate := d.startDate.value);
      }
      reservation := reservation.(active := d.active.value);
      var audit := AuditDefineFields(reservation.audit, now);
      // createdBy and createdAt are not updatable: the row keeps its own
      reservation := reservation.(audit := MergedAudit(reservation.audit, audit));
      db.PutReservation(reservation);
      db.CascadeCustomer(reservation.customer);
      db.CascadeRoom(reservation.reservedRoom);
      return Ok(Some(reservation.id));
    }
    if !existsAfterMiss {
      return Ok(None);
    }
    res := Err(UpdateError);
  }

  // -----------------------------------------------------------------------
  // Properties of the booking rules.

  /** For a long stay at a non-zero rate, the price save stores, rate
      times months, is never the discounted price it computes. */
  lemma LongStayPriceIsUndiscounted(d: ReservationDTO)
    requires d.reservedRoom.Some? && d.reservedRoom.value.pricePerMonth.Some? && d.duration.Some?
    requires d.duration.value >= DiscountMonths && d.reservedRoom.value.pricePerMonth.value != 0.0
    ensures ExpectedPrice(d) != CalculateValueWithDiscount(ExpectedPrice(d), DiscountPercentage as real)
  {
    var rate, months := d.reservedRoom.value.pricePerMonth.value, d.duration.value as real;
    assert months > 0.0;
    assert ExpectedPrice(d) != 0.0 by {
      if rate > 0.0 {
        assert rate * months > 0.0;
      } else {
        assert rate * months < 0.0;
      }
    }
  }

  /** The search always finds a reservation ending today, as long as
      `endsIn` is not negative. */
  lemma SearchFindsEndingToday(rs: map<int, Reservation>, active: Option<bool>, endsIn: int, today: Date, id: int)
    requires Valid(today) && endsIn >= 0
    requires id in rs && rs[id].endDate == today
    ensures id in Repositories.Search(rs, active, today, FutureDate(today, endsIn))
  {
    PlusMonthsNotBefore(today, endsIn);
  }

  /** The update's end date is the record's start date, whatever end date
      the record carries. */
  lemma UpdateEndDateIsStartDate(r: Reservation, d: ReservationDTO)
    requires UpdateReady(d) && d.endDate.Some?
    ensures MergeReservation(r, d).endDate == d.startDate.value
    ensures d.endDate != d.startDate ==> MergeReservation(r, d).endDate != d.endDate.value
  {
  }

  /** Updating a reservation with its own record is not a no-op: the end date
      becomes the start date, and the customer and room copies lose their
      audit fields. */
  lemma UpdateWithOwnRecord(r: Reservation)
    ensures MergeReservation(r, ToReservationDTO(r))
         == r.(endDate := r.startDate,
               customer := r.customer.(audit := NoAudit),
               reservedRoom := r.reservedRoom.(audit := NoAudit))
  {
  }

  /** After a save that merges (a record with an id), a query of the
      reservation shows its room busy: the cascade wrote the busy copy into
      the room's row. */
  lemma BookedRoomReadsBusy(customers: map<int, Customer>, rooms: map<int, Room>, r: Reservation)
    requires r.reservedRoom.busy && r.reservedRoom.id in rooms
    ensures Joined(customers, RoomMerged(rooms, r.reservedRoom), r).reservedRoom.busy
  {
  }

  /** A change to a room's row (RoomService.update) shows in every
      reservation that refers to the room. */
  lemma RoomChangeShowsInReservation(customers: map<int, Customer>, rooms: map<int, Room>, r: Reservation, room: Room)
    requires room.id in rooms && r.reservedRoom.id == room.id
    ensures Joined(customers, rooms[room.id := room], r).reservedRoom == room
    ensures Joined(customers, rooms[room.id := room], r).customer == Joined(customers, rooms, r).customer
  {
  }

  /** A change to a customer's row shows in every reservation that refers
      to the customer. */
  lemma CustomerChangeShowsInReservation(customers: map<int, Customer>, rooms: map<int, Room>, r: Reservation, c: Customer)
    requires c.id in customers && r.customer.id == c.id
    ensures Joined(customers[c.id := c], rooms, r).customer == c
    ensures Joined(customers[c.id := c], rooms, r).reservedRoom == Joined(customers, rooms, r).reservedRoom
  {
  }

  /** Update writes the record's busy flag into the room's row, with no
      busy check: it can free a room a reservation holds, or mark another
      one busy. */
  lemma UpdateWritesRoomFlag(rooms: map<int, Room>, d: ReservationDTO)
    requires UpdateReady(d) && ToRoom(d.reservedRoom.value).id in rooms
    ensures RoomMerged(rooms, ToRoom(d.reservedRoom.value))[ToRoom(d.reservedRoom.value).id].busy
         == d.reservedRoom.value.busy.value
  {
  }

  /** A record that passes validation replaces the whole reservation except
      its id, its audit fields and its end date, which becomes the record's
      start date. */
  lemma ValidUpdateReplacesReservation(r: Reservation, d: ReservationDTO)
    requires ValidReservation(d) && UpdateReady(d)
    ensures ReservationMappable(d)
    ensures MergeReservation(r, d) == ToReservation(d).(id := r.id, audit := r.audit, endDate := d.startDate.value)
  {
  }

  /** Applying the same partial update twice is the same as applying it once. */
  lemma MergeReservationIdempotent(r: Reservation, d: ReservationDTO)
    requires UpdateReady(d)
    ensures MergeReservation(MergeReservation(r, d), d) == MergeReservation(r, d)
  {
  }
}
