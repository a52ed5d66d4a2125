/** The request/response records of the three services, the bean-validation
    constraints on their fields (checked before a create or update reaches
    a service), and the field-for-field copies between records and
    entities. Every field of a record is a nullable Java reference, so each
    is an Option here. */
module Dtos {
  import opened Wrappers
  import opened Dates
  import opened Auditing
  import opened Entities
  import Consts

  datatype CustomerDTO = CustomerDTO(
    id: Option<int>,
    name: Option<string>,
    dateOfBirth: Option<Date>,
    cpf: Option<string>,
    email: Option<string>)

  datatype RoomDTO = RoomDTO(
    id: Option<int>,
    number: Option<int>,
    description: Option<string>,
    size: Option<real>,
    pricePerMonth: Option<real>,
    busy: Option<bool>,
    active: Option<bool>)

  datatype ReservationDTO = ReservationDTO(
    id: Option<int>,
    code: Option<string>,
    customer: Option<CustomerDTO>,
    reservedRoom: Option<RoomDTO>,
    reservationPrice: Option<real>,
    description: Option<string>,
    duration: Option<int>,
    startDate: Option<Date>,
    endDate: Option<Date>,
    active: Option<bool>)

  /** The @Min bound on a reservation's duration, in months. */
  const MinDuration: int := 1
  /** The @Min bound on a room's size, in square metres. */
  const MinSize: real := 10.0

  // ---------------------------------------------------------------------
  // @NotBlank: not null, and not empty once String.trim() has removed
  // every leading and trailing character up to and including ' '.

  function TrimStart(s: string): string {
    if |s| > 0 && s[0] <= ' ' then TrimStart(s[1..]) else s
  }

  function TrimEnd(s: string): string {
    if |s| > 0 && s[|s| - 1] <= ' ' then TrimEnd(s[..|s| - 1]) else s
  }

  function Trim(s: string): string {
    TrimEnd(TrimStart(s))
  }

  /** @NotBlank. A string that passes it is non-empty, so it also passes
      the emptiness guards of the partial updates. */
  predicate NotBlank(s: Option<string>): (r: bool)
    ensures r ==> s.Some? && s.value != []
  {
    s.Some? && Trim(s.value) != []
  }

  lemma {:induction false} TrimStartEmpty(s: string)
    ensures TrimStart(s) == [] <==> forall i :: 0 <= i < |s| ==> s[i] <= ' '
  {
    if |s| > 0 && s[0] <= ' ' {
      TrimStartEmpty(s[1..]);
      assert forall i :: 1 <= i < |s| ==> s[i] == s[1..][i - 1];
    }
  }

  lemma {:induction false} TrimStartHead(s: string)
    ensures TrimStart(s) != [] ==> TrimStart(s)[0] > ' '
  {
    if |s| > 0 && s[0] <= ' ' {
      TrimStartHead(s[1..]);
    }
  }

  lemma {:induction false} TrimEndKeepsVisibleHead(s: string)
    requires |s| > 0 && s[0] > ' '
    ensures TrimEnd(s) != []
  {
    if s[|s| - 1] <= ' ' {
      TrimEndKeepsVisibleHead(s[..|s| - 1]);
    }
  }

  /** A string is not blank exactly when it has a character above ' '. */
  lemma NotBlankIffVisibleChar(s: string)
    ensures NotBlank(Some(s)) <==> exists i :: 0 <= i < |s| && s[i] > ' '
  {
    TrimStartEmpty(s);
    TrimStartHead(s);
    if TrimStart(s) != [] {
      TrimEndKeepsVisibleHead(TrimStart(s));
    } else {
      assert Trim(s) == [];
    }
  }

  /** A string of spaces is non-empty yet blank. */
  lemma SpacesAreBlank()
    ensures !NotBlank(Some("  ")) && "  " != []
  {
    NotBlankIffVisibleChar("  ");
  }

  // ---------------------------------------------------------------------
  // The field constraints of each record.

  /** CustomerDTO: name, cpf and email not blank; a date of birth, when
      given, strictly in the past. (The e-mail syntax check is not modelled.) */
  predicate ValidCustomer(d: CustomerDTO, today: Date): (r: bool)
    // a valid record carries every field the entity's NOT NULL columns need
    ensures r ==> CustomerMappable(d)
  {
    && NotBlank(d.name)
    && (d.dateOfBirth.Some? ==> Before(d.dateOfBirth.value, today))
    && NotBlank(d.cpf)
    && NotBlank(d.email)
  }

  /** RoomDTO: every field but the id present, the description not blank
      and the size at least ten square metres. */
  predicate ValidRoom(d: RoomDTO): (r: bool)
    ensures r ==> RoomMappable(d) && d.description.value != []
  {
    && d.number.Some?
    && NotBlank(d.description)
    && d.size.Some? && d.size.value >= MinSize
    && d.pricePerMonth.Some?
    && d.busy.Some?
    && d.active.Some?
  }

  /** ReservationDTO: every field but the id present, code and description
      not blank, the duration at least one month. The nested customer and
      room are not validated, and the duration has no upper bound here. */
  predicate ValidReservation(d: ReservationDTO): (r: bool)
    // code and description are then non-empty, so update always takes them
    ensures r ==> d.code.Some? && d.code.value != [] && d.description.Some? && d.description.value != []
    ensures r ==> d.duration.Some? && d.duration.value > 0
  {
    && NotBlank(d.code)
    && d.customer.Some?
    && d.reservedRoom.Some?
    && d.reservationPrice.Some?
    && NotBlank(d.description)
    && d.duration.Some? && d.duration.value >= MinDuration
    && d.startDate.Some?
    && d.endDate.Some?
    && d.active.Some?
  }

  /** The validation lets a reservation of the maximal duration through;
      it is the service that rejects it. */
  lemma ValidReservationHasNoUpperBound(room: RoomDTO, customer: CustomerDTO, start: Date)
    ensures var d := ReservationDTO(None, Some("R1"), Some(customer), Some(room), Some(0.0), Some("Suite"),
                                    Some(Consts.MaxReservationDuration), Some(start), Some(start), Some(true));
            ValidReservation(d)
  {
    NotBlankIffVisibleChar("R1");
    assert "R1"[0] > ' ';
    NotBlankIffVisibleChar("Suite");
    assert "Suite"[0] > ' ';
  }

  /** A customer record dated today or later fails @Past. */
  lemma BirthTodayIsInvalid(d: CustomerDTO, today: Date)
    requires d.dateOfBirth == Some(today)
    ensures !ValidCustomer(d, today)
  {
  }

  // ---------------------------------------------------------------------
  // Field-for-field copies between records and entities. A null id is
  // copied as the primitive default 0; the audit fields, which records do
  // not carry, come out null.

  /** The fields an entity's NOT NULL columns need. */
  predicate CustomerMappable(d: CustomerDTO) {
    d.name.Some? && d.cpf.Some? && d.email.Some?
  }

  predicate RoomMappable(d: RoomDTO) {
    && d.number.Some? && d.description.Some? && d.size.Some?
    && d.pricePerMonth.Some? && d.busy.Some? && d.active.Some?
  }

  predicate ReservationMappable(d: ReservationDTO) {
    && d.code.Some?
    && d.customer.Some? && CustomerMappable(d.customer.value)
    && d.reservedRoom.Some? && RoomMappable(d.reservedRoom.value)
    && d.reservationPrice.Some? && d.description.Some? && d.duration.Some?
    && d.startDate.Some? && d.endDate.Some? && d.active.Some?
  }

  function ToCustomer(d: CustomerDTO): (c: Customer)
    requires CustomerMappable(d)
    ensures c.id == d.id.GetOr(0) && c.audit == NoAudit
    // copying back gives the record, with the id the entity received
    ensures ToCustomerDTO(c) == d.(id := Some(c.id))
  {
    Customer(d.id.GetOr(0), d.name.value, d.dateOfBirth, d.cpf.value, d.email.value, NoAudit)
  }

  function ToRoom(d: RoomDTO): (r: Room)
    requires RoomMappable(d)
    ensures r.id == d.id.GetOr(0) && r.audit == NoAudit
    ensures ToRoomDTO(r) == d.(id := Some(r.id))
  {
    Room(d.id.GetOr(0), d.number.value, d.description.value, d.size.value,
         d.pricePerMonth.value, d.busy.value, d.active.value, NoAudit)
  }

  function ToReservation(d: ReservationDTO): (r: Reservation)
    requires ReservationMappable(d)
    ensures r.id == d.id.GetOr(0) && r.audit == NoAudit
    ensures r.customer == ToCustomer(d.customer.value) && r.reservedRoom == ToRoom(d.reservedRoom.value)
    ensures ToReservationDTO(r)
         == d.(id := Some(r.id),
               customer := Some(d.customer.value.(id := Some(r.customer.id))),
               reservedRoom := Some(d.reservedRoom.value.(id := Some(r.reservedRoom.id))))
  {
    Reservation(d.id.GetOr(0), d.code.value, ToCustomer(d.customer.value), ToRoom(d.reservedRoom.value),
                d.reservationPrice.value, d.description.value, d.duration.value,
                d.startDate.value, d.endDate.value, d.active.value, NoAudit)
  }

  /** The entity-to-record copy behind every read: every column but the
      audit fields, the id always present. */
  function ToCustomerDTO(c: Customer): (d: CustomerDTO)
    ensures CustomerMappable(d) && d.id == Some(c.id)
  {
    CustomerDTO(Some(c.id), Some(c.name), c.dateOfBirth, Some(c.cpf), Some(c.email))
  }

  function ToRoomDTO(r: Room): (d: RoomDTO)
    ensures RoomMappable(d) && d.id == Some(r.id)
  {
    RoomDTO(Some(r.id), Some(r.number), Some(r.description), Some(r.size),
            Some(r.pricePerMonth), Some(r.busy), Some(r.active))
  }

  function ToReservationDTO(r: Reservation): (d: ReservationDTO)
    ensures ReservationMappable(d) && d.id == Some(r.id)
    ensures d.customer.value.id == Some(r.customer.id) && d.reservedRoom.value.id == Some(r.reservedRoom.id)
  {
    ReservationDTO(Some(r.id), Some(r.code), Some(ToCustomerDTO(r.customer)), Some(ToRoomDTO(r.reservedRoom)),
                   Some(r.reservationPrice), Some(r.description), Some(r.duration),
                   Some(r.startDate), Some(r.endDate), Some(r.active))
  }

  /** Copying an entity to its record and back loses only the audit fields. */
  lemma CustomerRoundTrip(c: Customer)
    ensures ToCustomer(ToCustomerDTO(c)) == c.(audit := NoAudit)
  {
  }

  lemma RoomRoundTrip(r: Room)
    ensures ToRoom(ToRoomDTO(r)) == r.(audit := NoAudit)
  {
  }

  lemma ReservationRoundTrip(r: Reservation)
    ensures ToReservation(ToReservationDTO(r))
         == r.(customer := r.customer.(audit := NoAudit),
               reservedRoom := r.reservedRoom.(audit := NoAudit),
               audit := NoAudit)
  {
  }

  /** Copying a complete record with an id to an entity and back gives it back. */
  lemma ReservationDTORoundTrip(d: ReservationDTO)
    requires ReservationMappable(d)
    requires d.id.Some? && d.customer.value.id.Some? && d.reservedRoom.value.id.Some?
    ensures ToReservationDTO(ToReservation(d)) == d
  {
  }
}
