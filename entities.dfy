/** The three persisted entities. Each is a value; the store keeps them in
    maps keyed by id. A reservation refers to its customer and its room by
    their ids; it also carries the copies it was saved with, which a query
    replaces by the current rows (ReservationService.Joined). */
module Entities {
  import opened Wrappers
  import opened Dates
  import opened Auditing

  datatype Customer = Customer(
    id: int,
    name: string,
    dateOfBirth: Option<Date>,
    cpf: string,
    email: string,
    audit: AuditFields)

  datatype Room = Room(
    id: int,
    number: int,
    description: string,
    size: real,
    pricePerMonth: real,
    busy: bool,
    active: bool,
    audit: AuditFields)

  datatype Reservation = Reservation(
    id: int,
    code: string,
    customer: Customer,
    reservedRoom: Room,
    reservationPrice: real,
    description: string,
    duration: int,
    startDate: Date,
    endDate: Date,
    active: bool,
    audit: AuditFields)
}
