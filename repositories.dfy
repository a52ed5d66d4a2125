/** The derived queries of the reservation and room repositories, as
    filters over the stored maps. The order of the returned lists is not
    modelled: a query returns the sub-map of the matching entities. */
module Repositories {
  import opened Wrappers
  import opened Dates
  import opened Entities

  /** Every entry of `a` is an entry of `b`. */
  ghost predicate SubMap<K, V>(a: map<K, V>, b: map<K, V>) {
    forall k :: k in a ==> k in b && a[k] == b[k]
  }

  /** ReservationRepository.search: `r.active = :active OR r.endDate BETWEEN
      CURRENT_DATE AND :endsIn`. BETWEEN includes both ends. With a null
      `active` the first comparison is unknown in SQL, so only the date
      clause can select a row. */
  function Search(rs: map<int, Reservation>, active: Option<bool>, today: Date, endsIn: Date)
    : (r: map<int, Reservation>)
    ensures SubMap(r, rs)
  {
    map id | id in rs
               && ((active.Some? && rs[id].active == active.value)
                   || (OnOrBefore(today, rs[id].endDate) && OnOrBefore(rs[id].endDate, endsIn)))
           :: rs[id]
  }

  /** Every reservation whose `active` equals the requested flag is found. */
  lemma SearchFindsActiveMatch(rs: map<int, Reservation>, active: bool, today: Date, endsIn: Date, id: int)
    requires id in rs && rs[id].active == active
    ensures id in Search(rs, Some(active), today, endsIn)
  {
  }

  /** Every reservation ending between today and `endsIn`, both included,
      is found, whatever its `active` flag and whatever flag was asked for. */
  lemma SearchFindsEndingSoon(rs: map<int, Reservation>, active: Option<bool>, today: Date, endsIn: Date, id: int)
    requires id in rs && OnOrBefore(today, rs[id].endDate) && OnOrBefore(rs[id].endDate, endsIn)
    ensures id in Search(rs, active, today, endsIn)
  {
  }

  /** A reservation meeting neither clause is left out. */
  lemma SearchExcludesOthers(rs: map<int, Reservation>, active: Option<bool>, today: Date, endsIn: Date, id: int)
    requires id in rs
    requires active.None? || rs[id].active != active.value
    requires !(OnOrBefore(today, rs[id].endDate) && OnOrBefore(rs[id].endDate, endsIn))
    ensures id !in Search(rs, active, today, endsIn)
  {
  }

  /** ReservationRepository.findByCustomerId. */
  function FindByCustomerId(rs: map<int, Reservation>, customerId: int): (r: map<int, Reservation>)
    ensures SubMap(r, rs)
    ensures forall id :: id in rs && rs[id].customer.id == customerId ==> id in r
    ensures forall id :: id in r ==> r[id].customer.id == customerId
  {
    map id | id in rs && rs[id].customer.id == customerId :: rs[id]
  }

  /** ReservationRepository.findByReservedRoomId. */
  function FindByReservedRoomId(rs: map<int, Reservation>, roomId: int): (r: map<int, Reservation>)
    ensures SubMap(r, rs)
    ensures forall id :: id in rs && rs[id].reservedRoom.id == roomId ==> id in r
    ensures forall id :: id in r ==> r[id].reservedRoom.id == roomId
  {
    map id | id in rs && rs[id].reservedRoom.id == roomId :: rs[id]
  }

  /** RoomRepository.findByBusy. */
  function FindByBusy(rooms: map<int, Room>, busy: bool): (r: map<int, Room>)
    ensures SubMap(r, rooms)
    ensures forall id :: id in rooms && rooms[id].busy == busy ==> id in r
    ensures forall id :: id in r ==> r[id].busy == busy
  {
    map id | id in rooms && rooms[id].busy == busy :: rooms[id]
  }

  /** The busy rooms and the free rooms split the store in two. */
  lemma FindByBusyPartitions(rooms: map<int, Room>)
    ensures FindByBusy(rooms, true).Keys !! FindByBusy(rooms, false).Keys
    ensures FindByBusy(rooms, true) + FindByBusy(rooms, false) == rooms
  {
    var busy, free := FindByBusy(rooms, true), FindByBusy(rooms, false);
    assert (busy + free).Keys == rooms.Keys by {
      forall id | id in rooms ensures id in busy + free {
        if rooms[id].busy { assert id in busy; } else { assert id in free; }
      }
    }
  }
}
