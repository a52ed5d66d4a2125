/** The in-memory store behind the three repositories: one map per table,
    keyed by id, and one IDENTITY counter per table. The repositories'
    create/read/update/delete operations are map operations here. */
module Store {
  import opened Wrappers
  import opened Auditing
  import opened Entities

  // -----------------------------------------------------------------------
  // Cascade MERGE: when the repository merges a reservation (one that
  // already has an id), the merge carries on to the customer and the room
  // it refers to. Persisting a new reservation does not.

  /** The audit fields of a row after a merge: createdBy and createdAt are
      not updatable columns and keep the row's values; the updated fields
      take the merged copy's values. */
  function MergedAudit(row: AuditFields, copy: AuditFields): (a: AuditFields)
    ensures a.createdBy == row.createdBy && a.createdAt == row.createdAt
    ensures a.updatedBy == copy.updatedBy && a.updatedAt == copy.updatedAt
  {
    copy.(createdBy := row.createdBy, createdAt := row.createdAt)
  }

  /** The customer table after merging the copy `c`: the row with c's id
      takes c's state except its creation stamp. A copy whose id has no
      row leaves the table as it is. */
  function CustomerMerged(customers: map<int, Customer>, c: Customer): (r: map<int, Customer>)
    ensures r.Keys == customers.Keys
    ensures forall id :: id in r && id != c.id ==> r[id] == customers[id]
    ensures c.id in r ==> r[c.id].(audit := c.audit) == c
    ensures c.id in r ==> r[c.id].audit == MergedAudit(customers[c.id].audit, c.audit)
  {
    if c.id in customers then customers[c.id := c.(audit := MergedAudit(customers[c.id].audit, c.audit))]
    else customers
  }

  /** The room table after merging the copy `room`, as for customers. */
  function RoomMerged(rooms: map<int, Room>, room: Room): (r: map<int, Room>)
    ensures r.Keys == rooms.Keys
    ensures forall id :: id in r && id != room.id ==> r[id] == rooms[id]
    ensures room.id in r ==> r[room.id].(audit := room.audit) == room
    ensures room.id in r ==> r[room.id].audit == MergedAudit(rooms[room.id].audit, room.audit)
  {
    if room.id in rooms then rooms[room.id := room.(audit := MergedAudit(rooms[room.id].audit, room.audit))]
    else rooms
  }

  /** Re-stamping a stored row (the updates) moves only its updated fields:
      the row keeps its creation stamp, even a missing one. */
  lemma RestampKeepsCreation(row: AuditFields, now: Timestamp)
    ensures MergedAudit(row, Stamped(row, now)) == row.(updatedBy := Some(Admin), updatedAt := Some(now))
  {
  }

  /** Merging the same copy twice is merging it once. */
  lemma RoomMergedIdempotent(rooms: map<int, Room>, room: Room)
    ensures RoomMerged(RoomMerged(rooms, room), room) == RoomMerged(rooms, room)
  {
  }

  lemma CustomerMergedIdempotent(customers: map<int, Customer>, c: Customer)
    ensures CustomerMerged(CustomerMerged(customers, c), c) == CustomerMerged(customers, c)
  {
  }

  class Database {
    var customers: map<int, Customer>
    var rooms: map<int, Room>
    var reservations: map<int, Reservation>
    var nextCustomerId: int
    var nextRoomId: int
    var nextReservationId: int

    /** Every stored entity sits under its own id, and every id is below
        the next one its table will generate (identities start at 1). */
    ghost predicate Valid()
      reads this
    {
      && 1 <= nextCustomerId && 1 <= nextRoomId && 1 <= nextReservationId
      && (forall id :: id in customers ==> 1 <= id < nextCustomerId && customers[id].id == id)
      && (forall id :: id in rooms ==> 1 <= id < nextRoomId && rooms[id].id == id)
      && (forall id :: id in reservations ==> 1 <= id < nextReservationId && reservations[id].id == id)
    }

    constructor ()
      ensures Valid()
      ensures customers == map[] && rooms == map[] && reservations == map[]
      ensures nextCustomerId == 1 && nextRoomId == 1 && nextReservationId == 1
    {
      customers, rooms, reservations := map[], map[], map[];
      nextCustomerId, nextRoomId, nextReservationId := 1, 1, 1;
    }

    /** Saving a new customer: the table generates its id. */
    method InsertCustomer(c: Customer) returns (id: int)
      requires Valid()
      modifies this`customers, this`nextCustomerId
      ensures Valid()
      ensures id == old(nextCustomerId) && id !in old(customers)
      ensures customers == old(customers)[id := c.(id := id)]
      ensures nextCustomerId == old(nextCustomerId) + 1
    {
      id := nextCustomerId;
      customers := customers[id := c.(id := id)];
      nextCustomerId := nextCustomerId + 1;
    }

    method InsertRoom(r: Room) returns (id: int)
      requires Valid()
      modifies this`rooms, this`nextRoomId
      ensures Valid()
      ensures id == old(nextRoomId) && id !in old(rooms)
      ensures rooms == old(rooms)[id := r.(id := id)]
      ensures nextRoomId == old(nextRoomId) + 1
    {
      id := nextRoomId;
      rooms := rooms[id := r.(id := id)];
      nextRoomId := nextRoomId + 1;
    }

    method InsertReservation(r: Reservation) returns (id: int)
      requires Valid()
      modifies this`reservations, this`nextReservationId
      ensures Valid()
      ensures id == old(nextReservationId) && id !in old(reservations)
      ensures reservations == old(reservations)[id := r.(id := id)]
      ensures nextReservationId == old(nextReservationId) + 1
    {
      id := nextReservationId;
      reservations := reservations[id := r.(id := id)];
      nextReservationId := nextReservationId + 1;
    }

    /** Saving an entity that is already stored overwrites it. */
    method PutCustomer(c: Customer)
      requires Valid() && c.id in customers
      modifies this`customers
      ensures Valid()
      ensures customers == old(customers)[c.id := c]
    {
      customers := customers[c.id := c];
    }

    method PutRoom(r: Room)
      requires Valid() && r.id in rooms
      modifies this`rooms
      ensures Valid()
      ensures rooms == old(rooms)[r.id := r]
    {
      rooms := rooms[r.id := r];
    }

    method PutReservation(r: Reservation)
      requires Valid() && r.id in reservations
      modifies this`reservations
      ensures Valid()
      ensures reservations == old(reservations)[r.id := r]
    {
      reservations := reservations[r.id := r];
    }

    /** The cascade merge of a customer copy into its table. */
    method CascadeCustomer(c: Customer)
      requires Valid()
      modifies this`customers
      ensures Valid()
      ensures customers == CustomerMerged(old(customers), c)
    {
      if c.id in customers {
        customers := customers[c.id := c.(audit := MergedAudit(customers[c.id].audit, c.audit))];
      }
    }

    /** The cascade merge of a room copy into its table. */
    method CascadeRoom(r: Room)
      requires Valid()
      modifies this`rooms
      ensures Valid()
      ensures rooms == RoomMerged(old(rooms), r)
    {
      if r.id in rooms {
        rooms := rooms[r.id := r.(audit := MergedAudit(rooms[r.id].audit, r.audit))];
      }
    }

    method RemoveCustomer(id: int)
      requires Valid()
      modifies this`customers
      ensures Valid()
      ensures customers == old(customers) - {id}
    {
      customers := customers - {id};
    }

    method RemoveRoom(id: int)
      requires Valid()
      modifies this`rooms
      ensures Valid()
      ensures rooms == old(rooms) - {id}
    {
      rooms := rooms - {id};
    }

    method RemoveReservation(id: int)
      requires Valid()
      modifies this`reservations
      ensures Valid()
      ensures reservations == old(reservations) - {id}
    {
      reservations := reservations - {id};
    }
  }
}
