/** RoomService: create without business checks, partial update, delete
    with a referential guard, and the read operations. `now` is the
    clock's timestamp; `persistOk` says whether the store accepts the write. */
module RoomService {
  import opened Wrappers
  import opened Consts
  import opened Auditing
  import opened Entities
  import opened Dtos
  import opened Repositories
  import opened Store

  /** listAll: every stored room, copied to its record. */
  method ListAll(db: Database) returns (r: map<int, RoomDTO>)
    ensures r.Keys == db.rooms.Keys
    ensures forall id :: id in r ==> r[id] == ToRoomDTO(db.rooms[id])
  {
    r := map id | id in db.rooms :: ToRoomDTO(db.rooms[id]);
  }

  /** findById: the stored room's record, or null when there is none. */
  method FindById(db: Database, id: int) returns (r: Option<RoomDTO>)
    ensures id in db.rooms ==> r == Some(ToRoomDTO(db.rooms[id]))
    ensures id !in db.rooms ==> r == None
  {
    if id in db.rooms {
      r := Some(ToRoomDTO(db.rooms[id]));
    } else {
      r := None;
    }
  }

  /** findByBusy: the records of exactly the rooms whose busy flag is `busy`. */
  method FindByBusy(db: Database, busy: bool) returns (r: map<int, RoomDTO>)
    ensures forall id :: id in r <==> id in db.rooms && db.rooms[id].busy == busy
    ensures forall id :: id in r ==> r[id] == ToRoomDTO(db.rooms[id]) && r[id].busy == Some(busy)
  {
    var found := Repositories.FindByBusy(db.rooms, busy);
    r := map id | id in found :: ToRoomDTO(found[id]);
  }

  /** deleteById: not found, blocked by a reservation of this room, or
      deleted. Only the room table can change. */
  method DeleteById(db: Database, id: int) returns (res: Result<bool, Error>)
    requires db.Valid()
    modifies db`rooms
    ensures db.Valid()
    ensures id !in old(db.rooms) ==>
              res == Ok(false) && db.rooms == old(db.rooms)
    ensures id in old(db.rooms) && FindByReservedRoomId(db.reservations, id) != map[] ==>
              res == Err(UnableToDelete) && db.rooms == old(db.rooms)
    ensures id in old(db.rooms) && FindByReservedRoomId(db.reservations, id) == map[] ==>
              res == Ok(true) && db.rooms == old(db.rooms) - {id}
  {
    if id !in db.rooms {
      return Ok(false);
    }
    if FindByReservedRoomId(db.reservations, id) != map[] {
      return Err(UnableToDelete);
    }
    db.RemoveRoom(id);
    res := Ok(true);
  }

  /** The fields of a stored room after the partial update of `update`.
      The guards on number, size, price, busy and active test whether the
      box's toString() is empty, which a present box never is: those fields
      are always replaced. Only the description keeps its old value, when
      the new one is empty. */
  function MergeRoom(r: Room, d: RoomDTO): (m: Room)
    requires RoomMappable(d)
    // the identity and the audit fields are not the record's to change
    ensures m.id == r.id && m.audit == r.audit
    // a non-empty description never becomes empty
    ensures m.description in {r.description, d.description.value}
    ensures r.description != [] ==> m.description != []
  {
    r.(number := d.number.value,
       description := if d.description.value != [] then d.description.value else r.description,
       size := d.size.value,
       pricePerMonth := d.pricePerMonth.value,
       busy := d.busy.value,
       active := d.active.value)
  }

  /** update: the stored room is merged with the record field by field,
      stamped and saved, and its id returned. The creation stamp is not
      an updatable column, so the row keeps the one it has. A missing id gives null, or
      UPDATE_ERROR when the store's existence check (`existsAfterMiss`)
      still reports the id as present. */
  method Update(db: Database, d: RoomDTO, id: int, now: Timestamp, existsAfterMiss: bool)
    returns (res: Result<Option<int>, Error>)
    requires db.Valid()
    requires id in db.rooms ==> RoomMappable(d)
    modifies db`rooms
    ensures db.Valid()
    ensures id in old(db.rooms) ==>
              && res == Ok(Some(id))
              && var r := old(db.rooms[id]);
                 db.rooms == old(db.rooms)[id := MergeRoom(r, d).(audit := MergedAudit(r.audit, Stamped(r.audit, now)))]
    ensures id !in old(db.rooms) ==>
              && db.rooms == old(db.rooms)
              && res == if existsAfterMiss then Err(UpdateError) else Ok(None)
  {
    if id in db.rooms {
      var room := db.rooms[id];
      // toString() of a present Integer, Double or Boolean is never empty
      room := room.(number := d.number.value);
      if d.description.value != [] {
        room := room.(description := d.description.value);
      }
      room := room.(size := d.size.value);
      room := room.(pricePerMonth := d.pricePerMonth.value);
      room := room.(busy := d.busy.value);
      room := room.(active := d.active.value);
      var audit := AuditDefineFields(room.audit, now);
      // createdBy and createdAt are not updatable: the row keeps its own
      room := room.(audit := MergedAudit(room.audit, audit));
      db.PutRoom(room);
      return Ok(Some(room.id));
    }
    if !existsAfterMiss {
      return Ok(None);
    }
    res := Err(UpdateError);
  }

  /** save (and create, which only calls it): no business rule; the record
      is copied, stamped and inserted, and any failure on the way is
      reported as INSERT_ERROR. */
  method Save(db: Database, d: RoomDTO, now: Timestamp, persistOk: bool)
    returns (res: Result<int, Error>)
    requires db.Valid()
    requires ValidRoom(d)
    modifies db`rooms, db`nextRoomId
    ensures db.Valid()
    ensures !persistOk ==>
              && res == Err(InsertError)
              && db.rooms == old(db.rooms) && db.nextRoomId == old(db.nextRoomId)
    ensures persistOk ==>
              && res == Ok(old(db.nextRoomId))
              && res.value !in old(db.rooms)
              && db.nextRoomId == old(db.nextRoomId) + 1
              && db.rooms == old(db.rooms)[res.value := ToRoom(d).(id := res.value, audit := Stamped(NoAudit, now))]
  {
    if !persistOk {
      return Err(InsertError);
    }
    var room := ToRoom(d);
    var audit := AuditDefineFields(room.audit, now);
    room := room.(audit := audit);
    var id := db.InsertRoom(room);
    res := Ok(id);
  }

  /** Update sets the busy flag to whatever the record says, so it can
      free a room that a reservation still holds. */
  lemma UpdateCanClearBusy(r: Room, d: RoomDTO)
    requires RoomMappable(d) && d.busy == Some(false)
    ensures !MergeRoom(r, d).busy
  {
  }

  /** With a non-empty description the update replaces every field the
      record carries; the id and the audit fields stay those of the stored room. */
  lemma FullUpdateReplacesRoom(r: Room, d: RoomDTO)
    requires RoomMappable(d) && d.description.value != []
    ensures MergeRoom(r, d) == ToRoom(d).(id := r.id, audit := r.audit)
  {
  }

  /** With an empty description the room keeps its description and takes
      every other field from the record. */
  lemma EmptyDescriptionKept(r: Room, d: RoomDTO)
    requires RoomMappable(d) && d.description == Some([])
    ensures MergeRoom(r, d) == ToRoom(d).(id := r.id, audit := r.audit, description := r.description)
  {
  }
}
