/** CustomerService: create with an age guard, partial update, delete with a
    referential guard, and the read operations. `today` is the clock's
    date, `now` its timestamp; `persistOk` says whether the store accepts
    the write. */
module CustomerService {
  import opened Wrappers
  import opened Consts
  import opened Dates
  import opened Auditing
  import opened Entities
  import opened Dtos
  import opened Repositories
  import opened Store

  /** listAll: every stored customer, copied to its record. */
  method ListAll(db: Database) returns (r: map<int, CustomerDTO>)
    ensures r.Keys == db.customers.Keys
    ensures forall id :: id in r ==> r[id] == ToCustomerDTO(db.customers[id])
  {
    r := map id | id in db.customers :: ToCustomerDTO(db.customers[id]);
  }

  /** findById: the stored customer's record, or null when there is none. */
  method FindById(db: Database, id: int) returns (r: Option<CustomerDTO>)
    ensures id in db.customers ==> r == Some(ToCustomerDTO(db.customers[id]))
    ensures id !in db.customers ==> r == None
  {
    if id in db.customers {
      r := Some(ToCustomerDTO(db.customers[id]));
    } else {
      r := None;
    }
  }

  /** deleteById: not found, blocked by a reservation of this customer, or
      deleted. Only the customer table can change. */
  method DeleteById(db: Database, id: int) returns (res: Result<bool, Error>)
    requires db.Valid()
    modifies db`customers
    ensures db.Valid()
    ensures id !in old(db.customers) ==>
              res == Ok(false) && db.customers == old(db.customers)
    ensures id in old(db.customers) && FindByCustomerId(db.reservations, id) != map[] ==>
              res == Err(UnableToDelete) && db.customers == old(db.customers)
    ensures id in old(db.customers) && FindByCustomerId(db.reservations, id) == map[] ==>
              res == Ok(true) && db.customers == old(db.customers) - {id}
  {
    if id !in db.customers {
      return Ok(false);
    }
    if FindByCustomerId(db.reservations, id) != map[] {
      return Err(UnableToDelete);
    }
    db.RemoveCustomer(id);
    res := Ok(true);
  }

  /** The fields of a stored customer after the partial update of
      `update`: a string field is replaced only by a non-empty string, the
      date of birth only by a non-null date. Age is not checked again. */
  function MergeCustomer(c: Customer, d: CustomerDTO): (r: Customer)
    requires d.name.Some? && d.cpf.Some? && d.email.Some?
    // the identity and the audit fields are not the record's to change
    ensures r.id == c.id && r.audit == c.audit
    // every field is either kept or taken from the record
    ensures r.name in {c.name, d.name.value} && r.cpf in {c.cpf, d.cpf.value} && r.email in {c.email, d.email.value}
    ensures r.dateOfBirth in {c.dateOfBirth, d.dateOfBirth}
    // a filled-in field never becomes empty
    ensures c.name != [] ==> r.name != []
    ensures c.cpf != [] ==> r.cpf != []
    ensures c.email != [] ==> r.email != []
    ensures c.dateOfBirth.Some? ==> r.dateOfBirth.Some?
  {
    c.(name := if d.name.value != [] then d.name.value else c.name,
       dateOfBirth := if d.dateOfBirth.Some? then d.dateOfBirth else c.dateOfBirth,
       cpf := if d.cpf.value != [] then d.cpf.value else c.cpf,
       email := if d.email.value != [] then d.email.value else c.email)
  }

  /** update: the stored customer is merged with the record field by field,
      stamped and saved, and its id returned. The creation stamp is not
      an updatable column, so the row keeps the one it has. A missing id gives null, or
      UPDATE_ERROR when the store's existence check (`existsAfterMiss`,
      asked after the lookup missed) still reports the id as present. */
  method Update(db: Database, d: CustomerDTO, id: int, now: Timestamp, existsAfterMiss: bool)
    returns (res: Result<Option<int>, Error>)
    requires db.Valid()
    requires id in db.customers ==> d.name.Some? && d.cpf.Some? && d.email.Some?
    modifies db`customers
    ensures db.Valid()
    ensures id in old(db.customers) ==>
              && res == Ok(Some(id))
              && var c := old(db.customers[id]);
                 db.customers == old(db.customers)[id := MergeCustomer(c, d).(audit := MergedAudit(c.audit, Stamped(c.audit, now)))]
    ensures id !in old(db.customers) ==>
              && db.customers == old(db.customers)
              && res == if existsAfterMiss then Err(UpdateError) else Ok(None)
  {
    if id in db.customers {
      var customer := db.customers[id];
      if d.name.value != [] {
        customer := customer.(name := d.name.value);
      }
      if d.dateOfBirth.Some? {
        customer := customer.(dateOfBirth := d.dateOfBirth);
      }
      if d.cpf.value != [] {
        customer := customer.(cpf := d.cpf.value);
      }
      if d.email.value != [] {
        customer := customer.(email := d.email.value);
      }
      var audit := AuditDefineFields(customer.audit, now);
      // createdBy and createdAt are not updatable: the row keeps its own
      customer := customer.(audit := MergedAudit(customer.audit, audit));
      db.PutCustomer(customer);
      return Ok(Some(customer.id));
    }
    if !existsAfterMiss {
      return Ok(None);
    }
    res := Err(UpdateError);
  }

  /** save (and create, which only calls it): customers younger than 18
      whole years are refused before anything is written; otherwise the
      record is copied, stamped and inserted, and any failure on the way is
      reported as INSERT_ERROR. */
  method Save(db: Database, d: CustomerDTO, today: Date, now: Timestamp, persistOk: bool)
    returns (res: Result<int, Error>)
    requires db.Valid()
    requires ValidCustomer(d, today) && d.dateOfBirth.Some?
    modifies db`customers, db`nextCustomerId
    ensures db.Valid()
    ensures AgeInYears(d.dateOfBirth.value, today) < MinimumAge ==>
              res == Err(AgeShouldBeBiggerThanEighteen)
    ensures AgeInYears(d.dateOfBirth.value, today) >= MinimumAge && !persistOk ==>
              res == Err(InsertError)
    ensures res.Err? ==>
              db.customers == old(db.customers) && db.nextCustomerId == old(db.nextCustomerId)
    ensures AgeInYears(d.dateOfBirth.value, today) >= MinimumAge && persistOk ==>
              && res == Ok(old(db.nextCustomerId))
              && res.value !in old(db.customers)
              && db.nextCustomerId == old(db.nextCustomerId) + 1
              && db.customers == old(db.customers)[res.value := ToCustomer(d).(id := res.value, audit := Stamped(NoAudit, now))]
  {
    if AgeInYears(d.dateOfBirth.value, today) < MinimumAge {
      return Err(AgeShouldBeBiggerThanEighteen);
    }
    if !persistOk {
      return Err(InsertError);
    }
    var customer := ToCustomer(d);
    var audit := AuditDefineFields(customer.audit, now);
    customer := customer.(audit := audit);
    var id := db.InsertCustomer(customer);
    res := Ok(id);
  }

  /** The age guard of save refuses exactly the customers whose 18th
      birthday has not yet come. */
  lemma AgeGuardIsEighteenthBirthday(dateOfBirth: Date, today: Date)
    requires OnOrBefore(dateOfBirth, today)
    ensures AgeInYears(dateOfBirth, today) < MinimumAge <==> !AnniversaryReached(dateOfBirth, today, MinimumAge)
  {
    AgeIsWholeYears(dateOfBirth, today, MinimumAge);
  }

  /** A customer accepted by save stays old enough as the days pass. */
  lemma AcceptedStaysAdult(dateOfBirth: Date, today: Date, later: Date)
    requires OnOrBefore(dateOfBirth, today) && OnOrBefore(today, later)
    requires AgeInYears(dateOfBirth, today) >= MinimumAge
    ensures AgeInYears(dateOfBirth, later) >= MinimumAge
  {
    AgeMonotonic(dateOfBirth, today, later);
  }

  /** Empty strings and a null date leave a customer as it was. */
  lemma BlankUpdateKeepsCustomer(c: Customer, d: CustomerDTO)
    requires d.name == Some([]) && d.cpf == Some([]) && d.email == Some([]) && d.dateOfBirth.None?
    ensures MergeCustomer(c, d) == c
  {
  }

  /** A record whose fields pass validation replaces every field it carries;
      the id and the audit fields stay those of the stored customer. */
  lemma ValidUpdateReplacesFields(c: Customer, d: CustomerDTO, today: Date)
    requires ValidCustomer(d, today)
    ensures MergeCustomer(c, d)
         == ToCustomer(d).(id := c.id, audit := c.audit,
                           dateOfBirth := if d.dateOfBirth.Some? then d.dateOfBirth else c.dateOfBirth)
  {
  }

  /** Applying the same partial update twice is the same as applying it once. */
  lemma MergeCustomerIdempotent(c: Customer, d: CustomerDTO)
    requires d.name.Some? && d.cpf.Some? && d.email.Some?
    ensures MergeCustomer(MergeCustomer(c, d), d) == MergeCustomer(c, d)
  {
  }
}
