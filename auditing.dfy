/** AuditUtils and the four audit fields every entity carries
    (AuditInterface). Timestamps are milliseconds since the epoch; the
    clock reading is passed in as `now`. */
module Auditing {
  import opened Wrappers

  type Timestamp = int

  /** The fixed actor written into every audit field. */
  const Admin: string := "Admin"

  datatype AuditFields = AuditFields(
    createdBy: Option<string>,
    createdAt: Option<Timestamp>,
    updatedBy: Option<string>,
    updatedAt: Option<Timestamp>)

  /** The audit fields of a freshly mapped entity: all null. */
  const NoAudit: AuditFields := AuditFields(None, None, None, None)

  /** The audit fields after one call of AuditDefineFields at time `now`. */
  function Stamped(a: AuditFields, now: Timestamp): (r: AuditFields)
    // the created fields are written only when one of them is missing, and then both are
    ensures a.createdAt.None? || a.createdBy.None? ==>
              r.createdBy == Some(Admin) && r.createdAt == Some(now)
    ensures a.createdAt.Some? && a.createdBy.Some? ==>
              r.createdBy == a.createdBy && r.createdAt == a.createdAt
    // the updated fields are written on every call
    ensures r.updatedBy == Some(Admin) && r.updatedAt == Some(now)
  {
    var created :=
      if a.createdAt.None? || a.createdBy.None? then a.(createdBy := Some(Admin), createdAt := Some(now))
      else a;
    created.(updatedBy := Some(Admin), updatedAt := Some(now))
  }

  /** AuditUtils.AuditDefineFields: one timestamp is read and the fields
      are set one by one. The entity is a value here, so the stamped
      fields are returned rather than written into the caller's object. */
  method AuditDefineFields(a: AuditFields, now: Timestamp) returns (r: AuditFields)
    ensures r == Stamped(a, now)
  {
    var timestamp := now;
    r := a;
    if r.createdAt.None? || r.createdBy.None? {
      r := r.(createdBy := Some(Admin));
      r := r.(createdAt := Some(timestamp));
    }
    r := r.(updatedBy := Some(Admin));
    r := r.(updatedAt := Some(timestamp));
  }

  /** After a stamp all four audit fields are present. */
  lemma StampedIsComplete(a: AuditFields, now: Timestamp)
    ensures var r := Stamped(a, now);
      r.createdBy.Some? && r.createdAt.Some? && r.updatedBy.Some? && r.updatedAt.Some?
  {
  }

  /** The first stamp uses one timestamp for creation and update. */
  lemma FirstStampTimesAgree(now: Timestamp)
    ensures Stamped(NoAudit, now).createdAt == Stamped(NoAudit, now).updatedAt == Some(now)
  {
  }

  /** Stamping again keeps the created fields of the first stamp and
      moves only the update time. */
  lemma StampTwice(a: AuditFields, t1: Timestamp, t2: Timestamp)
    ensures Stamped(Stamped(a, t1), t2) == Stamped(a, t1).(updatedAt := Some(t2))
  {
  }
}
