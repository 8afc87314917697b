/** The lease table as an object (crates/workflow-store/src/leases.rs:14-116). */
module LeaseTable {
  import opened LeaseSpec
  import opened Wrappers

  class LeaseStore {
    var rows: Rows

    constructor ()
      ensures rows == map[] && Keyed(rows)
    {
      rows := map[];
    }

    /** `acquire_lease`, one transaction. */
    method Acquire(t: TaskId, owner: SessionId, now: Millis, duration: Millis, safety: Safety, id: LeaseId)
      returns (r: Result<Acquisition, LeaseError>)
      requires Keyed(rows) && forall u :: !Holds(rows, id, u)
      modifies this
      ensures Keyed(rows) && (rows, r) == AfterAcquire(old(rows), t, owner, now, duration, safety, id)
    {
      if t in rows {
        var row := rows[t];
        if row.uncertain || Reconcile(row.lease, now) == ReviewRequired {
          rows := rows[t := row.(uncertain := true)];
          assert forall u :: u in rows ==> rows[u].lease == old(rows)[u].lease;
          return Success(ManualReviewRequired(row.lease));
        }
        if Reconcile(row.lease, now) == StillActive { return Success(Occupied(row.lease)); }
      }
      var expires := Expiry(now, duration);
      if expires.Failure? { return Failure(expires.error); }
      var lease := Lease(id, t, owner, now, expires.value, safety);
      assert forall u :: u in rows ==> Holds(rows, rows[u].lease.id, u);
      rows := rows[t := Row(lease, false)];
      return Success(Acquired(lease));
    }

    /** `heartbeat_lease`. */
    method Heartbeat(id: LeaseId, now: Millis, duration: Millis) returns (r: Result<Lease, LeaseError>)
      requires Keyed(rows)
      modifies this
      ensures Keyed(rows)
      ensures var t := TaskOf(old(rows), id);
              if t.None? || old(rows)[t.value].uncertain then rows == old(rows) && r == Failure(NotFound)
              else (rows, r) == AfterHeartbeat(old(rows), t.value, now, duration)
    {
      var found := set t | t in rows && rows[t].lease.id == id && !rows[t].uncertain;
      if found == {} {
        assert TaskOf(rows, id).Some? ==> TaskOf(rows, id).value in found || rows[TaskOf(rows, id).value].uncertain;
        return Failure(NotFound);
      }
      var t :| t in found;
      OneTask(rows, id, t);
      var lease := rows[t].lease;
      if now > lease.expires { return Failure(Expired); }
      var expires := Expiry(now, duration);
      if expires.Failure? { return Failure(expires.error); }
      lease := lease.(expires := expires.value);
      rows := rows[t := rows[t].(lease := lease)];
      assert forall u :: u in rows ==> rows[u].lease.id == old(rows)[u].lease.id;
      return Success(lease);
    }

    /** `release_lease`. */
    method Release(id: LeaseId) returns (found: bool)
      requires Keyed(rows)
      modifies this
      ensures Keyed(rows)
      ensures var t := TaskOf(old(rows), id);
                found == t.Some? && rows == if t.Some? then old(rows) - {t.value} else old(rows)
    {
      var gone := set t | t in rows && rows[t].lease.id == id;
      if gone == {} {
        assert forall t :: t in rows ==> t !in gone;
        return false;
      }
      ghost var t :| t in gone;
      OneTask(rows, id, t);
      assert gone == {t};
      rows := rows - gone;
      return |gone| == 1;
    }
  }
}
