/**
 The delivery worker's queue (src/daily_agent/worker.py): rows are leased by a guarded UPDATE, delivered outside any
 transaction, and marked delivered only while still leased. `DeliveryQueue` is one worker's pass over the two tables.
 */
module Delivery {
  import opened Sorting

  const LEASE_SECONDS := 60
  const MAX_ATTEMPTS := 5
  const BATCH_SIZE := 50

  type Id = nat

  datatype Table = Outbox | Reminders

  /** `Pending` is the outbox's "queued" and the reminders' "scheduled". */
  datatype Status = Pending | Delivering | Delivered | Failed

  datatype Lease = NoLease | Until(instant: int)

  datatype Row = Row(table: Table, due: int, status: Status, attempts: nat, lease: Lease)

  type Rows = map<Id, Row>

  predicate LeaseRanOut(row: Row, now: int) {
    row.status == Delivering && row.lease.Until? && row.lease.instant < now
  }

  predicate Claimable(row: Row, now: int) {
    row.status == Pending || LeaseRanOut(row, now)
  }

  predicate Exhausted(row: Row, now: int) {
    LeaseRanOut(row, now) && row.attempts >= MAX_ATTEMPTS
  }

  function Leased(row: Row, now: int): Row {
    row.(status := Delivering, lease := Until(now + LEASE_SECONDS), attempts := row.attempts + 1)
  }

  /** The guarded UPDATE of `_claim` on one row. */
  function ClaimRow(rows: Rows, id: Id, now: int): Rows {
    if id in rows && Claimable(rows[id], now) then rows[id := Leased(rows[id], now)] else rows
  }

  /** The guarded UPDATE of `_finish`. */
  function FinishRow(rows: Rows, id: Id): Rows {
    if id in rows && rows[id].status == Delivering then rows[id := rows[id].(status := Delivered, lease := NoLease)]
    else rows
  }

  function FailRow(row: Row, table: Table, now: int): Row {
    if row.table == table && Exhausted(row, now) then row.(status := Failed, lease := NoLease) else row
  }

  /** The UPDATE of `_fail_exhausted`, over one table. */
  function FailRows(rows: Rows, table: Table, now: int): Rows {
    map id | id in rows :: FailRow(rows[id], table, now)
  }

  lemma DistinctUnion(a: seq<Id>, b: seq<Id>)
    requires Distinct(a) && Distinct(b) && forall id :: id in a ==> id !in b
    ensures Distinct(a + b)
  {
    forall i, j | 0 <= i < j < |a + b| ensures (a + b)[i] != (a + b)[j] {
      if i < |a| <= j {
        assert (a + b)[i] in a && (a + b)[j] in b;
      }
    }
  }

  /** What the SELECT of `_claim` returns: claimable rows of the table (due ones, for reminders), at most one batch. */
  predicate IsBatch(rows: Rows, table: Table, now: int, ids: seq<Id>) {
    && |ids| <= BATCH_SIZE
    && Distinct(ids)
    && forall id :: id in ids ==>
         id in rows && rows[id].table == table && Claimable(rows[id], now)
         && (table == Reminders ==> rows[id].due <= now)
  }

  /** A row after one undisturbed pass in which it was, or was not, in a batch. */
  function PassedRow(row: Row, now: int, picked: bool, sent: bool): Row {
    var row' := FailRow(row, row.table, now);
    if !picked then row'
    else if sent then Leased(row', now).(status := Delivered, lease := NoLease)
    else Leased(row', now)
  }

  class DeliveryQueue {
    var rows: Rows

    constructor (rows: Rows)
      ensures this.rows == rows
    {
      this.rows := rows;
    }

    method FailExhausted(table: Table, now: int)
      modifies this
      ensures rows == FailRows(old(rows), table, now)
    {
      rows := map id | id in rows :: FailRow(rows[id], table, now);
    }

    /** Lease the candidates one UPDATE at a time; returns the ids this worker won. */
    method Claim(candidates: seq<Id>, now: int) returns (claimed: seq<Id>)
      requires Distinct(candidates)
      modifies this
      ensures rows.Keys == old(rows.Keys)
      ensures forall id :: id in rows ==>
                rows[id] == if id in candidates && Claimable(old(rows)[id], now) then Leased(old(rows)[id], now)
                            else old(rows)[id]
      ensures Distinct(claimed)
      ensures forall id :: id in claimed <==> id in candidates && id in rows && Claimable(old(rows)[id], now)
    {
      claimed := [];
      for i := 0 to |candidates|
        invariant rows.Keys == old(rows.Keys)
        invariant forall id :: id in rows ==>
                    rows[id] == if id in candidates[..i] && Claimable(old(rows)[id], now) then Leased(old(rows)[id], now)
                                else old(rows)[id]
        invariant Distinct(claimed)
        invariant forall id :: id in claimed <==> id in candidates[..i] && id in rows && Claimable(old(rows)[id], now)
      {
        var id := candidates[i];
        assert id !in candidates[..i];
        assert candidates[..i + 1] == candidates[..i] + [id];
        if id in rows && Claimable(rows[id], now) {
          rows := rows[id := Leased(rows[id], now)];
          claimed := claimed + [id];
        }
      }
      assert candidates[..|candidates|] == candidates;
    }

    method Finish(id: Id) returns (won: bool)
      modifies this
      ensures rows == FinishRow(old(rows), id)
      ensures won <==> id in old(rows) && old(rows)[id].status == Delivering
    {
      if id in rows && rows[id].status == Delivering {
        rows := rows[id := rows[id].(status := Delivered, lease := NoLease)];
        return true;
      }
      return false;
    }

    /** The delivery loop. A job that is not leased any more, or not there, is not finished and not counted. */
    method DeliverAll(jobs: seq<Id>, sends: Id -> bool) returns (delivered: nat)
      requires Distinct(jobs)
      modifies this
      ensures rows.Keys == old(rows.Keys)
      ensures forall id :: id in rows ==>
                rows[id] == if id in jobs && sends(id) && old(rows)[id].status == Delivering
                            then old(rows)[id].(status := Delivered, lease := NoLease) else old(rows)[id]
      ensures delivered == |set id | id in jobs && id in old(rows) && sends(id) && old(rows)[id].status == Delivering|
    {
      delivered := 0;
      ghost var done: set<Id> := {};
      for i := 0 to |jobs|
        invariant rows.Keys == old(rows.Keys)
        invariant forall id :: id in rows ==>
                    rows[id] == if id in jobs[..i] && sends(id) && old(rows)[id].status == Delivering
                                then old(rows)[id].(status := Delivered, lease := NoLease) else old(rows)[id]
        invariant done == set id | id in jobs[..i] && id in old(rows) && sends(id) && old(rows)[id].status == Delivering
        invariant delivered == |done|
      {
        var id := jobs[i];
        assert id !in jobs[..i];
        assert jobs[..i + 1] == jobs[..i] + [id];
        if !sends(id) {
          continue;
        }
        var won := Finish(id);
        if won {
          done := done + {id};
          delivered := delivered + 1;
        }
      }
      assert jobs[..|jobs|] == jobs;
    }

    /** `_fail_exhausted` and `_claim` on both tables; the outbox rows come first. */
    method Collect(now: int, outbox: seq<Id>, reminders: seq<Id>) returns (jobs: seq<Id>)
      requires IsBatch(FailRows(FailRows(rows, Outbox, now), Reminders, now), Outbox, now, outbox)
      requires IsBatch(FailRows(FailRows(rows, Outbox, now), Reminders, now), Reminders, now, reminders)
      modifies this
      ensures rows.Keys == old(rows.Keys)
      ensures Distinct(jobs) && forall id :: id in jobs <==> id in outbox + reminders
      ensures forall id :: id in jobs ==> id in rows
      ensures forall id :: id in rows ==> rows[id] == PassedRow(old(rows)[id], now, id in outbox + reminders, false)
    {
      FailExhausted(Outbox, now);
      FailExhausted(Reminders, now);
      ghost var ready := rows;
      assert forall id :: id in ready ==> ready[id] == FailRow(old(rows)[id], old(rows)[id].table, now);
      var first := Claim(outbox, now);
      var second := Claim(reminders, now);
      assert forall id :: id in first <==> id in outbox;
      assert forall id :: id in second <==> id in reminders;
      assert forall id :: id in first ==> ready[id].table == Outbox;
      assert forall id :: id in second ==> ready[id].table == Reminders;
      DistinctUnion(first, second);
      jobs := first + second;
    }

    /**
     One undisturbed pass. `outbox` and `reminders` are what the two SELECTs return, `sends` says which deliveries
     succeed. Every row ends where its own batch membership and delivery put it, and the count is exact.
     */
    method RunOnce(now: int, outbox: seq<Id>, reminders: seq<Id>, sends: Id -> bool) returns (delivered: nat)
      requires IsBatch(FailRows(FailRows(rows, Outbox, now), Reminders, now), Outbox, now, outbox)
      requires IsBatch(FailRows(FailRows(rows, Outbox, now), Reminders, now), Reminders, now, reminders)
      modifies this
      ensures rows.Keys == old(rows.Keys)
      ensures forall id :: id in rows ==> rows[id] == PassedRow(old(rows)[id], now, id in outbox + reminders, sends(id))
      ensures delivered == |set id | id in outbox + reminders && sends(id)|
    {
      var jobs := Collect(now, outbox, reminders);
      ghost var leased := rows;
      delivered := DeliverAll(jobs, sends);
      assert (set id | id in jobs && id in leased && sends(id) && leased[id].status == Delivering)
          == set id | id in outbox + reminders && sends(id);
    }
  }
}
