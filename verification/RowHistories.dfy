/**
 What the state of a delivery row says about the run that led to it, in terms of statuses, stamps and leases alone: which
 steps change a row, that no reminder is claimed early, and that rows fail or are delivered only for a reason.
 */
module RowHistories {
  import opened Delivery
  import opened Workers

  // ---------- Which steps change a row ----------

  /** A lease ends before `now`, with the row still out for delivery. */
  predicate LeaseIsOver(row: Row, now: int) {
    row.status == Delivering && row.lease.Until? && row.lease.instant < now
  }

  /** A live pass that has marked both tables claims a row that waits or whose lease is over, and a reminder only once due. */
  predicate Wins(s: System, t: Step, id: Id)
    requires id in s.rows
  {
    t.Claim? && t.row == id && t.pass in s.passes
    && var p, row := s.passes[t.pass], s.rows[id];
       && p.alive && Outbox in p.marks && Reminders in p.marks
       && (row.table == Reminders ==> row.due <= p.stamp)
       && (row.status == Pending || LeaseIsOver(row, p.stamp))
  }

  /** A live pass finishes what it has sent while the row is still out for delivery. */
  predicate Completes(s: System, t: Step, id: Id)
    requires id in s.rows
  {
    && t.Finish? && t.row == id && t.pass in s.passes
    && s.passes[t.pass].alive && id in s.passes[t.pass].sent && s.rows[id].status == Delivering
  }

  /** A live pass marks the row's table for the first time, and the row's lease is over after five attempts or more. */
  predicate GivesUp(s: System, t: Step, id: Id)
    requires id in s.rows
  {
    t.MarkExhausted? && t.pass in s.passes
    && var p, row := s.passes[t.pass], s.rows[id];
       && p.alive && t.table == row.table && t.table !in p.marks
       && LeaseIsOver(row, p.stamp) && row.attempts >= 5
  }

  /** Those three steps change a row, in these ways, and no other step does. */
  lemma StepsChangeRows(s: System, t: Step, id: Id)
    requires id in s.rows
    ensures id in Next(s, t).rows
    ensures var row := s.rows[id];
            Next(s, t).rows[id] ==
              if Wins(s, t, id) then
                Row(row.table, row.due, Delivering, row.attempts + 1, Until(s.passes[t.pass].stamp + 60))
              else if Completes(s, t, id) then Row(row.table, row.due, Delivered, row.attempts, NoLease)
              else if GivesUp(s, t, id) then Row(row.table, row.due, Failed, row.attempts, NoLease)
              else row
  {
    StepOnRow(s, t, id);
  }

  /** A row comes into being pending, with no attempts and no lease. */
  lemma RowsStartPending(s: System, t: Step, id: Id)
    requires id !in s.rows && id in Next(s, t).rows
    ensures t.Enqueue? && t.row == id && Next(s, t).rows[id] == Row(t.table, t.due, Pending, 0, NoLease)
  {
  }

  // ---------- Claims ----------

  /** No reminder is ever claimed with a stamp before it is due. */
  lemma {:induction false} RemindersAreDue(run: seq<Step>, id: Id, i: nat)
    requires id in After(run).rows && i < |History(After(run), id)|
    ensures After(run).rows[id].table == Reminders ==> After(run).rows[id].due <= History(After(run), id)[i].stamp
  {
    var before, t := run[..|run| - 1], run[|run| - 1];
    var s := After(before);
    if id in s.rows {
      StepOnRow(s, t, id);
      StepsChangeRows(s, t, id);
      if i < |History(s, id)| {
        RemindersAreDue(before, id, i);
      }
    } else {
      NewRow(s, t, id);
    }
  }

  // ---------- Failing ----------

  /** A failed row was given up: at some step a pass found its lease over after five attempts or more. */
  lemma {:induction false} FailedRowsWereGivenUp(run: seq<Step>, id: Id) returns (k: nat)
    requires id in After(run).rows && After(run).rows[id].status == Failed
    ensures k < |run| && id in After(run[..k]).rows && GivesUp(After(run[..k]), run[k], id)
  {
    var last := |run| - 1;
    var s := After(run[..last]);
    if id !in s.rows {
      RowsStartPending(s, run[last], id);
      assert false;
    } else {
      StepsChangeRows(s, run[last], id);
      if s.rows[id].status == Failed {
        k := FailedRowsWereGivenUp(run[..last], id);
        assert run[..last][..k] == run[..k];
      } else {
        k := last;
      }
    }
  }

  // ---------- Delivering ----------

  lemma NewJob(s: System, t: Step, pass: Id, id: Id)
    requires pass in Next(s, t).passes && id in Next(s, t).passes[pass].jobs
    requires pass in s.passes ==> id !in s.passes[pass].jobs
    ensures t == Claim(pass, id) && id in s.rows && Wins(s, t, id)
  {
  }

  lemma NewlySent(s: System, t: Step, pass: Id, id: Id)
    requires pass in Next(s, t).passes && id in Next(s, t).passes[pass].sent
    requires pass in s.passes ==> id !in s.passes[pass].sent
    ensures t == Deliver(pass, id, true) && pass in s.passes && id in s.passes[pass].jobs
  {
  }

  lemma AfterLast(run: seq<Step>)
    requires run != []
    ensures After(run) == Next(After(run[..|run| - 1]), run[|run| - 1])
  {
  }

  /** What a pass still has to deliver, it has won. */
  lemma {:induction false} JobsWereWon(run: seq<Step>, pass: Id, id: Id) returns (k: nat)
    requires pass in After(run).passes && id in After(run).passes[pass].jobs
    ensures k < |run| && id in After(run[..k]).rows && Wins(After(run[..k]), run[k], id) && run[k] == Claim(pass, id)
  {
    var last := |run| - 1;
    var s := After(run[..last]);
    AfterLast(run);
    if pass in s.passes && id in s.passes[pass].jobs {
      k := JobsWereWon(run[..last], pass, id);
      assert run[..last][..k] == run[..k];
    } else {
      NewJob(s, run[last], pass, id);
      k := last;
    }
  }

  /** What a pass may finish, it has won and then delivered. */
  lemma {:induction false} SentWasDelivered(run: seq<Step>, pass: Id, id: Id) returns (claimed: nat, delivered: nat)
    requires pass in After(run).passes && id in After(run).passes[pass].sent
    ensures claimed < delivered < |run| && run[claimed] == Claim(pass, id) && run[delivered] == Deliver(pass, id, true)
    ensures id in After(run[..claimed]).rows && Wins(After(run[..claimed]), run[claimed], id)
  {
    var last := |run| - 1;
    var s := After(run[..last]);
    AfterLast(run);
    if pass in s.passes && id in s.passes[pass].sent {
      claimed, delivered := SentWasDelivered(run[..last], pass, id);
    } else {
      NewlySent(s, run[last], pass, id);
      claimed := JobsWereWon(run[..last], pass, id);
      delivered := last;
    }
    assert run[..last][..claimed] == run[..claimed];
  }

  /** A delivered row was won, then delivered, and then finished, all by one pass and in that order. */
  lemma {:induction false} DeliveredRowsWereDelivered(run: seq<Step>, id: Id)
    returns (pass: Id, claimed: nat, delivered: nat, finished: nat)
    requires id in After(run).rows && After(run).rows[id].status == Delivered
    ensures claimed < delivered < finished < |run|
    ensures run[claimed] == Claim(pass, id) && run[delivered] == Deliver(pass, id, true) && run[finished] == Finish(pass, id)
    ensures id in After(run[..claimed]).rows && Wins(After(run[..claimed]), run[claimed], id)
    ensures id in After(run[..finished]).rows && Completes(After(run[..finished]), run[finished], id)
  {
    var last := |run| - 1;
    var s := After(run[..last]);
    if id !in s.rows {
      RowsStartPending(s, run[last], id);
      assert false;
    } else {
      StepsChangeRows(s, run[last], id);
      if s.rows[id].status == Delivered {
        pass, claimed, delivered, finished := DeliveredRowsWereDelivered(run[..last], id);
      } else {
        pass, finished := run[last].pass, last;
        claimed, delivered := SentWasDelivered(run[..last], pass, id);
      }
      assert run[..last][..claimed] == run[..claimed];
      assert run[..last][..finished] == run[..finished];
    }
  }
}
