/**
 Any number of delivery workers over one queue, interleaved at every committed UPDATE, with crashes. The history
 records which pass claimed which row, at which step and with which clock stamp.
 */
module Workers {
  import opened Delivery

  /** A successful claim: by which pass, at which step of the run, with which stamp. */
  datatype Claiming = Claiming(pass: Id, at: nat, stamp: int)

  /** A pass: its fixed stamp, when it marked the exhausted rows of each table, what it has won and what it has sent. */
  datatype Pass = Pass(stamp: int, marks: map<Table, nat>, jobs: set<Id>, sent: set<Id>, alive: bool)

  /** `sends` holds (pass, row) for successful deliveries; `finishes` counts successful finishing UPDATEs. */
  datatype System = System(rows: Rows, passes: map<Id, Pass>, claims: map<Id, seq<Claiming>>,
                           sends: set<(Id, Id)>, finishes: nat, finishedBy: map<Id, Id>, clock: nat)

  const INITIAL := System(map[], map[], map[], {}, 0, map[], 0)

  datatype Step =
    | Enqueue(row: Id, table: Table, due: int)
    | Start(pass: Id, stamp: int)
    | MarkExhausted(pass: Id, table: Table)
    | Claim(pass: Id, row: Id)
    | Deliver(pass: Id, row: Id, ok: bool)
    | Finish(pass: Id, row: Id)
    | Crash(pass: Id)

  predicate Alive(s: System, pass: Id) {
    pass in s.passes && s.passes[pass].alive
  }

  /** Both tables have been swept for exhausted rows, which `run_once` does before it claims anything. */
  predicate MayClaim(p: Pass) {
    Outbox in p.marks && Reminders in p.marks
  }

  predicate Enabled(s: System, t: Step) {
    match t
    case Enqueue(row, _, _) => row !in s.rows
    case Start(pass, _) => pass !in s.passes
    case MarkExhausted(pass, table) => Alive(s, pass) && table !in s.passes[pass].marks
    case Claim(pass, row) =>
      Alive(s, pass) && MayClaim(s.passes[pass]) && row in s.rows
      && (s.rows[row].table == Reminders ==> s.rows[row].due <= s.passes[pass].stamp)
    case Deliver(pass, row, _) => Alive(s, pass) && row in s.passes[pass].jobs
    case Finish(pass, row) => Alive(s, pass) && row in s.passes[pass].sent
    case Crash(pass) => Alive(s, pass)
  }

  function History(s: System, row: Id): seq<Claiming> {
    if row in s.claims then s.claims[row] else []
  }

  function Effect(s: System, t: Step): System
    requires Enabled(s, t)
  {
    match t
    case Enqueue(row, table, due) =>
      s.(rows := s.rows[row := Row(table, due, Pending, 0, NoLease)], claims := s.claims[row := []])
    case Start(pass, stamp) =>
      s.(passes := s.passes[pass := Pass(stamp, map[], {}, {}, true)])
    case MarkExhausted(pass, table) =>
      var p := s.passes[pass];
      s.(rows := FailRows(s.rows, table, p.stamp),
         passes := s.passes[pass := p.(marks := p.marks[table := s.clock])])
    case Claim(pass, row) =>
      var p := s.passes[pass];
      if !Claimable(s.rows[row], p.stamp) then s else
        s.(rows := ClaimRow(s.rows, row, p.stamp),
           passes := s.passes[pass := p.(jobs := p.jobs + {row})],
           claims := s.claims[row := History(s, row) + [Claiming(pass, s.clock, p.stamp)]])
    case Deliver(pass, row, ok) =>
      var p := s.passes[pass];
      s.(passes := s.passes[pass := p.(jobs := p.jobs - {row}, sent := if ok then p.sent + {row} else p.sent)],
         sends := if ok then s.sends + {(pass, row)} else s.sends)
    case Finish(pass, row) =>
      var p := s.passes[pass];
      var s' := s.(passes := s.passes[pass := p.(sent := p.sent - {row})]);
      if row !in s.rows || s.rows[row].status != Delivering then s' else
        s'.(rows := FinishRow(s.rows, row), finishes := s.finishes + 1, finishedBy := s.finishedBy[row := pass])
    case Crash(pass) =>
      s.(passes := s.passes[pass := s.passes[pass].(alive := false)])
  }

  function Next(s: System, t: Step): System {
    (if Enabled(s, t) then Effect(s, t) else s).(clock := s.clock + 1)
  }

  function After(run: seq<Step>): System {
    if run == [] then INITIAL else Next(After(run[..|run| - 1]), run[|run| - 1])
  }

  // ---------- The invariant of one row ----------

  predicate IsTerminal(row: Row) {
    row.status == Delivered || row.status == Failed
  }

  /** The pass had marked the exhausted rows of `table` by step `at`. */
  predicate MarkedBy(p: Pass, table: Table, at: nat) {
    table in p.marks && p.marks[table] <= at
  }

  predicate ClaimIsRecorded(s: System, c: Claiming) {
    c.at < s.clock && c.pass in s.passes && c.stamp == s.passes[c.pass].stamp
  }

  /** Each claim's stamp lies more than a lease after the one before it. */
  predicate Spaced(h: seq<Claiming>) {
    forall i, j :: 0 <= i < j < |h| ==> h[i].at < h[j].at && h[i].stamp + LEASE_SECONDS < h[j].stamp
  }

  predicate StatusFits(row: Row, h: seq<Claiming>) {
    && row.attempts == |h|
    && (row.status == Pending <==> h == [])
    && row.lease == if row.status == Delivering && h != [] then Until(h[|h| - 1].stamp + LEASE_SECONDS) else NoLease
  }

  /** A pass that marked exhausted rows after the last allowed claim, and spared this one, finds its lease running. */
  ghost predicate SparedByLease(s: System, id: Id)
    requires id in s.rows
  {
    var h, row := History(s, id), s.rows[id];
    row.status == Delivering && |h| >= MAX_ATTEMPTS ==>
      forall p :: p in s.passes && row.table in s.passes[p].marks ==>
        (MarkedBy(s.passes[p], row.table, h[MAX_ATTEMPTS - 1].at)
         || s.passes[p].stamp <= h[|h| - 1].stamp + LEASE_SECONDS)
  }

  /** A claim beyond the allowed ones comes from a pass that had marked exhausted rows by the last allowed claim. */
  ghost predicate ExcessIsOvertaking(s: System, id: Id)
    requires id in s.rows
  {
    var h := History(s, id);
    forall i :: MAX_ATTEMPTS <= i < |h| ==>
      h[i].pass in s.passes && MarkedBy(s.passes[h[i].pass], s.rows[id].table, h[MAX_ATTEMPTS - 1].at)
  }

  ghost predicate RowInvariant(s: System, id: Id)
    requires id in s.rows
  {
    var h := History(s, id);
    && StatusFits(s.rows[id], h)
    && Spaced(h)
    && (forall c :: c in h ==> ClaimIsRecorded(s, c))
    && SparedByLease(s, id)
    && ExcessIsOvertaking(s, id)
  }

  predicate MarksArePast(s: System, p: Id)
    requires p in s.passes
  {
    forall t :: t in s.passes[p].marks ==> s.passes[p].marks[t] < s.clock
  }

  ghost predicate HasClaimed(s: System, p: Id, row: Id) {
    exists c :: c in History(s, row) && c.pass == p
  }

  /** What a pass holds, it has claimed; what it will finish, it has sent. */
  ghost predicate PassInvariant(s: System, p: Id)
    requires p in s.passes
  {
    && MarksArePast(s, p)
    && (forall row :: row in s.passes[p].jobs ==> HasClaimed(s, p, row))
    && (forall row :: row in s.passes[p].sent ==> (p, row) in s.sends)
  }

  ghost predicate FinishesFit(s: System) {
    && (forall id :: id in s.finishedBy <==> id in s.rows && s.rows[id].status == Delivered)
    && (forall id :: id in s.finishedBy ==> (s.finishedBy[id], id) in s.sends)
    && (forall x :: x in s.sends ==> HasClaimed(s, x.0, x.1))
    && s.finishes == |s.finishedBy|
  }

  ghost predicate Invariant(s: System) {
    && (forall id :: id in s.rows ==> RowInvariant(s, id))
    && (forall p :: p in s.passes ==> PassInvariant(s, p))
    && FinishesFit(s)
    && (forall id :: id in s.claims ==> id in s.rows)
  }

  // ---------- Each step keeps it ----------

  /** Passes only gain marks, and keep their stamps. */
  predicate PassesGrow(s: System, s': System) {
    s.clock <= s'.clock
    && forall p :: p in s.passes ==>
         (p in s'.passes && s'.passes[p].stamp == s.passes[p].stamp && MarksGrow(s.passes[p], s'.passes[p]))
  }

  predicate MarksGrow(p: Pass, p': Pass) {
    forall t :: t in p.marks ==> t in p'.marks && p'.marks[t] == p.marks[t]
  }

  /** No marks appear on `table`, except perhaps by `pass`. */
  ghost predicate NoNewMark(s: System, s': System, table: Table, pass: Id) {
    forall p :: p in s'.passes && p != pass && table in s'.passes[p].marks ==>
                  p in s.passes && table in s.passes[p].marks
  }

  /** A row nobody touched keeps its invariant while no pass marks its table. */
  lemma UntouchedRow(s: System, s': System, id: Id)
    requires id in s.rows && RowInvariant(s, id) && PassesGrow(s, s')
    requires forall p :: NoNewMark(s, s', s.rows[id].table, p)
    requires id in s'.rows && s'.rows[id] == s.rows[id] && History(s', id) == History(s, id)
    ensures RowInvariant(s', id)
  {
    var h, row := History(s, id), s.rows[id];
    assert NoNewMark(s, s', row.table, 0) && NoNewMark(s, s', row.table, 1);
  }

  /** Delivered and failed rows carry no claim on the future. */
  lemma ClosedRow(s: System, s': System, id: Id)
    requires id in s.rows && RowInvariant(s, id) && PassesGrow(s, s')
    requires id in s'.rows && IsTerminal(s'.rows[id]) && s'.rows[id].lease == NoLease
    requires s'.rows[id].attempts == s.rows[id].attempts && s'.rows[id].table == s.rows[id].table
    requires History(s', id) == History(s, id) && s.rows[id].status != Pending
    ensures RowInvariant(s', id)
  {
  }

  /** Marking exhausted rows: what is spared is spared by a lease that still runs at the marking pass's stamp. */
  lemma SparedRow(s: System, s': System, pass: Id, id: Id)
    requires id in s.rows && RowInvariant(s, id) && PassesGrow(s, s')
    requires pass in s.passes && NoNewMark(s, s', s.rows[id].table, pass)
    requires id in s'.rows && s'.rows[id] == s.rows[id] && History(s', id) == History(s, id)
    requires !Exhausted(s.rows[id], s.passes[pass].stamp)
    ensures RowInvariant(s', id)
  {
  }

  /** A claim: the excess one, if it is one, was not stopped because its pass had marked before the last allowed claim. */
  lemma ClaimedRow(s: System, s': System, pass: Id, id: Id)
    requires id in s.rows && RowInvariant(s, id)
    requires pass in s.passes && s.rows[id].table in s.passes[pass].marks
    requires Claimable(s.rows[id], s.passes[pass].stamp)
    requires PassesGrow(s, s') && forall p :: NoNewMark(s, s', s.rows[id].table, p)
    requires forall p :: p in s.passes ==> MarksArePast(s, p)
    requires s.clock < s'.clock
    requires id in s'.rows && s'.rows[id] == Leased(s.rows[id], s.passes[pass].stamp)
    requires History(s', id) == History(s, id) + [Claiming(pass, s.clock, s.passes[pass].stamp)]
    ensures RowInvariant(s', id)
  {
    var h, h', row := History(s, id), History(s', id), s.rows[id];
    assert NoNewMark(s, s', row.table, 0) && NoNewMark(s, s', row.table, 1);
    assert Spaced(h') by {
      forall i | 0 <= i < |h| ensures h[i].stamp + LEASE_SECONDS < s.passes[pass].stamp && h[i].at < s.clock {
        assert h[i] in h && ClaimIsRecorded(s, h[i]);
        assert i < |h| - 1 ==> h[i].stamp + LEASE_SECONDS < h[|h| - 1].stamp;
      }
    }
    assert MarksArePast(s, pass);
  }

  lemma PassesOnlyGrow(s: System, t: Step)
    ensures PassesGrow(s, Next(s, t))
  {
  }

  lemma MarksOnlyGrow(s: System, t: Step)
    ensures !t.MarkExhausted? ==> forall table, p :: NoNewMark(s, Next(s, t), table, p)
    ensures !Enabled(s, t) ==> forall table, p :: NoNewMark(s, Next(s, t), table, p)
    ensures t.MarkExhausted? ==>
              && (forall table, p :: table != t.table ==> NoNewMark(s, Next(s, t), table, p))
              && NoNewMark(s, Next(s, t), t.table, t.pass)
  {
  }

  predicate WinsRow(s: System, t: Step, id: Id) {
    Enabled(s, t) && t.Claim? && t.row == id && id in s.rows && Claimable(s.rows[id], s.passes[t.pass].stamp)
  }

  predicate FinishesRow(s: System, t: Step, id: Id) {
    Enabled(s, t) && t.Finish? && t.row == id && id in s.rows && s.rows[id].status == Delivering
  }

  /** What one step does to one row that exists. */
  function RowAfter(s: System, t: Step, id: Id): Row
    requires id in s.rows
  {
    if WinsRow(s, t, id) then Leased(s.rows[id], s.passes[t.pass].stamp)
    else if FinishesRow(s, t, id) then s.rows[id].(status := Delivered, lease := NoLease)
    else if Enabled(s, t) && t.MarkExhausted? then FailRow(s.rows[id], t.table, s.passes[t.pass].stamp)
    else s.rows[id]
  }

  function HistoryAfter(s: System, t: Step, id: Id): seq<Claiming> {
    if WinsRow(s, t, id) then History(s, id) + [Claiming(t.pass, s.clock, s.passes[t.pass].stamp)] else History(s, id)
  }

  lemma StepOnRow(s: System, t: Step, id: Id)
    requires id in s.rows
    ensures id in Next(s, t).rows && Next(s, t).rows[id] == RowAfter(s, t, id)
    ensures History(Next(s, t), id) == HistoryAfter(s, t, id)
  {
  }

  lemma RowKept(s: System, s': System, t: Step, id: Id)
    requires id in s.rows && RowInvariant(s, id) && forall p :: p in s.passes ==> MarksArePast(s, p)
    requires PassesGrow(s, s') && s'.clock == s.clock + 1
    requires !t.MarkExhausted? ==> forall table, p :: NoNewMark(s, s', table, p)
    requires t.MarkExhausted? ==> NoNewMark(s, s', t.table, t.pass)
    requires t.MarkExhausted? ==> forall table, p :: table != t.table ==> NoNewMark(s, s', table, p)
    requires !Enabled(s, t) ==> forall table, p :: NoNewMark(s, s', table, p)
    requires id in s'.rows && s'.rows[id] == RowAfter(s, t, id) && History(s', id) == HistoryAfter(s, t, id)
    ensures RowInvariant(s', id)
  {
    if WinsRow(s, t, id) {
      ClaimedRow(s, s', t.pass, id);
    } else if FinishesRow(s, t, id) {
      ClosedRow(s, s', id);
    } else if Enabled(s, t) && t.MarkExhausted? && t.table == s.rows[id].table {
      if Exhausted(s.rows[id], s.passes[t.pass].stamp) { ClosedRow(s, s', id); }
      else { SparedRow(s, s', t.pass, id); }
    } else {
      UntouchedRow(s, s', id);
    }
  }

  lemma RowsKept(s: System, t: Step)
    requires Invariant(s)
    ensures forall id :: id in Next(s, t).rows ==> RowInvariant(Next(s, t), id)
  {
    PassesOnlyGrow(s, t);
    MarksOnlyGrow(s, t);
    forall p | p in s.passes ensures MarksArePast(s, p) { assert PassInvariant(s, p); }
    forall id | id in Next(s, t).rows ensures RowInvariant(Next(s, t), id) {
      if id in s.rows {
        StepOnRow(s, t, id);
        RowKept(s, Next(s, t), t, id);
      } else {
        NewRow(s, t, id);
      }
    }
  }

  lemma NewRow(s: System, t: Step, id: Id)
    requires id !in s.rows && id in Next(s, t).rows
    ensures RowInvariant(Next(s, t), id) && !IsTerminal(Next(s, t).rows[id]) && History(Next(s, t), id) == []
  {
  }

  lemma HistoriesGrow(s: System, t: Step, row: Id)
    requires forall id :: id in s.claims ==> id in s.rows
    ensures forall c :: c in History(s, row) ==> c in History(Next(s, t), row)
    ensures forall p :: HasClaimed(s, p, row) ==> HasClaimed(Next(s, t), p, row)
  {
    if row in s.rows { StepOnRow(s, t, row); }
    forall p | HasClaimed(s, p, row) ensures HasClaimed(Next(s, t), p, row) {
      var c :| c in History(s, row) && c.pass == p;
      assert c in History(Next(s, t), row);
    }
  }

  lemma JobsKept(s: System, t: Step, p: Id)
    requires forall id :: id in s.claims ==> id in s.rows
    requires p in Next(s, t).passes && (p in s.passes ==> PassInvariant(s, p))
    ensures forall row :: row in Next(s, t).passes[p].jobs ==> HasClaimed(Next(s, t), p, row)
  {
    var s' := Next(s, t);
    forall row | row in s'.passes[p].jobs ensures HasClaimed(s', p, row) {
      HistoriesGrow(s, t, row);
      if !(p in s.passes && row in s.passes[p].jobs) {
        assert WinsRow(s, t, row) && t.pass == p;
        StepOnRow(s, t, row);
        var c := Claiming(p, s.clock, s.passes[p].stamp);
        assert c in History(s', row);
      }
    }
  }

  lemma PassKept(s: System, t: Step, p: Id)
    requires forall id :: id in s.claims ==> id in s.rows
    requires p in Next(s, t).passes && (p in s.passes ==> PassInvariant(s, p))
    ensures PassInvariant(Next(s, t), p)
  {
    JobsKept(s, t, p);
    MarksKept(s, t, p);
  }

  lemma MarksKept(s: System, t: Step, p: Id)
    requires p in Next(s, t).passes && (p in s.passes ==> PassInvariant(s, p))
    ensures MarksArePast(Next(s, t), p)
    ensures forall row :: row in Next(s, t).passes[p].sent ==> (p, row) in Next(s, t).sends
  {
  }

  lemma NewSend(s: System, t: Step, x: (Id, Id))
    requires x in Next(s, t).sends && x !in s.sends
    ensures x.0 in s.passes && x.1 in s.passes[x.0].jobs
  {
  }

  lemma SendKept(s: System, t: Step, p: Id, row: Id)
    requires (forall id :: id in s.claims ==> id in s.rows) && (p, row) in Next(s, t).sends
    requires (p, row) in s.sends ==> HasClaimed(s, p, row)
    requires p in s.passes ==> PassInvariant(s, p)
    ensures HasClaimed(Next(s, t), p, row)
  {
    HistoriesGrow(s, t, row);
    if (p, row) !in s.sends {
      NewSend(s, t, (p, row));
    }
  }

  lemma SendsGrow(s: System, t: Step)
    ensures s.sends <= Next(s, t).sends
  {
  }

  lemma SendsKept(s: System, t: Step)
    requires Invariant(s)
    ensures forall x :: x in Next(s, t).sends ==> HasClaimed(Next(s, t), x.0, x.1)
    ensures s.sends <= Next(s, t).sends
  {
    SendsGrow(s, t);
    forall x | x in Next(s, t).sends ensures HasClaimed(Next(s, t), x.0, x.1) {
      assert x == (x.0, x.1);
      SendKept(s, t, x.0, x.1);
    }
  }

  lemma StepOnFinishes(s: System, t: Step)
    ensures var s' := Next(s, t);
            if t.Finish? && FinishesRow(s, t, t.row) then
              s'.finishedBy == s.finishedBy[t.row := t.pass] && s'.finishes == s.finishes + 1
            else s'.finishedBy == s.finishedBy && s'.finishes == s.finishes
  {
  }

  lemma DeliveredAfter(s: System, t: Step, id: Id)
    requires FinishesFit(s)
    ensures id in Next(s, t).finishedBy <==> id in Next(s, t).rows && Next(s, t).rows[id].status == Delivered
  {
    StepOnFinishes(s, t);
    if id in s.rows { StepOnRow(s, t, id); } else if id in Next(s, t).rows { NewRow(s, t, id); }
  }

  lemma FinishersSent(s: System, t: Step)
    requires FinishesFit(s)
    requires t.Finish? && Enabled(s, t) ==> PassInvariant(s, t.pass)
    requires s.sends <= Next(s, t).sends
    ensures forall id :: id in Next(s, t).finishedBy ==> (Next(s, t).finishedBy[id], id) in Next(s, t).sends
    ensures Next(s, t).finishes == |Next(s, t).finishedBy|
  {
    StepOnFinishes(s, t);
    if t.Finish? && FinishesRow(s, t, t.row) {
      assert t.row !in s.finishedBy;
    }
  }

  lemma FinishesKept(s: System, t: Step)
    requires Invariant(s)
    ensures FinishesFit(Next(s, t))
  {
    SendsKept(s, t);
    if t.Finish? && Enabled(s, t) { assert PassInvariant(s, t.pass); }
    FinishersSent(s, t);
    forall id ensures id in Next(s, t).finishedBy <==> id in Next(s, t).rows && Next(s, t).rows[id].status == Delivered {
      DeliveredAfter(s, t, id);
    }
  }

  lemma ClaimsHaveRows(s: System, t: Step)
    requires forall id :: id in s.claims ==> id in s.rows
    ensures forall id :: id in Next(s, t).claims ==> id in Next(s, t).rows
  {
  }

  lemma {:induction false} InvariantHolds(run: seq<Step>)
    ensures Invariant(After(run))
  {
    if run != [] {
      var s, t := After(run[..|run| - 1]), run[|run| - 1];
      InvariantHolds(run[..|run| - 1]);
      RowsKept(s, t);
      forall p | p in Next(s, t).passes ensures PassInvariant(Next(s, t), p) { PassKept(s, t, p); }
      FinishesKept(s, t);
      ClaimsHaveRows(s, t);
    }
  }

  // ---------- What holds on every run ----------

  /** Attempts count the claims. */
  lemma AttemptsCountClaims(run: seq<Step>, row: Id)
    requires row in After(run).rows
    ensures After(run).rows[row].attempts == |History(After(run), row)|
  {
    InvariantHolds(run);
    assert RowInvariant(After(run), row);
  }

  /** Any two claims of one row carry stamps more than a lease apart. */
  lemma ClaimsAreSpaced(run: seq<Step>, row: Id, i: nat, j: nat)
    requires row in After(run).rows && i < j < |History(After(run), row)|
    ensures History(After(run), row)[i].stamp + LEASE_SECONDS < History(After(run), row)[j].stamp
  {
    InvariantHolds(run);
    assert RowInvariant(After(run), row);
  }

  // ---------- When the maximum is passed ----------

  /**
   The step is a claim of a row that has used up its claims and is still open, by a pass that had marked the exhausted
   rows before the last allowed claim was made and whose stamp lies more than a lease after that claim's.
   */
  predicate Overtakes(s: System, t: Step, row: Id) {
    && t.Claim? && t.row == row && Enabled(s, t) && !IsTerminal(s.rows[row])
    && |History(s, row)| >= MAX_ATTEMPTS
    && MarkedBy(s.passes[t.pass], s.rows[row].table, History(s, row)[MAX_ATTEMPTS - 1].at)
    && History(s, row)[MAX_ATTEMPTS - 1].stamp + LEASE_SECONDS < s.passes[t.pass].stamp
  }

  lemma AttemptsNeverFall(s: System, t: Step, row: Id)
    requires row in s.rows
    ensures row in Next(s, t).rows && s.rows[row].attempts <= Next(s, t).rows[row].attempts <= s.rows[row].attempts + 1
    ensures Next(s, t).rows[row].attempts != s.rows[row].attempts <==> WinsRow(s, t, row)
  {
    StepOnRow(s, t, row);
  }

  /** The step that passes the maximum is an overtaking one, and an overtaking step leaves the maximum passed. */
  lemma OvertakingStep(s: System, t: Step, row: Id)
    requires row in s.rows && RowInvariant(s, row) && row in Next(s, t).rows && RowInvariant(Next(s, t), row)
    ensures s.rows[row].attempts <= MAX_ATTEMPTS < Next(s, t).rows[row].attempts ==> Overtakes(s, t, row)
    ensures Overtakes(s, t, row) ==> Next(s, t).rows[row].attempts > MAX_ATTEMPTS
  {
    StepOnRow(s, t, row);
    AttemptsNeverFall(s, t, row);
    var h, h' := History(s, row), History(Next(s, t), row);
    if s.rows[row].attempts <= MAX_ATTEMPTS < Next(s, t).rows[row].attempts {
      assert h'[MAX_ATTEMPTS].pass == t.pass && h'[MAX_ATTEMPTS - 1] == h[MAX_ATTEMPTS - 1];
    }
  }

  ghost predicate EverOvertaken(run: seq<Step>, row: Id) {
    exists k :: 0 <= k < |run| && Overtakes(After(run[..k]), run[k], row)
  }

  lemma EverOvertakenGrows(run: seq<Step>, t: Step, row: Id)
    ensures EverOvertaken(run + [t], row) <==> EverOvertaken(run, row) || Overtakes(After(run), t, row)
  {
    var longer := run + [t];
    assert longer[..|run|] == run;
    if k :| 0 <= k < |longer| && Overtakes(After(longer[..k]), longer[k], row) {
      assert k == |run| || (longer[..k] == run[..k] && longer[k] == run[k]);
    }
    if k :| 0 <= k < |run| && Overtakes(After(run[..k]), run[k], row) {
      assert longer[..k] == run[..k] && longer[k] == run[k];
    }
    if Overtakes(After(run), t, row) {
      assert Overtakes(After(longer[..|run|]), longer[|run|], row);
    }
  }

  /** Attempts pass the maximum exactly when some step of the run overtakes the last allowed claim. */
  lemma {:induction false} ExcessIffOvertaken(run: seq<Step>, row: Id)
    requires row in After(run).rows
    ensures After(run).rows[row].attempts > MAX_ATTEMPTS <==> EverOvertaken(run, row)
  {
    if run != [] {
      var before, t := run[..|run| - 1], run[|run| - 1];
      assert run == before + [t];
      EverOvertakenGrows(before, t, row);
      if row in After(before).rows {
        ExcessIffOvertaken(before, row);
        ExcessStep(before, t, row);
      } else {
        NewRow(After(before), t, row);
        AttemptsCountClaims(run, row);
        NeverSeen(before, row);
      }
    }
  }

  lemma ExcessStep(run: seq<Step>, t: Step, row: Id)
    requires row in After(run).rows && row in After(run + [t]).rows
    ensures After(run + [t]).rows[row].attempts > MAX_ATTEMPTS
       <==> After(run).rows[row].attempts > MAX_ATTEMPTS || Overtakes(After(run), t, row)
  {
    AfterOneMore(run, t);
    InvariantHolds(run);
    InvariantHolds(run + [t]);
    assert RowInvariant(After(run), row) && RowInvariant(After(run + [t]), row);
    AttemptsNeverFall(After(run), t, row);
    OvertakingStep(After(run), t, row);
  }

  lemma {:induction false} NeverSeen(run: seq<Step>, row: Id)
    requires row !in After(run).rows
    ensures !EverOvertaken(run, row)
  {
    if run != [] {
      var before, t := run[..|run| - 1], run[|run| - 1];
      assert run == before + [t];
      NeverSeen(before, row);
      EverOvertakenGrows(before, t, row);
    }
  }

  /** The passes that had marked the row's table by the time of its last allowed claim. */
  function Overtakers(s: System, row: Id): set<Id>
    requires row in s.rows
  {
    if |History(s, row)| < MAX_ATTEMPTS then {}
    else set p | p in s.passes && MarkedBy(s.passes[p], s.rows[row].table, History(s, row)[MAX_ATTEMPTS - 1].at)
  }

  /** Claims of one row come from different passes. */
  lemma {:induction false} ClaimersDiffer(s: System, h: seq<Claiming>, from: nat, n: nat)
    requires Spaced(h) && (forall c :: c in h ==> ClaimIsRecorded(s, c)) && from <= n <= |h|
    ensures |set i | from <= i < n :: h[i].pass| == n - from
  {
    var passes := set i | from <= i < n :: h[i].pass;
    if from < n {
      var fewer, last := set i | from <= i < n - 1 :: h[i].pass, h[n - 1].pass;
      ClaimersDiffer(s, h, from, n - 1);
      forall i | from <= i < n - 1 ensures h[i].pass != last {
        assert h[i] in h && h[n - 1] in h;
        assert h[i].stamp + LEASE_SECONDS < h[n - 1].stamp;
      }
      assert passes == fewer + {last};
    }
  }

  /** In any interleaving, a row is claimed at most the maximum number of times and once more by each overtaker. */
  lemma AttemptsAreBoundedByOvertakers(run: seq<Step>, row: Id)
    requires row in After(run).rows
    ensures After(run).rows[row].attempts <= MAX_ATTEMPTS + |Overtakers(After(run), row)|
  {
    InvariantHolds(run);
    var s := After(run);
    assert RowInvariant(s, row);
    var h := History(s, row);
    if |h| > MAX_ATTEMPTS {
      ClaimersDiffer(s, h, MAX_ATTEMPTS, |h|);
      var excess := set i | MAX_ATTEMPTS <= i < |h| :: h[i].pass;
      assert excess <= Overtakers(s, row);
      SubsetIsSmaller(excess, Overtakers(s, row));
    }
  }

  lemma {:induction false} SubsetIsSmaller(a: set<Id>, b: set<Id>)
    requires a <= b
    ensures |a| <= |b|
  {
    if a != {} {
      var x :| x in a;
      SubsetIsSmaller(a - {x}, b - {x});
    }
  }

  /** Once a row has made its last allowed claim, nobody joins or leaves its overtakers. */
  lemma {:induction false} OvertakersAreFixed(run: seq<Step>, n: nat, row: Id)
    requires n <= |run| && row in After(run[..n]).rows && |History(After(run[..n]), row)| >= MAX_ATTEMPTS
    ensures row in After(run).rows && |History(After(run), row)| >= MAX_ATTEMPTS
    ensures Overtakers(After(run), row) == Overtakers(After(run[..n]), row)
    decreases |run|
  {
    if n == |run| {
      assert run[..n] == run;
    } else {
      var before := run[..|run| - 1];
      assert before[..n] == run[..n];
      OvertakersAreFixed(before, n, row);
      InvariantHolds(before);
      assert RowInvariant(After(before), row);
      StepKeepsOvertakers(After(before), run[|run| - 1], row);
    }
  }

  lemma StepKeepsOvertakers(s: System, t: Step, row: Id)
    requires row in s.rows && RowInvariant(s, row) && |History(s, row)| >= MAX_ATTEMPTS
    ensures row in Next(s, t).rows && |History(Next(s, t), row)| >= MAX_ATTEMPTS
    ensures Overtakers(Next(s, t), row) == Overtakers(s, row)
  {
    StepOnRow(s, t, row);
    PassesOnlyGrow(s, t);
    var s', h := Next(s, t), History(s, row);
    assert h[MAX_ATTEMPTS - 1] in h && ClaimIsRecorded(s, h[MAX_ATTEMPTS - 1]);
    assert History(s', row)[MAX_ATTEMPTS - 1] == h[MAX_ATTEMPTS - 1];
    assert s'.rows[row].table == s.rows[row].table;
    forall p | p in s'.passes && MarkedBy(s'.passes[p], s.rows[row].table, h[MAX_ATTEMPTS - 1].at)
      ensures p in s.passes && MarkedBy(s.passes[p], s.rows[row].table, h[MAX_ATTEMPTS - 1].at) { }
  }

  /** At a claim, every other pass that has already marked this table is stamped at most a lease later. */
  predicate Timely(s: System, t: Step) {
    t.Claim? && Enabled(s, t) ==>
      forall p :: p in s.passes && p != t.pass && s.passes[p].alive && s.rows[t.row].table in s.passes[p].marks ==>
        s.passes[p].stamp <= s.passes[t.pass].stamp + LEASE_SECONDS
  }

  predicate AlwaysTimely(run: seq<Step>) {
    run == [] || (AlwaysTimely(run[..|run| - 1]) && Timely(After(run[..|run| - 1]), run[|run| - 1]))
  }

  /** What timeliness leaves behind at each claim of a row. */
  ghost predicate ClaimWasTimely(s: System, id: Id, c: Claiming)
    requires id in s.rows
  {
    forall p :: p in s.passes && p != c.pass && s.passes[p].alive && MarkedBy(s.passes[p], s.rows[id].table, c.at) ==>
      s.passes[p].stamp <= c.stamp + LEASE_SECONDS
  }

  ghost predicate RowIsTimely(s: System, id: Id)
    requires id in s.rows
  {
    |History(s, id)| <= MAX_ATTEMPTS && forall c :: c in History(s, id) ==> ClaimWasTimely(s, id, c)
  }

  lemma PastClaimStaysTimely(s: System, t: Step, id: Id, c: Claiming)
    requires id in s.rows && ClaimIsRecorded(s, c) && ClaimWasTimely(s, id, c)
    requires id in Next(s, t).rows && Next(s, t).rows[id].table == s.rows[id].table
    ensures ClaimWasTimely(Next(s, t), id, c)
  {
    var s' := Next(s, t);
    forall p | p in s'.passes && p != c.pass && s'.passes[p].alive && MarkedBy(s'.passes[p], s'.rows[id].table, c.at)
      ensures s'.passes[p].stamp <= c.stamp + LEASE_SECONDS
    {
      assert p in s.passes && s.passes[p].alive && MarkedBy(s.passes[p], s.rows[id].table, c.at);
    }
  }

  lemma NewClaimIsTimely(s: System, t: Step, id: Id)
    requires Timely(s, t) && WinsRow(s, t, id) && id in Next(s, t).rows && Next(s, t).rows[id].table == s.rows[id].table
    ensures ClaimWasTimely(Next(s, t), id, Claiming(t.pass, s.clock, s.passes[t.pass].stamp))
  {
  }

  /** A row that has used up its claims is out of every pass's reach until some pass marks it failed. */
  lemma OutOfReach(s: System, id: Id, p: Id)
    requires id in s.rows && RowInvariant(s, id) && RowIsTimely(s, id) && |History(s, id)| == MAX_ATTEMPTS
    requires Alive(s, p) && s.rows[id].table in s.passes[p].marks
    ensures !Claimable(s.rows[id], s.passes[p].stamp)
  {
    var last := History(s, id)[MAX_ATTEMPTS - 1];
    assert last in History(s, id) && ClaimWasTimely(s, id, last) && ClaimIsRecorded(s, last);
    if p != last.pass && MarkedBy(s.passes[p], s.rows[id].table, last.at) {
      assert s.passes[p].stamp <= last.stamp + LEASE_SECONDS;
    }
  }

  lemma PastClaimsStayTimely(s: System, t: Step, id: Id)
    requires id in s.rows && RowInvariant(s, id) && RowIsTimely(s, id)
    requires id in Next(s, t).rows && Next(s, t).rows[id].table == s.rows[id].table
    ensures forall c :: c in History(s, id) ==> ClaimWasTimely(Next(s, t), id, c)
  {
    forall c | c in History(s, id) ensures ClaimWasTimely(Next(s, t), id, c) {
      assert ClaimIsRecorded(s, c);
      PastClaimStaysTimely(s, t, id, c);
    }
  }

  lemma TimelyStep(s: System, t: Step, id: Id)
    requires Invariant(s) && Timely(s, t) && id in Next(s, t).rows
    requires id in s.rows ==> RowIsTimely(s, id)
    ensures RowIsTimely(Next(s, t), id)
  {
    if id in s.rows {
      StepOnRow(s, t, id);
      PastClaimsStayTimely(s, t, id);
      if WinsRow(s, t, id) {
        if |History(s, id)| == MAX_ATTEMPTS { OutOfReach(s, id, t.pass); }
        NewClaimIsTimely(s, t, id);
      }
    } else {
      NewRow(s, t, id);
    }
  }

  /** On a timely run no row is ever claimed more than the maximum number of times. */
  lemma {:induction false} AttemptsAreBounded(run: seq<Step>)
    requires AlwaysTimely(run)
    ensures forall id :: id in After(run).rows ==> After(run).rows[id].attempts <= MAX_ATTEMPTS
    ensures forall id :: id in After(run).rows ==> RowIsTimely(After(run), id)
  {
    InvariantHolds(run);
    if run != [] {
      var s, t := After(run[..|run| - 1]), run[|run| - 1];
      AttemptsAreBounded(run[..|run| - 1]);
      InvariantHolds(run[..|run| - 1]);
      forall id | id in After(run).rows ensures RowIsTimely(After(run), id) { TimelyStep(s, t, id); }
    }
    forall id | id in After(run).rows ensures After(run).rows[id].attempts <= MAX_ATTEMPTS {
      assert RowInvariant(After(run), id) && RowIsTimely(After(run), id);
    }
  }

  // ---------- A run that passes the maximum ----------

  /** A stalled worker's stamp makes its lease look expired at once: two claims later the maximum is passed. */
  lemma OvertakingExceedsMaximum(s: System, stalled: Id, late: Id, row: Id)
    requires Enabled(s, Claim(stalled, row)) && Enabled(s, Claim(late, row)) && stalled != late
    requires s.rows[row].status == Delivering && s.rows[row].attempts == MAX_ATTEMPTS - 1
    requires LeaseRanOut(s.rows[row], s.passes[stalled].stamp)
    requires s.passes[stalled].stamp + LEASE_SECONDS < s.passes[late].stamp
    ensures Next(Next(s, Claim(stalled, row)), Claim(late, row)).rows[row].attempts == MAX_ATTEMPTS + 1
  {
    var s1 := Next(s, Claim(stalled, row));
    assert Enabled(s1, Claim(late, row));
    assert s1.passes[late].stamp == s.passes[late].stamp;
    assert Claimable(s1.rows[row], s1.passes[late].stamp);
  }

  lemma AfterOneMore(run: seq<Step>, t: Step)
    ensures After(run + [t]) == Next(After(run), t)
  {
    assert (run + [t])[..|run|] == run;
  }

  /** One row, and `n` passes a hundred seconds apart that each claim it and then deliver nothing. */
  function Rounds(n: nat): seq<Step> {
    if n == 0 then [Enqueue(0, Outbox, 0)] else Rounds(n - 1) + Prepare(n) + [Claim(n, 0)]
  }

  /** A pass up to the point where it may claim. */
  function Prepare(pass: Id): seq<Step> {
    [Start(pass, 100 * pass)] + [MarkExhausted(pass, Outbox)] + [MarkExhausted(pass, Reminders)]
  }

  predicate NobodyFrom(s: System, n: nat) {
    forall p :: p in s.passes ==> p < n
  }

  predicate ReadyToClaim(s: System, pass: Id) {
    Alive(s, pass) && MayClaim(s.passes[pass]) && s.passes[pass].stamp == 100 * pass
  }

  /** A pass that marks leaves an unexhausted row alone. */
  lemma MarkSpares(s: System, pass: Id, table: Table)
    requires Enabled(s, MarkExhausted(pass, table)) && 0 in s.rows && s.rows[0].attempts < MAX_ATTEMPTS
    ensures var s' := Next(s, MarkExhausted(pass, table));
            && 0 in s'.rows && s'.rows[0] == s.rows[0] && s'.passes.Keys == s.passes.Keys
            && (forall p :: p in s.passes && p != pass ==> s'.passes[p] == s.passes[p])
            && s'.passes[pass].marks.Keys == s.passes[pass].marks.Keys + {table}
            && s'.passes[pass].alive && s'.passes[pass].stamp == s.passes[pass].stamp
  {
  }

  /** A new pass that has marked both tables may claim. */
  lemma PreparedSystem(s0: System, pass: Id)
    requires pass !in s0.passes && 0 in s0.rows && s0.rows[0].attempts < MAX_ATTEMPTS
    ensures var s := Next(Next(Next(s0, Start(pass, 100 * pass)), MarkExhausted(pass, Outbox)), MarkExhausted(pass, Reminders));
            && 0 in s.rows && s.rows[0] == s0.rows[0] && s.passes.Keys == s0.passes.Keys + {pass}
            && ReadyToClaim(s, pass) && forall p :: p in s0.passes ==> s.passes[p] == s0.passes[p]
  {
    var s1 := Next(s0, Start(pass, 100 * pass));
    assert s1.passes == s0.passes[pass := Pass(100 * pass, map[], {}, {}, true)] && s1.rows == s0.rows;
    MarkSpares(s1, pass, Outbox);
    var s2 := Next(s1, MarkExhausted(pass, Outbox));
    assert Reminders !in s2.passes[pass].marks.Keys;
    MarkSpares(s2, pass, Reminders);
    assert Next(s2, MarkExhausted(pass, Reminders)).passes[pass].marks.Keys == {Outbox, Reminders};
  }

  /** Preparing a new pass leaves an unexhausted row alone. */
  lemma PreparedPass(run: seq<Step>, pass: Id)
    requires NobodyFrom(After(run), pass) && 0 in After(run).rows
    requires After(run).rows[0].attempts < MAX_ATTEMPTS
    ensures var s, s' := After(run), After(run + Prepare(pass));
            && 0 in s'.rows && s'.rows[0] == s.rows[0] && NobodyFrom(s', pass + 1) && ReadyToClaim(s', pass)
            && forall p :: ReadyToClaim(s, p) ==> ReadyToClaim(s', p)
  {
    var s0, s3 := After(run), After(run + Prepare(pass));
    AfterPreparing(run, pass);
    PreparedSystem(s0, pass);
    assert forall p :: p in s3.passes ==> p in s0.passes.Keys + {pass};
  }

  lemma AfterPreparing(run: seq<Step>, pass: Id)
    ensures After(run + Prepare(pass))
         == Next(Next(Next(After(run), Start(pass, 100 * pass)), MarkExhausted(pass, Outbox)), MarkExhausted(pass, Reminders))
  {
    var start, first, second := Start(pass, 100 * pass), MarkExhausted(pass, Outbox), MarkExhausted(pass, Reminders);
    assert run + Prepare(pass) == run + [start] + [first] + [second];
    AfterOneMore(run, start);
    AfterOneMore(run + [start], first);
    AfterOneMore(run + [start] + [first], second);
  }

  lemma {:induction false} RoundsClaim(n: nat)
    requires n < MAX_ATTEMPTS
    ensures var s := After(Rounds(n));
            && NobodyFrom(s, n + 1) && 0 in s.rows && s.rows[0].table == Outbox && s.rows[0].attempts == n
            && s.rows[0].status == (if n == 0 then Pending else Delivering)
            && s.rows[0].lease == (if n == 0 then NoLease else Until(100 * n + LEASE_SECONDS))
  {
    if n == 0 {
      assert Rounds(0) == [] + [Enqueue(0, Outbox, 0)];
      AfterOneMore([], Enqueue(0, Outbox, 0));
    } else {
      RoundsClaim(n - 1);
      PreparedPass(Rounds(n - 1), n);
      AfterOneMore(Rounds(n - 1) + Prepare(n), Claim(n, 0));
    }
  }

  /** Four claims, then two passes that have both marked before either claims. */
  const SIX_CLAIMS := Rounds(4) + Prepare(5) + Prepare(6) + [Claim(5, 0)] + [Claim(6, 0)]

  /** A run from the empty system in which one row is claimed six times. */
  lemma SixClaimsAreMade()
    ensures 0 in After(SIX_CLAIMS).rows && After(SIX_CLAIMS).rows[0].attempts == MAX_ATTEMPTS + 1
  {
    RoundsClaim(4);
    PreparedPass(Rounds(4), 5);
    PreparedPass(Rounds(4) + Prepare(5), 6);
    var ready := Rounds(4) + Prepare(5) + Prepare(6);
    AfterOneMore(ready, Claim(5, 0));
    AfterOneMore(ready + [Claim(5, 0)], Claim(6, 0));
    OvertakingExceedsMaximum(After(ready), 5, 6, 0);
  }

  /** Delivered and failed rows never change again. */
  lemma {:induction false} ClosedForGood(run: seq<Step>, n: nat, row: Id)
    requires n <= |run| && row in After(run[..n]).rows && IsTerminal(After(run[..n]).rows[row])
    ensures row in After(run).rows && After(run).rows[row] == After(run[..n]).rows[row]
    decreases |run|
  {
    if n == |run| {
      assert run[..n] == run;
    } else {
      assert run[..|run| - 1][..n] == run[..n];
      ClosedForGood(run[..|run| - 1], n, row);
      StepOnRow(After(run[..|run| - 1]), run[|run| - 1], row);
    }
  }

  function DeliveredRows(s: System): set<Id> {
    set id | id in s.rows && s.rows[id].status == Delivered
  }

  /** Successful finishes are as many as delivered rows. */
  lemma FinishesCountDeliveries(run: seq<Step>)
    ensures After(run).finishes == |DeliveredRows(After(run))|
  {
    InvariantHolds(run);
    assert DeliveredRows(After(run)) == After(run).finishedBy.Keys;
  }

  /** Every delivered row was finished by a worker that claimed and sent it. */
  lemma FinishesAreDeliveries(run: seq<Step>, row: Id)
    requires row in After(run).rows && After(run).rows[row].status == Delivered
    ensures row in After(run).finishedBy && (After(run).finishedBy[row], row) in After(run).sends
    ensures HasClaimed(After(run), After(run).finishedBy[row], row)
  {
    InvariantHolds(run);
  }

  // ---------- A bound on the steps of one row ----------

  function Changes(run: seq<Step>, row: Id): nat {
    if run == [] then 0 else
      var s, s' := After(run[..|run| - 1]), After(run);
      Changes(run[..|run| - 1], row) + (if row in s.rows && row in s'.rows && s.rows[row] != s'.rows[row] then 1 else 0)
  }

  /** Every change of a row is a claim or closes it. */
  lemma {:induction false} ChangesAreClaims(run: seq<Step>, row: Id)
    requires row in After(run).rows
    ensures Changes(run, row) <= After(run).rows[row].attempts + (if IsTerminal(After(run).rows[row]) then 1 else 0)
  {
    if run != [] {
      var before := run[..|run| - 1];
      if row in After(before).rows {
        ChangesAreClaims(before, row);
        StepOnRow(After(before), run[|run| - 1], row);
      } else {
        NoChangesBefore(before, row);
      }
    }
  }

  lemma {:induction false} NoChangesBefore(run: seq<Step>, row: Id)
    requires row !in After(run).rows
    ensures Changes(run, row) == 0
  {
    if run != [] {
      NoChangesBefore(run[..|run| - 1], row);
    }
  }

  /** In any interleaving with crashes, one row changes a bounded number of times: no row is retried forever. */
  lemma ChangesAreBounded(run: seq<Step>, row: Id)
    requires row in After(run).rows
    ensures Changes(run, row) <= MAX_ATTEMPTS + |Overtakers(After(run), row)| + 1
    ensures AlwaysTimely(run) ==> Changes(run, row) <= MAX_ATTEMPTS + 1
  {
    ChangesAreClaims(run, row);
    AttemptsAreBoundedByOvertakers(run, row);
    if AlwaysTimely(run) {
      AttemptsAreBounded(run);
    }
  }
}
