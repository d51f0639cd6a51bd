/**
 Executing one message (`execute_message` in src/daily_agent/api.py): reserve and commit, generate outside any
 transaction, then write the run, its outbox event, the routing evidence and the end of the hold in one transaction.
 A fault may be raised at any step, and other transactions may commit whenever this one has none open.
 */
module Message {
  import opened Options
  import opened Calendar
  import opened Budget
  import Slots
  import Gateway

  datatype Run = Run(account: Id, request: Id, hash: Option<Id>, id: Id, payload: Id)
  datatype Event = Event(account: Id, request: Id, run: Id, payload: Id)

  /**
   One committed state of every table a message touches. `holding` is the model's own bookkeeping: which live messages
   are between taking their slots and giving them back, and on which day they took them.
   */
  datatype Store = Store(books: Books, usage: Slots.Usage, runs: seq<Run>, outbox: seq<Event>,
                         tasks: seq<(Id, Id)>, routed: seq<Id>, holding: map<Id, nat>)

  /** `live`: the gateway serves models; `paid`: the plan has a price; `runId`: the identifier the new run will get. */
  datatype Message = Message(hold: Request, hash: Id, live: bool, paid: bool, runId: Id) {
    function Account(): Id { hold.key.account }
    function Request(): Id { hold.key.request }
    function Day(): nat { hold.now / DAY_SECONDS }
    function NewRun(payload: Id): Run { Run(Account(), Request(), Some(hash), runId, payload) }
    function NewEvent(payload: Id): Event { Event(Account(), Request(), runId, payload) }
  }

  /** What generating produced. `counted` is the number of provider requests its calls report. */
  datatype Generation =
    | Raised
    | Produced(payload: Id, createsTask: bool, release: bool, actual: Option<nat>, actualTokens: Option<nat>, counted: nat)

  datatype Exit =
    | HashConflict
    | Replayed(run: Run)
    | NotReserved(why: Outcome)
    | CapacityFull
    | GenerationRaised
    | Completed(run: Run)
    | Recovered(run: Run)
    | RecoveredConflict
    | PersistRaised
    | RecoveryFailed      // the handler's own transaction failed or the process died: nothing of it was committed

  // ---------- Steps of the second transaction, any of which may raise ----------

  datatype Problem = NoProblem | IntegrityError | OtherError {
    predicate IsFailure() { this != NoProblem }
  }

  datatype Step = ApplyIntent | InsertRun | InsertEvent | RecordEvidence | ReturnSlots | EndHold | Commit

  datatype Fault = NoFault | Fault(step: Step, problem: Problem) {
    function At(s: Step): Problem { if Fault? && step == s then problem else NoProblem }
  }

  datatype Txn = Going(store: Store) | Stopped(problem: Problem) {
    predicate IsFailure() { Stopped? }
    function PropagateFailure(): Txn requires Stopped? { this }
    function Extract(): Store requires Going? { store }
  }

  predicate Answers(run: Run, account: Id, request: Id) { run.account == account && run.request == request }

  predicate Tells(e: Event, account: Id, request: Id) { e.account == account && e.request == request }

  function Guarded(fault: Fault, step: Step, violated: bool, store: Store): Txn {
    if fault.At(step) != NoProblem then Stopped(fault.At(step))
    else if violated then Stopped(IntegrityError)
    else Going(store)
  }

  predicate RunTaken(runs: seq<Run>, m: Message) {
    exists i :: 0 <= i < |runs| && (Answers(runs[i], m.Account(), m.Request()) || runs[i].id == m.runId)
  }

  predicate EventTaken(outbox: seq<Event>, m: Message) {
    exists i :: 0 <= i < |outbox| && Tells(outbox[i], m.Account(), m.Request())
  }

  function WithTask(s: Store, m: Message, g: Generation, fault: Fault): Txn
    requires g.Produced?
  {
    if g.createsTask
    then Guarded(fault, ApplyIntent, (m.Account(), m.Request()) in s.tasks, s.(tasks := s.tasks + [(m.Account(), m.Request())]))
    else Guarded(fault, ApplyIntent, false, s)
  }

  function WithRun(s: Store, m: Message, g: Generation, fault: Fault): Txn
    requires g.Produced?
  {
    Guarded(fault, InsertRun, RunTaken(s.runs, m), s.(runs := s.runs + [m.NewRun(g.payload)]))
  }

  function WithEvent(s: Store, m: Message, g: Generation, fault: Fault): Txn
    requires g.Produced?
  {
    Guarded(fault, InsertEvent, EventTaken(s.outbox, m), s.(outbox := s.outbox + [m.NewEvent(g.payload)]))
  }

  function WithEvidence(s: Store, m: Message, fault: Fault): Txn {
    Guarded(fault, RecordEvidence, m.runId in s.routed, s.(routed := s.routed + [m.runId]))
  }

  /** A live message hands back the slots it did not use. */
  function SlotsBack(s: Store, m: Message, counted: nat): Store {
    if m.live then
      s.(usage := Slots.Returned(s.usage, m.Day(), Gateway.MAX_ATTEMPTS, counted), holding := s.holding - {m.runId})
    else s
  }

  function WithSlots(s: Store, m: Message, g: Generation, fault: Fault): Txn
    requires g.Produced?
  {
    Guarded(fault, ReturnSlots, false, SlotsBack(s, m, g.counted))
  }

  function FinisherOf(g: Generation): Finisher
    requires g.Produced?
  {
    if g.release then Release else Settle(g.actual, g.actualTokens)
  }

  /** Release claims the row whatever the copy says; settling first looks at the copy. A missing window raises. */
  function WithEnd(s: Store, m: Message, copy: Hold, g: Generation, fault: Fault): Txn
    requires g.Produced?
  {
    if fault.At(EndHold) != NoProblem then Stopped(fault.At(EndHold))
    else if Effective(s.books, m.hold.key, copy, FinisherOf(g)) && copy.window !in s.books.windows then Stopped(OtherError)
    else Going(s.(books := Finish(s.books, m.hold.key, copy, FinisherOf(g))))
  }

  /** The records of a reply: the task it claims, the run, its event and the routing evidence. */
  function Recording(s: Store, m: Message, g: Generation, fault: Fault): Txn
    requires g.Produced?
  {
    var s1 :- WithTask(s, m, g, fault);
    var s2 :- WithRun(s1, m, g, fault);
    var s3 :- WithEvent(s2, m, g, fault);
    WithEvidence(s3, m, fault)
  }

  function Ending(s: Store, m: Message, copy: Hold, g: Generation, fault: Fault): Txn
    requires g.Produced?
  {
    var s1 :- WithSlots(s, m, g, fault);
    var s2 :- WithEnd(s1, m, copy, g, fault);
    Guarded(fault, Commit, false, s2)
  }

  function Persist(s: Store, m: Message, copy: Hold, g: Generation, fault: Fault): Txn
    requires g.Produced?
  {
    var s1 :- Recording(s, m, g, fault);
    Ending(s1, m, copy, g, fault)
  }

  // ---------- The whole message ----------

  /** What other transactions commit, at the three points where this message has none open. */
  type Others = (nat, Store) -> Store

  const DURING_GENERATION := 0
  const BEFORE_RECOVERY := 1
  const BEFORE_REREADING := 2

  function FindRun(runs: seq<Run>, account: Id, request: Id): Option<Run> {
    if runs == [] then None
    else if Answers(runs[0], account, request) then Some(runs[0])
    else FindRun(runs[1..], account, request)
  }

  predicate Differs(run: Run, m: Message) {
    run.hash.Some? && run.hash.value != m.hash
  }

  datatype Begun = Holding(copy: Hold) | Ended(exit: Exit)

  /** The slots of a live message; `None` when the day is full. */
  function WithTicket(s: Store, m: Message, q: Slots.Quota): Option<Store> {
    if !m.live then Some(s)
    else
      var usage := Slots.Admit(s.usage, q, m.Day(), m.paid, Gateway.MAX_ATTEMPTS);
      if usage.None? then None else Some(s.(usage := usage.value, holding := s.holding[m.runId := m.Day()]))
  }

  /** Everything up to and including the first commit; every refusal is rolled back. */
  function Begin(s: Store, m: Message, p: PeriodKey, q: Slots.Quota): (Store, Begun) {
    var existing := FindRun(s.runs, m.Account(), m.Request());
    if existing.Some? then
      (s, Ended(if Differs(existing.value, m) then HashConflict else Replayed(existing.value)))
    else
      var (books, outcome) := Reserve(s.books, m.hold, RowOf(s.books, m.hold.key), p);
      if !Commits(outcome) then (s, Ended(NotReserved(outcome)))
      else
        var admitted := WithTicket(s.(books := books), m, q);
        if admitted.None? then (s, Ended(CapacityFull)) else (admitted.value, Holding(outcome.hold))
  }

  /** The hold released and, when the generation's requests were counted, the unused slots returned. */
  function GivenUp(s: Store, m: Message, copy: Hold, counted: Option<nat>): Store {
    var released := s.(books := Finish(s.books, m.hold.key, copy, Release));
    if counted.Some? then SlotsBack(released, m, counted.value)
    else if m.live then released.(holding := released.holding - {m.runId})
    else released
  }

  predicate CanGiveUp(s: Store, m: Message, copy: Hold) {
    IsReserved(s.books, m.hold.key) ==> copy.window in s.books.windows
  }

  /**
   Everything after the first commit. `recovers` says whether a handler's own transaction commits. When generating
   raises, no transaction has begun and the session still holds its copy; a rolled-back write makes it read the row again.
   */
  function Conclude(s: Store, m: Message, copy: Hold, g: Generation, fault: Fault, recovers: bool, others: Others): (Store, Exit)
  {
    if g.Raised? then
      if !recovers || !CanGiveUp(s, m, copy) then (s, RecoveryFailed)
      else (GivenUp(s, m, copy, None), GenerationRaised)
    else Written(s, m, copy, g, fault, recovers, others)
  }

  function Written(s: Store, m: Message, copy: Hold, g: Generation, fault: Fault, recovers: bool, others: Others): (Store, Exit)
    requires g.Produced?
  {
    WriteEnds(s, Persist(s, m, copy, g, fault), m, g, recovers, others)
  }

  /** A write that went through is the end; a failed one is handled in the world found after rolling back. */
  function WriteEnds(s: Store, txn: Txn, m: Message, g: Generation, recovers: bool, others: Others): (Store, Exit)
    requires g.Produced?
  {
    match txn
    case Going(store) => (store, Completed(m.NewRun(g.payload)))
    case Stopped(problem) => Recover(others(BEFORE_RECOVERY, s), m, g, problem, recovers, others)
  }

  function Recover(s: Store, m: Message, g: Generation, problem: Problem, recovers: bool, others: Others): (Store, Exit)
    requires g.Produced?
  {
    var row := RowOf(s.books, m.hold.key);
    if !recovers || row.None? || !CanGiveUp(s, m, row.value) then (s, RecoveryFailed)
    else
      var store := GivenUp(s, m, row.value, Some(g.counted));
      if problem != IntegrityError then (store, PersistRaised)
      else
        var later := others(BEFORE_REREADING, store);
        (later, Reread(later, m))
  }

  function Reread(s: Store, m: Message): Exit {
    var run := FindRun(s.runs, m.Account(), m.Request());
    if run.None? then PersistRaised
    else if Differs(run.value, m) then RecoveredConflict
    else Recovered(run.value)
  }

  function Execute(s: Store, m: Message, p: PeriodKey, q: Slots.Quota, g: Generation, fault: Fault, recovers: bool,
                   others: Others): (Store, Exit)
  {
    match Begin(s, m, p, q)
    case (store, Ended(exit)) => (store, exit)
    case (store, Holding(copy)) => Conclude(others(DURING_GENERATION, store), m, copy, g, fault, recovers, others)
  }

  // ---------- The session ----------

  class Session {
    const ledger: Ledger
    const days: Slots.RequestDays
    var runs: seq<Run>
    var outbox: seq<Event>
    var tasks: seq<(Id, Id)>
    var routed: seq<Id>
    var holding: map<Id, nat>
    var committed: Store

    constructor (ledger: Ledger, days: Slots.RequestDays)
      ensures this.ledger == ledger && this.days == days
      ensures runs == [] && outbox == [] && tasks == [] && routed == [] && holding == map[] && committed == Pending()
    {
      this.ledger, this.days := ledger, days;
      runs, outbox, tasks, routed, holding := [], [], [], [], map[];
      committed := Store(ledger.Snapshot(), days.usage, [], [], [], [], map[]);
    }

    function Pending(): Store
      reads this, ledger, days
    {
      Store(ledger.Snapshot(), days.usage, runs, outbox, tasks, routed, holding)
    }

    method CommitAll()
      modifies this
      ensures Pending() == old(Pending()) == committed
    {
      committed := Store(ledger.Snapshot(), days.usage, runs, outbox, tasks, routed, holding);
    }

    method RollbackAll()
      modifies this, ledger, days
      ensures Pending() == old(committed) == committed
    {
      ledger.Rollback(committed.books);
      days.usage := committed.usage;
      runs, outbox, tasks, routed := committed.runs, committed.outbox, committed.tasks, committed.routed;
      holding := committed.holding;
    }

    /** Other transactions commit while this session has none open. */
    method LetOthersCommit(world: Store)
      modifies this, ledger, days
      ensures Pending() == world == committed
    {
      committed := world;
      RollbackAll();
    }

    method InsertTask(m: Message, g: Generation, fault: Fault) returns (problem: Problem)
      requires g.Produced?
      modifies this
      ensures match WithTask(old(Pending()), m, g, fault)
              case Going(store) => problem == NoProblem && Pending() == store
              case Stopped(raised) => problem == raised
      ensures committed == old(committed)
    {
      if fault.At(ApplyIntent).IsFailure() { return fault.At(ApplyIntent); }
      if g.createsTask {
        if (m.Account(), m.Request()) in tasks { return IntegrityError; }
        tasks := tasks + [(m.Account(), m.Request())];
      }
      return NoProblem;
    }

    /** `persist_completed_run`: the run, then its outbox event, each flushed. */
    method PersistCompletedRun(m: Message, g: Generation, fault: Fault) returns (problem: Problem)
      requires g.Produced?
      modifies this
      ensures match WithRun(old(Pending()), m, g, fault)
              case Stopped(raised) => problem == raised
              case Going(middle) =>
                match WithEvent(middle, m, g, fault)
                case Going(store) => problem == NoProblem && Pending() == store
                case Stopped(raised) => problem == raised
      ensures committed == old(committed)
    {
      if fault.At(InsertRun).IsFailure() { return fault.At(InsertRun); }
      if RunTaken(runs, m) { return IntegrityError; }
      runs := runs + [m.NewRun(g.payload)];
      if fault.At(InsertEvent).IsFailure() { return fault.At(InsertEvent); }
      if EventTaken(outbox, m) { return IntegrityError; }
      outbox := outbox + [m.NewEvent(g.payload)];
      return NoProblem;
    }

    method RecordRoutingEvidence(m: Message, fault: Fault) returns (problem: Problem)
      modifies this
      ensures match WithEvidence(old(Pending()), m, fault)
              case Going(store) => problem == NoProblem && Pending() == store
              case Stopped(raised) => problem == raised
      ensures committed == old(committed)
    {
      if fault.At(RecordEvidence).IsFailure() { return fault.At(RecordEvidence); }
      if m.runId in routed { return IntegrityError; }
      routed := routed + [m.runId];
      return NoProblem;
    }

    method EndOfHold(m: Message, copy: Hold, g: Generation, fault: Fault) returns (problem: Problem)
      requires g.Produced?
      modifies this, ledger, days
      ensures match WithSlots(old(Pending()), m, g, fault)
              case Stopped(raised) => problem == raised
              case Going(middle) =>
                match WithEnd(middle, m, copy, g, fault)
                case Going(store) => problem == NoProblem && Pending() == store
                case Stopped(raised) => problem == raised
      ensures committed == old(committed)
    {
      if fault.At(ReturnSlots).IsFailure() { return fault.At(ReturnSlots); }
      if m.live {
        days.ReturnGatewayRequests(m.Day(), Gateway.MAX_ATTEMPTS, g.counted);
        holding := holding - {m.runId};
      }
      if fault.At(EndHold).IsFailure() { return fault.At(EndHold); }
      var raised;
      if g.release {
        raised := ledger.ReleaseBudget(m.hold.key, copy);
      } else {
        raised := ledger.SettleBudget(m.hold.key, copy, g.actual, g.actualTokens);
      }
      return if raised then OtherError else NoProblem;
    }

    method RecordReply(m: Message, g: Generation, fault: Fault) returns (problem: Problem)
      requires g.Produced?
      modifies this
      ensures match Recording(old(Pending()), m, g, fault)
              case Going(store) => problem == NoProblem && Pending() == store
              case Stopped(raised) => problem == raised
      ensures committed == old(committed)
    {
      problem := InsertTask(m, g, fault);
      if problem.IsFailure() { return; }
      problem := PersistCompletedRun(m, g, fault);
      if problem.IsFailure() { return; }
      problem := RecordRoutingEvidence(m, fault);
    }

    /** The body of the second try block. */
    method WriteAll(m: Message, copy: Hold, g: Generation, fault: Fault) returns (problem: Problem, ghost txn: Txn)
      requires g.Produced?
      modifies this, ledger, days
      ensures txn == Persist(old(Pending()), m, copy, g, fault)
      ensures match txn
              case Going(store) => problem == NoProblem && Pending() == store && committed == store
              case Stopped(raised) => problem == raised && (raised != NoProblem ==> committed == old(committed))
    {
      txn := Persist(Pending(), m, copy, g, fault);
      problem := RecordReply(m, g, fault);
      if problem.IsFailure() { return; }
      problem := EndOfHold(m, copy, g, fault);
      if problem.IsFailure() { return; }
      problem := fault.At(Commit);
      if problem.IsFailure() { return; }
      CommitAll();
    }

    /** What every handler does first: release the hold, return slots, commit. */
    method GiveUp(m: Message, copy: Hold, counted: Option<nat>, recovers: bool) returns (failed: bool)
      requires Pending() == committed
      modifies this, ledger, days
      ensures failed <==> !recovers || !CanGiveUp(old(committed), m, copy)
      ensures Pending() == committed == if failed then old(committed) else GivenUp(old(committed), m, copy, counted)
    {
      if !recovers {
        return true;
      }
      failed := ledger.ReleaseBudget(m.hold.key, copy);
      if failed {
        RollbackAll();
        return;
      }
      if m.live {
        if counted.Some? {
          days.ReturnGatewayRequests(m.Day(), Gateway.MAX_ATTEMPTS, counted.value);
        }
        holding := holding - {m.runId};
      }
      CommitAll();
    }

    /** A refusal leaves the day's row behind; the caller rolls back. */
    method TakeSlots(m: Message) returns (full: bool)
      modifies this, days
      ensures full <==> WithTicket(old(Pending()), m, days.quota).None?
      ensures !full ==> Pending() == WithTicket(old(Pending()), m, days.quota).value
      ensures committed == old(committed)
    {
      if !m.live {
        return false;
      }
      full := days.AdmitGatewayRequests(m.Day(), m.paid, Gateway.MAX_ATTEMPTS);
      if !full {
        holding := holding[m.runId := m.Day()];
      }
    }

    method ReserveFirst(m: Message) returns (begun: Begun, ghost p: PeriodKey)
      requires Pending() == committed
      requires forall k :: k in ledger.holds ==> ledger.holds[k].window in ledger.windows
      modifies this, ledger, days
      ensures Pending() == committed
      ensures (committed, begun) == Begin(old(committed), m, p, days.quota)
    {
      p := PeriodKey(0, 0);
      var existing := FindRun(runs, m.Account(), m.Request());
      if existing.Some? {
        return Ended(if Differs(existing.value, m) then HashConflict else Replayed(existing.value)), p;
      }
      var seen := if m.hold.key in ledger.holds then Some(ledger.holds[m.hold.key]) else None;
      var outcome;
      outcome, p := ledger.ReserveBudget(m.hold, seen);
      if !Commits(outcome) {
        RollbackAll();
        return Ended(NotReserved(outcome)), p;
      }
      assert Pending() == old(committed).(books := Reserve(old(committed).books, m.hold, seen, p).0);
      var full := TakeSlots(m);
      if full {
        RollbackAll();
        return Ended(CapacityFull), p;
      }
      CommitAll();
      return Holding(outcome.hold), p;
    }

    method ExecuteMessage(m: Message, g: Generation, fault: Fault, recovers: bool, others: Others)
      returns (exit: Exit, ghost p: PeriodKey)
      requires Pending() == committed
      requires forall k :: k in ledger.holds ==> ledger.holds[k].window in ledger.windows
      modifies this, ledger, days
      ensures Pending() == committed
      ensures (committed, exit) == Execute(old(committed), m, p, days.quota, g, fault, recovers, others)
    {
      var begun;
      begun, p := ReserveFirst(m);
      if begun.Ended? {
        return begun.exit, p;
      }
      LetOthersCommit(others(DURING_GENERATION, committed));
      exit := AfterReserving(m, begun.copy, g, fault, recovers, others);
    }

    method AfterReserving(m: Message, copy: Hold, g: Generation, fault: Fault, recovers: bool, others: Others)
      returns (exit: Exit)
      requires Pending() == committed
      modifies this, ledger, days
      ensures Pending() == committed
      ensures (committed, exit) == Conclude(old(committed), m, copy, g, fault, recovers, others)
    {
      if g.Raised? {
        var failed := GiveUp(m, copy, None, recovers);
        return if failed then RecoveryFailed else GenerationRaised;
      }
      exit := WriteReply(m, copy, g, fault, recovers, others);
    }

    method WriteReply(m: Message, copy: Hold, g: Generation, fault: Fault, recovers: bool, others: Others)
      returns (exit: Exit)
      requires Pending() == committed && g.Produced?
      modifies this, ledger, days
      ensures Pending() == committed
      ensures (committed, exit) == Written(old(committed), m, copy, g, fault, recovers, others)
    {
      var problem, txn := WriteAll(m, copy, g, fault);
      assert problem == NoProblem <==> txn.Going?;
      if problem == NoProblem {
        return Completed(m.NewRun(g.payload));
      }
      exit := AfterFailing(m, g, problem, recovers, others);
    }

    /** The handlers of the second try block. */
    method AfterFailing(m: Message, g: Generation, problem: Problem, recovers: bool, others: Others) returns (exit: Exit)
      requires g.Produced?
      modifies this, ledger, days
      ensures Pending() == committed
      ensures (committed, exit) == Recover(others(BEFORE_RECOVERY, old(committed)), m, g, problem, recovers, others)
    {
      RollbackAll();
      LetOthersCommit(others(BEFORE_RECOVERY, committed));
      if m.hold.key !in ledger.holds {
        return RecoveryFailed;
      }
      var failed := GiveUp(m, ledger.holds[m.hold.key], Some(g.counted), recovers);
      if failed {
        return RecoveryFailed;
      }
      if problem != IntegrityError {
        return PersistRaised;
      }
      LetOthersCommit(others(BEFORE_REREADING, committed));
      return Reread(committed, m);
    }
  }
}
