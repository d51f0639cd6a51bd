/**
 What `Message.Execute` guarantees whatever fault is raised, and whatever other transactions commit in between.
 */
module ExactlyOnce {
  import opened Options
  import opened Budget
  import opened Conservation
  import opened Owners
  import opened Message
  import Slots
  import Gateway

  // ---------- Sound stores ----------

  predicate UniqueRuns(runs: seq<Run>) {
    forall i, j :: 0 <= i < j < |runs| ==>
      runs[i].id != runs[j].id && !Answers(runs[j], runs[i].account, runs[i].request)
  }

  predicate UniqueEvents(outbox: seq<Event>) {
    forall i, j :: 0 <= i < j < |outbox| ==> !Tells(outbox[j], outbox[i].account, outbox[i].request)
  }

  function EventOf(run: Run): Event { Event(run.account, run.request, run.id, run.payload) }

  /** Every run has its outbox event and every event its run. */
  predicate Paired(runs: seq<Run>, outbox: seq<Event>) {
    && (forall run :: run in runs ==> EventOf(run) in outbox)
    && (forall e :: e in outbox ==> exists run :: run in runs && EventOf(run) == e)
  }

  /** The messages that hold slots of a day. */
  function HoldersOn(holding: map<Id, nat>, day: nat): set<Id> {
    set t | t in holding && holding[t] == day
  }

  /** Every day counts the slots of all messages that hold some. */
  ghost predicate SlotsCounted(usage: Slots.Usage, holding: map<Id, nat>) {
    forall d :: Slots.UsedOn(usage, d) >= Gateway.MAX_ATTEMPTS * |HoldersOn(holding, d)|
  }

  ghost predicate Sound(s: Store) {
    && Homed(s.books) && UniqueRuns(s.runs) && UniqueEvents(s.outbox) && Paired(s.runs, s.outbox)
    && SlotsCounted(s.usage, s.holding)
  }

  /** What any transaction of the program does to a store: rows are not deleted, and a sound store stays sound. */
  ghost predicate Follows(s: Store, s': Store) {
    && (Sound(s) ==> Sound(s'))
    && s.books.windows.Keys <= s'.books.windows.Keys
    && s.books.holds.Keys <= s'.books.holds.Keys
    && forall run :: run in s.runs ==> run in s'.runs
  }

  ghost predicate Orderly(others: Others) {
    forall i, s :: Follows(s, others(i, s))
  }

  /** The slots taken under a ticket are still held under it, on the same day. */
  predicate KeepsTicket(s: Store, s': Store, ticket: Id) {
    ticket in s.holding ==> ticket in s'.holding && s'.holding[ticket] == s.holding[ticket]
  }

  /** Others give back no slots but their own. */
  ghost predicate Respectful(others: Others, ticket: Id) {
    forall i, s :: KeepsTicket(s, others(i, s), ticket)
  }

  // ---------- The ledger's part ----------

  /** Reserving only adds rows, and a copy it hands out is of a row that is open or already closed. */
  lemma ReserveFollows(b: Books, r: Request, p: PeriodKey)
    ensures var (b', outcome) := Reserve(b, r, RowOf(b, r.key), p);
            && (Homed(b) ==> Homed(b'))
            && b.windows.Keys <= b'.windows.Keys && b.holds.Keys <= b'.holds.Keys
            && (Commits(outcome) ==> r.key in b'.holds && b'.holds[r.key] == outcome.hold)
            && (outcome.Granted? ==> outcome.hold.status == Reserved && outcome.hold.window in b'.windows)
            && (outcome.Existing? ==> outcome.hold.status in {Settled, Unknown})
  {
    var seen := RowOf(b, r.key);
    OnlyGrantsChange(b, r, seen, p);
    if Reserve(b, r, seen, p).1.Granted? {
      ReserveTakes(b, r, seen, p);
      SweepFrame(EnsureWindow(Expired(b, r, seen), r.Target(), r.plan, r.dayLimit),
                 FirstFew(r.candidates, SWEEP_LIMIT), r.now);
    }
  }

  lemma FinishFollows(b: Books, key: HoldKey, copy: Hold, f: Finisher)
    ensures var b' := Finish(b, key, copy, f);
            && (Homed(b) ==> Homed(b'))
            && b.windows.Keys == b'.windows.Keys && b.holds.Keys == b'.holds.Keys
            && ((f.Settle? ==> copy.status == Reserved) && copy.window in b.windows ==> !IsReserved(b', key))
            && (f.Settle? && copy.status != Reserved ==> b' == b)
  {
  }

  // ---------- The slots' part ----------

  lemma TicketTaken(usage: Slots.Usage, holding: map<Id, nat>, ticket: Id, day: nat)
    requires SlotsCounted(usage, holding)
    ensures SlotsCounted(usage[day := Slots.UsedOn(usage, day) + Gateway.MAX_ATTEMPTS], holding[ticket := day])
  {
    var usage', holding' := usage[day := Slots.UsedOn(usage, day) + Gateway.MAX_ATTEMPTS], holding[ticket := day];
    forall d ensures Slots.UsedOn(usage', d) >= Gateway.MAX_ATTEMPTS * |HoldersOn(holding', d)| {
      HoldersAfterTaking(holding, ticket, day, d);
    }
  }

  lemma HoldersAfterTaking(holding: map<Id, nat>, ticket: Id, day: nat, d: nat)
    ensures |HoldersOn(holding[ticket := day], d)| <= |HoldersOn(holding, d)| + (if d == day then 1 else 0)
  {
    var before := HoldersOn(holding, d);
    if d == day {
      assert HoldersOn(holding[ticket := day], d) == before + {ticket};
    } else {
      assert HoldersOn(holding[ticket := day], d) == before - {ticket};
    }
    OneMoreOrLess(before, ticket);
  }

  lemma OneMoreOrLess(ids: set<Id>, id: Id)
    ensures |ids + {id}| <= |ids| + 1 && |ids - {id}| <= |ids|
  {
  }

  lemma HoldersAfterReturning(holding: map<Id, nat>, ticket: Id, d: nat)
    ensures |HoldersOn(holding - {ticket}, d)|
         == |HoldersOn(holding, d)| - (if ticket in holding && holding[ticket] == d then 1 else 0)
  {
    assert HoldersOn(holding - {ticket}, d) == HoldersOn(holding, d) - {ticket};
  }

  /** Whoever holds slots finds them counted. */
  lemma TicketIsCounted(usage: Slots.Usage, holding: map<Id, nat>, ticket: Id)
    requires SlotsCounted(usage, holding) && ticket in holding
    ensures Slots.UsedOn(usage, holding[ticket]) >= Gateway.MAX_ATTEMPTS
    ensures holding[ticket] in usage
  {
    assert ticket in HoldersOn(holding, holding[ticket]);
    assert |HoldersOn(holding, holding[ticket])| >= 1;
  }

  /** Giving back one's own unused slots keeps everybody else's counted. */
  lemma TicketReturned(usage: Slots.Usage, holding: map<Id, nat>, ticket: Id, counted: nat)
    requires SlotsCounted(usage, holding) && ticket in holding
    ensures SlotsCounted(Slots.Returned(usage, holding[ticket], Gateway.MAX_ATTEMPTS, counted), holding - {ticket})
  {
    forall d ensures Slots.UsedOn(Slots.Returned(usage, holding[ticket], Gateway.MAX_ATTEMPTS, counted), d)
                     >= Gateway.MAX_ATTEMPTS * |HoldersOn(holding - {ticket}, d)| {
      HoldersAfterReturning(holding, ticket, d);
    }
  }

  lemma TicketDropped(usage: Slots.Usage, holding: map<Id, nat>, ticket: Id)
    requires SlotsCounted(usage, holding)
    ensures SlotsCounted(usage, holding - {ticket})
  {
    forall d ensures Slots.UsedOn(usage, d) >= Gateway.MAX_ATTEMPTS * |HoldersOn(holding - {ticket}, d)| {
      HoldersAfterReturning(holding, ticket, d);
    }
  }

  /** A live message in flight has its ticket. */
  predicate Ticketed(s: Store, m: Message) {
    m.live ==> m.runId in s.holding && s.holding[m.runId] == m.Day()
  }

  lemma SlotsBackFollows(s: Store, m: Message, counted: nat)
    requires Ticketed(s, m)
    ensures SlotsCounted(s.usage, s.holding) ==> SlotsCounted(SlotsBack(s, m, counted).usage, SlotsBack(s, m, counted).holding)
    ensures forall t :: t != m.runId ==> KeepsTicket(s, SlotsBack(s, m, counted), t)
  {
    if m.live && SlotsCounted(s.usage, s.holding) {
      TicketReturned(s.usage, s.holding, m.runId, counted);
    }
  }

  // ---------- The second transaction ----------

  /** Run, event, slots and the end of the hold appear together, in a store that had no run for the request. */
  lemma PersistWrites(s: Store, m: Message, copy: Hold, g: Generation, fault: Fault)
    requires g.Produced? && Persist(s, m, copy, g, fault).Going?
    ensures var s' := Persist(s, m, copy, g, fault).store;
            && !RunTaken(s.runs, m) && !EventTaken(s.outbox, m)
            && s'.runs == s.runs + [m.NewRun(g.payload)] && s'.outbox == s.outbox + [m.NewEvent(g.payload)]
            && s'.tasks == s.tasks + (if g.createsTask then [(m.Account(), m.Request())] else [])
            && s'.books == Finish(s.books, m.hold.key, copy, FinisherOf(g))
            && s'.usage == SlotsBack(s, m, g.counted).usage && s'.holding == SlotsBack(s, m, g.counted).holding
            && (Effective(s.books, m.hold.key, copy, FinisherOf(g)) ==> copy.window in s.books.windows)
  {
  }

  lemma AppendKeepsUnique(runs: seq<Run>, outbox: seq<Event>, m: Message, payload: Id)
    requires UniqueRuns(runs) && UniqueEvents(outbox) && Paired(runs, outbox)
    requires !RunTaken(runs, m) && !EventTaken(outbox, m)
    ensures UniqueRuns(runs + [m.NewRun(payload)]) && UniqueEvents(outbox + [m.NewEvent(payload)])
    ensures Paired(runs + [m.NewRun(payload)], outbox + [m.NewEvent(payload)])
  {
    var runs', outbox' := runs + [m.NewRun(payload)], outbox + [m.NewEvent(payload)];
    forall run | run in runs' ensures EventOf(run) in outbox' {
      if run in runs { assert EventOf(run) in outbox; } else { assert outbox'[|outbox|] == EventOf(run); }
    }
    forall e | e in outbox' ensures exists run :: run in runs' && EventOf(run) == e {
      if e in outbox {
        var run :| run in runs && EventOf(run) == e;
        assert run in runs';
      } else {
        assert runs'[|runs|] in runs' && EventOf(runs'[|runs|]) == e;
      }
    }
  }

  lemma PersistFollows(s: Store, m: Message, copy: Hold, g: Generation, fault: Fault)
    requires g.Produced? && Persist(s, m, copy, g, fault).Going? && Ticketed(s, m)
    ensures Follows(s, Persist(s, m, copy, g, fault).store)
    ensures forall t :: t != m.runId ==> KeepsTicket(s, Persist(s, m, copy, g, fault).store, t)
  {
    PersistWrites(s, m, copy, g, fault);
    SlotsBackFollows(s, m, g.counted);
    FinishFollows(s.books, m.hold.key, copy, FinisherOf(g));
    if Sound(s) {
      AppendKeepsUnique(s.runs, s.outbox, m, g.payload);
    }
  }

  lemma GivenUpFollows(s: Store, m: Message, copy: Hold, counted: Option<nat>)
    requires Ticketed(s, m)
    ensures Follows(s, GivenUp(s, m, copy, counted))
    ensures forall t :: t != m.runId ==> KeepsTicket(s, GivenUp(s, m, copy, counted), t)
    ensures CanGiveUp(s, m, copy) ==> !IsReserved(GivenUp(s, m, copy, counted).books, m.hold.key)
  {
    FinishFollows(s.books, m.hold.key, copy, Release);
    if counted.Some? {
      SlotsBackFollows(s, m, counted.value);
    } else if SlotsCounted(s.usage, s.holding) {
      TicketDropped(s.usage, s.holding, m.runId);
    }
  }

  // ---------- Whole messages ----------

  /** The store once the first commit is behind and others have had their turn while the reply was generated. */
  function Found(s: Store, m: Message, p: PeriodKey, q: Slots.Quota, others: Others): Store {
    others(DURING_GENERATION, Begin(s, m, p, q).0)
  }

  lemma TicketFollows(s: Store, m: Message, q: Slots.Quota)
    requires WithTicket(s, m, q).Some?
    ensures Follows(s, WithTicket(s, m, q).value) && Ticketed(WithTicket(s, m, q).value, m)
    ensures forall t :: t != m.runId ==> KeepsTicket(s, WithTicket(s, m, q).value, t)
  {
    if m.live && SlotsCounted(s.usage, s.holding) {
      TicketTaken(s.usage, s.holding, m.runId, m.Day());
    }
  }

  lemma BeginFollows(s: Store, m: Message, p: PeriodKey, q: Slots.Quota)
    ensures Follows(s, Begin(s, m, p, q).0)
    ensures forall t :: t != m.runId ==> KeepsTicket(s, Begin(s, m, p, q).0, t)
    ensures Begin(s, m, p, q).1.Holding? ==>
              var copy := Begin(s, m, p, q).1.copy;
              && m.hold.key in Begin(s, m, p, q).0.books.holds
              && (copy.status == Reserved ==> copy.window in Begin(s, m, p, q).0.books.windows)
              && copy.status != Released && Ticketed(Begin(s, m, p, q).0, m)
  {
    if Begin(s, m, p, q).1.Holding? {
      ReserveFollows(s.books, m.hold, p);
      var reserved := s.(books := Reserve(s.books, m.hold, RowOf(s.books, m.hold.key), p).0);
      TicketFollows(reserved, m, q);
    }
  }

  /** Others leave the message's own ticket alone. */
  lemma StaysTicketed(s: Store, m: Message, i: nat, others: Others)
    requires Ticketed(s, m) && Respectful(others, m.runId)
    ensures Ticketed(others(i, s), m)
  {
    assert KeepsTicket(s, others(i, s), m.runId);
  }

  lemma RecoverFollows(s: Store, m: Message, g: Generation, problem: Problem, recovers: bool, others: Others)
    requires g.Produced? && Orderly(others) && Ticketed(s, m)
    ensures Follows(s, Recover(s, m, g, problem, recovers, others).0)
    ensures forall t :: t != m.runId && Respectful(others, t) ==>
              KeepsTicket(s, Recover(s, m, g, problem, recovers, others).0, t)
  {
    var row := RowOf(s.books, m.hold.key);
    if row.Some? {
      var mine := GivenUp(s, m, row.value, Some(g.counted));
      GivenUpFollows(s, m, row.value, Some(g.counted));
      assert Follows(mine, others(BEFORE_REREADING, mine));
      forall t | t != m.runId && Respectful(others, t) ensures KeepsTicket(s, others(BEFORE_REREADING, mine), t) {
        assert KeepsTicket(mine, others(BEFORE_REREADING, mine), t);
      }
    }
  }

  lemma ConcludeFollows(s: Store, m: Message, copy: Hold, g: Generation, fault: Fault, recovers: bool, others: Others)
    requires Orderly(others) && Respectful(others, m.runId) && Ticketed(s, m)
    ensures Follows(s, Conclude(s, m, copy, g, fault, recovers, others).0)
    ensures forall t :: t != m.runId && Respectful(others, t) ==>
              KeepsTicket(s, Conclude(s, m, copy, g, fault, recovers, others).0, t)
  {
    if g.Raised? {
      GivenUpFollows(s, m, copy, None);
    } else if Persist(s, m, copy, g, fault).Going? {
      PersistFollows(s, m, copy, g, fault);
    } else {
      var world, problem := others(BEFORE_RECOVERY, s), Persist(s, m, copy, g, fault).problem;
      assert Follows(s, world);
      StaysTicketed(s, m, BEFORE_RECOVERY, others);
      RecoverFollows(world, m, g, problem, recovers, others);
      forall t | t != m.runId && Respectful(others, t)
        ensures KeepsTicket(s, Recover(world, m, g, problem, recovers, others).0, t)
      {
        assert KeepsTicket(s, world, t);
      }
    }
  }

  /**
   A message is itself one of the `others` another message may meet: it deletes nothing, gives back no slots but its own,
   and from a store with at most one run and one event for each request it leads to such a store.
   */
  lemma ExecuteFollows(s: Store, m: Message, p: PeriodKey, q: Slots.Quota, g: Generation, fault: Fault, recovers: bool,
                       others: Others)
    requires Orderly(others) && Respectful(others, m.runId)
    ensures Follows(s, Execute(s, m, p, q, g, fault, recovers, others).0)
    ensures forall t :: t != m.runId && Respectful(others, t) ==>
              KeepsTicket(s, Execute(s, m, p, q, g, fault, recovers, others).0, t)
  {
    BeginFollows(s, m, p, q);
    var (store, begun) := Begin(s, m, p, q);
    if begun.Holding? {
      var found := others(DURING_GENERATION, store);
      assert Follows(store, found);
      StaysTicketed(store, m, DURING_GENERATION, others);
      ConcludeFollows(found, m, begun.copy, g, fault, recovers, others);
      forall t | t != m.runId && Respectful(others, t)
        ensures KeepsTicket(s, Conclude(found, m, begun.copy, g, fault, recovers, others).0, t)
      {
        assert KeepsTicket(store, found, t);
      }
    }
  }

  // ---------- Any number of messages ----------

  datatype Attempt = Attempt(message: Message, period: PeriodKey, generation: Generation, fault: Fault, recovers: bool,
                             others: Others)

  const EMPTY := Store(NEW_BOOKS, map[], [], [], [], [], map[])

  function StoreAfter(q: Slots.Quota, attempts: seq<Attempt>): Store {
    if attempts == [] then EMPTY
    else
      var a := attempts[|attempts| - 1];
      Execute(StoreAfter(q, attempts[..|attempts| - 1]), a.message, a.period, q, a.generation, a.fault, a.recovers, a.others).0
  }

  ghost predicate AllOrderly(attempts: seq<Attempt>) {
    forall i :: 0 <= i < |attempts| ==>
      Orderly(attempts[i].others) && Respectful(attempts[i].others, attempts[i].message.runId)
  }

  /** At most one run and one outbox event for each request, each with the other, after any attempts and faults. */
  lemma {:induction false} EveryStoreIsSound(q: Slots.Quota, attempts: seq<Attempt>)
    requires AllOrderly(attempts)
    ensures Sound(StoreAfter(q, attempts))
  {
    if attempts != [] {
      var a := attempts[|attempts| - 1];
      EveryStoreIsSound(q, attempts[..|attempts| - 1]);
      ExecuteFollows(StoreAfter(q, attempts[..|attempts| - 1]), a.message, a.period, q, a.generation, a.fault, a.recovers, a.others);
    }
  }

  /** The exits of a message that was refused, or answered from an earlier run, before it committed anything. */
  predicate IsRefusal(exit: Exit) {
    exit == HashConflict || exit.Replayed? || exit.NotReserved? || exit == CapacityFull
  }

  // ---------- No hold is left behind ----------

  predicate Failing(s: Store, m: Message, copy: Hold, g: Generation, fault: Fault) {
    g.Raised? || Persist(s, m, copy, g, fault).Stopped?
  }

  /** What the handler of a failed write commits, in the world it finds. */
  function Handled(s: Store, m: Message, g: Generation, others: Others): Store
    requires g.Produced? && m.hold.key in others(BEFORE_RECOVERY, s).books.holds
  {
    var world := others(BEFORE_RECOVERY, s);
    GivenUp(world, m, world.books.holds[m.hold.key], Some(g.counted))
  }

  lemma CompletedIsClosed(s: Store, m: Message, copy: Hold, g: Generation, fault: Fault)
    requires g.Produced? && Persist(s, m, copy, g, fault).Going?
    requires copy.window in s.books.windows && copy.status == Reserved
    ensures !IsReserved(Persist(s, m, copy, g, fault).store.books, m.hold.key)
  {
    PersistWrites(s, m, copy, g, fault);
    FinishFollows(s.books, m.hold.key, copy, FinisherOf(g));
  }

  /** What the handler of a failed write finds: its own row and slots, in a sound store. */
  lemma HandlerFinds(s: Store, m: Message, others: Others)
    requires Orderly(others) && Respectful(others, m.runId) && Sound(s) && Ticketed(s, m) && m.hold.key in s.books.holds
    ensures var world := others(BEFORE_RECOVERY, s);
            && Sound(world) && Ticketed(world, m) && m.hold.key in world.books.holds
            && CanGiveUp(world, m, world.books.holds[m.hold.key])
  {
    var world := others(BEFORE_RECOVERY, s);
    assert Follows(s, world);
    assert m.hold.key in world.books.holds.Keys;
    StaysTicketed(s, m, BEFORE_RECOVERY, others);
  }

  lemma HandledIsClosed(s: Store, m: Message, g: Generation, others: Others)
    requires Orderly(others) && Respectful(others, m.runId) && Sound(s) && Ticketed(s, m) && m.hold.key in s.books.holds
    requires g.Produced? && m.hold.key in others(BEFORE_RECOVERY, s).books.holds
    ensures !IsReserved(Handled(s, m, g, others).books, m.hold.key)
  {
    HandlerFinds(s, m, others);
    var world := others(BEFORE_RECOVERY, s);
    GivenUpFollows(world, m, world.books.holds[m.hold.key], Some(g.counted));
  }

  /** How the handler of a failed write ends, given what it finds. */
  lemma HandlerEnds(s: Store, m: Message, g: Generation, problem: Problem, recovers: bool, others: Others)
    requires g.Produced? && m.hold.key in s.books.holds && CanGiveUp(s, m, s.books.holds[m.hold.key])
    ensures var (s', exit) := Recover(s, m, g, problem, recovers, others);
            var handled := GivenUp(s, m, s.books.holds[m.hold.key], Some(g.counted));
            if !recovers then exit == RecoveryFailed && s' == s
            else (exit.Recovered? || exit == RecoveredConflict || exit == PersistRaised)
                 && (s' == handled || s' == others(BEFORE_REREADING, handled))
  {
  }

  /** How a message ends, given what its handler would find and commit. */
  lemma EndsAre(s: Store, m: Message, copy: Hold, g: Generation, fault: Fault, recovers: bool, others: Others)
    requires m.hold.key in others(BEFORE_RECOVERY, s).books.holds
    requires CanGiveUp(others(BEFORE_RECOVERY, s), m, others(BEFORE_RECOVERY, s).books.holds[m.hold.key])
    ensures var (s', exit) := Conclude(s, m, copy, g, fault, recovers, others);
            && (CanGiveUp(s, m, copy) ==> (exit == RecoveryFailed <==> Failing(s, m, copy, g, fault) && !recovers))
            && (exit == RecoveryFailed ==> s' == s || s' == others(BEFORE_RECOVERY, s))
            && (exit == GenerationRaised ==> s' == GivenUp(s, m, copy, None))
            && (exit.Completed? ==> g.Produced? && Persist(s, m, copy, g, fault) == Going(s'))
            && (exit.Recovered? || exit == RecoveredConflict || exit == PersistRaised ==>
                  && g.Produced?
                  && (s' == Handled(s, m, g, others) || s' == others(BEFORE_REREADING, Handled(s, m, g, others))))
  {
    if g.Produced? {
      match Persist(s, m, copy, g, fault)
      case Going(_) =>
      case Stopped(problem) => HandlerEnds(others(BEFORE_RECOVERY, s), m, g, problem, recovers, others);
    }
  }

  /**
   Once its reservation has committed, a message ends without closing its own hold exactly when something failed and the
   handler's transaction did not commit either. Otherwise the row is closed in the last store the message commits, which
   is the store it ends in unless it reads again what others have committed since.
   */
  lemma NoHoldIsLeft(s: Store, m: Message, copy: Hold, g: Generation, fault: Fault, recovers: bool, others: Others)
    requires Orderly(others) && Respectful(others, m.runId) && Sound(s) && Ticketed(s, m)
    requires m.hold.key in s.books.holds && copy.window in s.books.windows && copy.status == Reserved
    ensures m.hold.key in others(BEFORE_RECOVERY, s).books.holds
    ensures var (s', exit) := Conclude(s, m, copy, g, fault, recovers, others);
            && (exit == RecoveryFailed <==> Failing(s, m, copy, g, fault) && !recovers)
            && (exit.Completed? || exit == GenerationRaised ==> !IsReserved(s'.books, m.hold.key))
            && (exit.Recovered? || exit == RecoveredConflict || exit == PersistRaised ==>
                  && g.Produced? && !IsReserved(Handled(s, m, g, others).books, m.hold.key)
                  && (s' == Handled(s, m, g, others) || s' == others(BEFORE_REREADING, Handled(s, m, g, others))))
  {
    HandlerFinds(s, m, others);
    EndsAre(s, m, copy, g, fault, recovers, others);
    GivenUpFollows(s, m, copy, None);
    if g.Produced? {
      HandledIsClosed(s, m, g, others);
      if Persist(s, m, copy, g, fault).Going? {
        CompletedIsClosed(s, m, copy, g, fault);
      }
    }
  }

  /** From the start: the copy a message holds is always such a copy, or of a hold settled earlier. */
  lemma ReservedMessagesEndClosed(s: Store, m: Message, p: PeriodKey, q: Slots.Quota, g: Generation, fault: Fault,
                                  recovers: bool, others: Others)
    requires Orderly(others) && Respectful(others, m.runId) && Sound(s)
    requires Begin(s, m, p, q).1.Holding? && Begin(s, m, p, q).1.copy.status == Reserved
    ensures var found := Found(s, m, p, q, others);
            m.hold.key in others(BEFORE_RECOVERY, found).books.holds
    ensures var (s', exit) := Execute(s, m, p, q, g, fault, recovers, others);
            var found := Found(s, m, p, q, others);
            && (exit == RecoveryFailed <==> Failing(found, m, Begin(s, m, p, q).1.copy, g, fault) && !recovers)
            && (exit.Completed? || exit == GenerationRaised ==> !IsReserved(s'.books, m.hold.key))
            && (exit.Recovered? || exit == RecoveredConflict || exit == PersistRaised ==>
                  && g.Produced? && !IsReserved(Handled(found, m, g, others).books, m.hold.key)
                  && (s' == Handled(found, m, g, others) || s' == others(BEFORE_REREADING, Handled(found, m, g, others))))
  {
    FoundIsReady(s, m, p, q, others);
    NoHoldIsLeft(Found(s, m, p, q, others), m, Begin(s, m, p, q).1.copy, g, fault, recovers, others);
  }

  /** What a message that reserved finds when its reply is there. */
  lemma FoundIsReady(s: Store, m: Message, p: PeriodKey, q: Slots.Quota, others: Others)
    requires Orderly(others) && Respectful(others, m.runId) && Sound(s) && Begin(s, m, p, q).1.Holding?
    ensures var found, copy := Found(s, m, p, q, others), Begin(s, m, p, q).1.copy;
            && Sound(found) && Ticketed(found, m) && m.hold.key in found.books.holds
            && (copy.status == Reserved ==> copy.window in found.books.windows)
  {
    BeginFollows(s, m, p, q);
    var store, found := Begin(s, m, p, q).0, Found(s, m, p, q, others);
    assert Follows(store, found);
    StaysTicketed(store, m, DURING_GENERATION, others);
    assert m.hold.key in found.books.holds.Keys;
    assert Begin(s, m, p, q).1.copy.status == Reserved ==> Begin(s, m, p, q).1.copy.window in found.books.windows.Keys;
  }

  // ---------- All or nothing ----------

  predicate SameRecords(s: Store, t: Store) {
    s.runs == t.runs && s.outbox == t.outbox && s.tasks == t.tasks && s.routed == t.routed
  }

  /** The end of the hold that a generation asks for, and the slots it leaves unused. */
  predicate Concluded(s: Store, s': Store, m: Message, copy: Hold, g: Generation)
    requires g.Produced?
  {
    && s'.runs == s.runs + [m.NewRun(g.payload)]
    && s'.outbox == s.outbox + [m.NewEvent(g.payload)]
    && s'.tasks == s.tasks + (if g.createsTask then [(m.Account(), m.Request())] else [])
    && s'.books == Finish(s.books, m.hold.key, copy, FinisherOf(g))
    && s'.usage == SlotsBack(s, m, g.counted).usage
  }

  /** A completed message wrote everything in one commit; any other wrote no run, event, task or evidence at all. */
  lemma AllOrNothing(s: Store, m: Message, copy: Hold, g: Generation, fault: Fault, recovers: bool, others: Others)
    ensures var (s', exit) := Conclude(s, m, copy, g, fault, recovers, others);
            if exit.Completed? then g.Produced? && Concluded(s, s', m, copy, g) && exit.run == m.NewRun(g.payload)
            else
              || SameRecords(s, s')
              || SameRecords(others(BEFORE_RECOVERY, s), s')
              || exists mine :: SameRecords(others(BEFORE_RECOVERY, s), mine) && s' == others(BEFORE_REREADING, mine)
  {
    if g.Produced? {
      if Persist(s, m, copy, g, fault).Going? {
        PersistWrites(s, m, copy, g, fault);
      } else {
        var world := others(BEFORE_RECOVERY, s);
        var row := RowOf(world.books, m.hold.key);
        if row.Some? {
          assert SameRecords(world, GivenUp(world, m, row.value, Some(g.counted)));
        }
      }
    }
  }

  /** Such a message changes nothing; every other one has reserved, and leaves the row of its hold behind. */
  lemma RefusalsChangeNothing(s: Store, m: Message, p: PeriodKey, q: Slots.Quota, g: Generation, fault: Fault,
                              recovers: bool, others: Others)
    requires Orderly(others) && Respectful(others, m.runId)
    ensures var (s', exit) := Execute(s, m, p, q, g, fault, recovers, others);
            && (IsRefusal(exit) ==> s' == s)
            && (!IsRefusal(exit) ==> m.hold.key in s'.books.holds)
  {
    BeginFollows(s, m, p, q);
    var (store, begun) := Begin(s, m, p, q);
    if begun.Holding? {
      var found := others(DURING_GENERATION, store);
      assert Follows(store, found);
      assert m.hold.key in found.books.holds.Keys;
      StaysTicketed(store, m, DURING_GENERATION, others);
      ReservedRowStays(found, m, begun.copy, g, fault, recovers, others);
    }
  }

  lemma ReservedRowStays(s: Store, m: Message, copy: Hold, g: Generation, fault: Fault, recovers: bool, others: Others)
    requires Orderly(others) && Respectful(others, m.runId) && Ticketed(s, m) && m.hold.key in s.books.holds
    ensures m.hold.key in Conclude(s, m, copy, g, fault, recovers, others).0.books.holds
    ensures !IsRefusal(Conclude(s, m, copy, g, fault, recovers, others).1)
  {
    ConcludeFollows(s, m, copy, g, fault, recovers, others);
    assert m.hold.key in Conclude(s, m, copy, g, fault, recovers, others).0.books.holds.Keys;
  }

  // ---------- Request slots ----------

  /** The requests made: all that were counted, or any number up to the maximum when generating raised. */
  predicate MayHaveMade(g: Generation, made: nat) {
    made <= Gateway.MAX_ATTEMPTS && (g.Produced? ==> made == g.counted)
  }

  /** The slots a live message leaves in use. */
  function Kept(exit: Exit, made: nat): nat {
    if exit == GenerationRaised || exit == RecoveryFailed then Gateway.MAX_ATTEMPTS else made
  }

  lemma SlotsBackExactly(s: Store, m: Message, counted: nat)
    requires m.live && Sound(s) && Ticketed(s, m) && counted <= Gateway.MAX_ATTEMPTS
    ensures Slots.UsedOn(SlotsBack(s, m, counted).usage, m.Day())
         == Slots.UsedOn(s.usage, m.Day()) - (Gateway.MAX_ATTEMPTS - counted)
  {
    TicketIsCounted(s.usage, s.holding, m.runId);
  }

  /**
   A live message keeps at least as many slots as it made requests, and exactly as many unless generating itself raised
   or nothing could be committed any more.
   */
  lemma SlotsKept(s: Store, m: Message, copy: Hold, g: Generation, fault: Fault, recovers: bool, others: Others, made: nat)
    requires m.live && Sound(s) && Ticketed(s, m) && Orderly(others) && Respectful(others, m.runId)
    requires m.hold.key in s.books.holds && MayHaveMade(g, made)
    ensures m.hold.key in others(BEFORE_RECOVERY, s).books.holds
    ensures var (s', exit) := Conclude(s, m, copy, g, fault, recovers, others);
            var world, unused := others(BEFORE_RECOVERY, s), Gateway.MAX_ATTEMPTS - Kept(exit, made);
            && Kept(exit, made) >= made && (exit != RecoveryFailed && exit != GenerationRaised ==> Kept(exit, made) == made)
            && (exit.Completed? || exit == GenerationRaised ==>
                  Slots.UsedOn(s'.usage, m.Day()) == Slots.UsedOn(s.usage, m.Day()) - unused)
            && (exit == RecoveryFailed ==> s' == s || s' == world)
            && (exit.Recovered? || exit == RecoveredConflict || exit == PersistRaised ==>
                  && g.Produced?
                  && Slots.UsedOn(Handled(s, m, g, others).usage, m.Day()) == Slots.UsedOn(world.usage, m.Day()) - unused
                  && (s' == Handled(s, m, g, others) || s' == others(BEFORE_REREADING, Handled(s, m, g, others))))
  {
    HandlerFinds(s, m, others);
    EndsAre(s, m, copy, g, fault, recovers, others);
    if g.Produced? {
      SlotsBackExactly(s, m, g.counted);
      HandledSlots(s, m, g, others);
      if Persist(s, m, copy, g, fault).Going? {
        PersistWrites(s, m, copy, g, fault);
      }
    }
  }

  lemma HandledSlots(s: Store, m: Message, g: Generation, others: Others)
    requires m.live && g.Produced? && g.counted <= Gateway.MAX_ATTEMPTS && m.hold.key in others(BEFORE_RECOVERY, s).books.holds
    requires Sound(others(BEFORE_RECOVERY, s)) && Ticketed(others(BEFORE_RECOVERY, s), m)
    ensures Slots.UsedOn(Handled(s, m, g, others).usage, m.Day())
         == Slots.UsedOn(others(BEFORE_RECOVERY, s).usage, m.Day()) - (Gateway.MAX_ATTEMPTS - g.counted)
  {
    var world := others(BEFORE_RECOVERY, s);
    TicketIsCounted(world.usage, world.holding, m.runId);
  }

  /** From the start, for a message whose reply was counted. */
  lemma CountedMessagesKeep(s: Store, m: Message, p: PeriodKey, q: Slots.Quota, g: Generation, fault: Fault,
                            recovers: bool, others: Others)
    requires m.live && Sound(s) && Orderly(others) && Respectful(others, m.runId)
    requires Begin(s, m, p, q).1.Holding? && g.Produced? && g.counted <= Gateway.MAX_ATTEMPTS
    ensures var (s', exit) := Execute(s, m, p, q, g, fault, recovers, others);
            KeepsExactly(Found(s, m, p, q, others), s', exit, m, g, others, g.counted)
  {
    FoundIsReady(s, m, p, q, others);
    SlotsKept(Found(s, m, p, q, others), m, Begin(s, m, p, q).1.copy, g, fault, recovers, others, g.counted);
  }

  /** The day counts `made` slots for the message in the last store it commits. */
  ghost predicate KeepsExactly(found: Store, s': Store, exit: Exit, m: Message, g: Generation, others: Others, made: nat)
    requires g.Produced?
  {
    && (exit.Completed? ==>
          Slots.UsedOn(s'.usage, m.Day()) == Slots.UsedOn(found.usage, m.Day()) - (Gateway.MAX_ATTEMPTS - made))
    && (exit == PersistRaised || exit.Recovered? || exit == RecoveredConflict ==>
          && m.hold.key in others(BEFORE_RECOVERY, found).books.holds
          && Slots.UsedOn(Handled(found, m, g, others).usage, m.Day())
             == Slots.UsedOn(others(BEFORE_RECOVERY, found).usage, m.Day()) - (Gateway.MAX_ATTEMPTS - made))
  }

  /**
   With the calls of the gateway's own reply. The requests a live message makes are those its reply counts, and never more
   than the slots it took, so what it leaves in use is exactly what it made unless generating or the handler failed.
   */
  lemma LiveMessagesKeepWhatTheyMade(s: Store, m: Message, p: PeriodKey, q: Slots.Quota, g: Generation, fault: Fault,
                                     recovers: bool, others: Others, question: Slots.Question)
    requires m.live && Sound(s) && Orderly(others) && Respectful(others, m.runId)
    requires Begin(s, m, p, q).1.Holding?
    requires Slots.FromLoadedRegistry(question) && g.Produced? && g.counted == Slots.RequestsMade(question.Calls())
    ensures var (s', exit) := Execute(s, m, p, q, g, fault, recovers, others);
            KeepsExactly(Found(s, m, p, q, others), s', exit, m, g, others, |question.Calls()|)
  {
    Slots.EveryRequestIsCounted(question);
    CountedMessagesKeep(s, m, p, q, g, fault, recovers, others);
  }

  // ---------- Each request is answered once ----------

  lemma {:induction false} FindsIt(runs: seq<Run>, run: Run)
    requires run in runs && UniqueRuns(runs)
    ensures FindRun(runs, run.account, run.request) == Some(run)
  {
    if runs[0] != run {
      var i :| 0 <= i < |runs| && runs[i] == run;
      assert !Answers(runs[i], runs[0].account, runs[0].request);
      assert runs[1..][i - 1] == run;
      FindsIt(runs[1..], run);
    }
  }

  /** Once a request has a run, sending it again replays that run, or is refused if its text differs; nothing changes. */
  lemma RepliesAreReplayed(s: Store, s': Store, run: Run, again: Message, p: PeriodKey, q: Slots.Quota, g: Generation,
                           fault: Fault, recovers: bool, others: Others)
    requires Sound(s) && run in s.runs && Follows(s, s')
    requires Answers(run, again.Account(), again.Request())
    ensures Execute(s', again, p, q, g, fault, recovers, others)
         == (s', if run.hash.Some? && run.hash.value != again.hash then HashConflict else Replayed(run))
  {
    FindsIt(s'.runs, run);
  }

  /** A completed message's reply is what every later message with its key and text gets. */
  lemma CompletedThenReplayed(s: Store, m: Message, p: PeriodKey, q: Slots.Quota, g: Generation, fault: Fault,
                              recovers: bool, others: Others, later: Store, again: Message, p': PeriodKey, g': Generation,
                              fault': Fault, recovers': bool, others': Others)
    requires Orderly(others) && Respectful(others, m.runId) && Sound(s)
    requires Execute(s, m, p, q, g, fault, recovers, others).1.Completed?
    requires Follows(Execute(s, m, p, q, g, fault, recovers, others).0, later)
    requires again.Account() == m.Account() && again.Request() == m.Request() && again.hash == m.hash
    ensures Execute(later, again, p', q, g', fault', recovers', others')
         == (later, Replayed(Execute(s, m, p, q, g, fault, recovers, others).1.run))
  {
    var (s', exit) := Execute(s, m, p, q, g, fault, recovers, others);
    ExecuteFollows(s, m, p, q, g, fault, recovers, others);
    var found := Found(s, m, p, q, others);
    AllOrNothing(found, m, Begin(s, m, p, q).1.copy, g, fault, recovers, others);
    assert s'.runs[|found.runs|] == exit.run;
    RepliesAreReplayed(s', later, exit.run, again, p', q, g', fault', recovers', others');
  }

  /**
   The loser of a race: a run for the request appeared while this message was generating. It writes nothing of its own
   and, when its handler commits, answers with the winner's run or reports that the texts differ.
   */
  lemma LoserGetsTheWinnersRun(s: Store, m: Message, copy: Hold, g: Generation, recovers: bool, others: Others, winner: Run)
    requires Orderly(others) && Respectful(others, m.runId) && Sound(s) && Ticketed(s, m) && m.hold.key in s.books.holds
    requires winner in s.runs && Answers(winner, m.Account(), m.Request())
    requires g.Produced?
    ensures var exit := Conclude(s, m, copy, g, NoFault, recovers, others).1;
            exit == if !recovers then RecoveryFailed
                    else if winner.hash.Some? && winner.hash.value != m.hash then RecoveredConflict
                    else Recovered(winner)
  {
    assert RunTaken(s.runs, m) by {
      var i :| 0 <= i < |s.runs| && s.runs[i] == winner;
    }
    assert Persist(s, m, copy, g, NoFault) == Stopped(IntegrityError);
    var world := others(BEFORE_RECOVERY, s);
    assert Follows(s, world);
    HandlerFinds(s, m, others);
    var mine := Handled(s, m, g, others);
    GivenUpFollows(world, m, world.books.holds[m.hold.key], Some(g.counted));
    RereadFinds(mine, others(BEFORE_REREADING, mine), m, winner, others);
  }

  lemma RereadFinds(s: Store, later: Store, m: Message, run: Run, others: Others)
    requires Orderly(others) && later == others(BEFORE_REREADING, s) && Sound(s)
    requires run in s.runs && Answers(run, m.Account(), m.Request())
    ensures Reread(later, m) == if Differs(run, m) then RecoveredConflict else Recovered(run)
  {
    assert Follows(s, later);
    FindsIt(later.runs, run);
  }
}
