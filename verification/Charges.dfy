/**
 What a message costs and what it leaves behind, said in rows and counters: no finisher and none of the message's own
 steps appear in what is promised here.
 */
module Charges {
  import opened Options
  import opened Calendar
  import opened Budget
  import opened Conservation
  import opened Message
  import Steps = Message
  import opened ExactlyOnce
  import Admission
  import Gateway
  import Slots

  /** What moves into `settled`: money and tokens. */
  datatype Charge = Charge(micro: nat, tokens: nat)

  const NO_CHARGE := Charge(0, 0)

  function ChargeOn(copy: Hold, charge: Charge, c: Counter): nat {
    if !DrawsOn(copy, c) then 0 else if c.Tokens? then charge.tokens else charge.micro
  }

  predicate CounterEnds(b: Books, b': Books, copy: Hold, charge: Charge, c: Counter)
    requires Has(b, c)
  {
    && Has(b', c) && LimitOf(b', c) == LimitOf(b, c)
    && ReservedOf(b', c) == ReservedOf(b, c) - Amount(copy, c)
    && SettledOf(b', c) == SettledOf(b, c) + ChargeOn(copy, charge, c)
  }

  predicate UsesEnd(b: Books, b': Books, copy: Hold, usesBack: nat, w: WindowKey)
    requires w in b.windows
  {
    && w in b'.windows
    && b'.windows[w].everydayUsed == b.windows[w].everydayUsed - (if w == copy.window then usesBack else 0)
  }

  /**
   The row of a hold has been closed: its amounts have left `reserved` on every counter it draws on, the charge has gone to
   `settled` there, the uses have come back, and no other counter and no other row has changed.
   */
  ghost predicate HoldEnds(b: Books, b': Books, key: HoldKey, copy: Hold, status: Status, actual: Option<nat>,
                           charge: Charge, usesBack: nat)
    requires key in b.holds
  {
    && b'.holds == b.holds[key := b.holds[key].(status := status, actual := actual)]
    && (forall c :: Has(b, c) ==> CounterEnds(b, b', copy, charge, c))
    && (forall w :: w in b.windows ==> UsesEnd(b, b', copy, usesBack, w))
  }

  lemma SettlingEnds(b: Books, key: HoldKey, copy: Hold, actual: Option<nat>, actualTokens: Option<nat>)
    requires IsReserved(b, key) && copy.status == Reserved && copy.window in b.windows
    ensures HoldEnds(b, Finish(b, key, copy, Settle(actual, actualTokens)), key, copy,
                     if actual.Some? then Settled else Unknown, actual,
                     Charge(if actual.Some? then actual.value else copy.micro,
                            if actualTokens.Some? then actualTokens.value else copy.tokens), 0)
  {
    var f := Settle(actual, actualTokens);
    forall c | Has(b, c)
      ensures CounterEnds(b, Finish(b, key, copy, f), copy, Charge(Or(actual, copy.micro), Or(actualTokens, copy.tokens)), c)
    {
      FinishMoves(b, key, copy, f, c);
    }
  }

  lemma ReleasingEnds(b: Books, key: HoldKey, copy: Hold)
    requires IsReserved(b, key) && copy.window in b.windows
    ensures HoldEnds(b, Finish(b, key, copy, Release), key, copy, Released, b.holds[key].actual, NO_CHARGE, 1)
  {
    forall c | Has(b, c) ensures CounterEnds(b, Finish(b, key, copy, Release), copy, NO_CHARGE, c) {
      FinishMoves(b, key, copy, Release, c);
    }
  }

  // ---------- What a completed message is charged ----------

  /** The tokens the reply used, or those the hold was taken for when no provider reported any. */
  function TokensOf(g: Generation, copy: Hold): nat
    requires g.Produced?
  {
    if g.actualTokens.Some? then g.actualTokens.value else copy.tokens
  }

  /** What completing does to the books, by what the reply measured. */
  ghost predicate ChargedFor(b: Books, b': Books, key: HoldKey, copy: Hold, g: Generation)
    requires g.Produced? && key in b.holds
  {
    if b.holds[key].status != Reserved || (!g.release && copy.status != Reserved) then
      b' == b
    else if g.release then
      HoldEnds(b, b', key, copy, Released, b.holds[key].actual, NO_CHARGE, 1)
    else if g.actual.Some? then
      HoldEnds(b, b', key, copy, Settled, Some(g.actual.value), Charge(g.actual.value, TokensOf(g, copy)), 0)
    else
      HoldEnds(b, b', key, copy, Unknown, None, Charge(copy.micro, TokensOf(g, copy)), 0)
  }

  /**
   A completed message without a usable reply gets its whole hold and its use back; with a measured cost it is charged
   exactly that, and with none the estimate, as unknown. A row already closed is left as it is.
   */
  lemma CompletedIsCharged(s: Store, m: Message, copy: Hold, g: Generation, fault: Fault, recovers: bool, others: Others)
    requires Conclude(s, m, copy, g, fault, recovers, others).1.Completed?
    requires m.hold.key in s.books.holds
    ensures g.Produced?
    ensures ChargedFor(s.books, Conclude(s, m, copy, g, fault, recovers, others).0.books, m.hold.key, copy, g)
  {
    AllOrNothing(s, m, copy, g, fault, recovers, others);
    PersistWrites(s, m, copy, g, fault);
    if IsReserved(s.books, m.hold.key) && copy.window in s.books.windows {
      ReleasingEnds(s.books, m.hold.key, copy);
      if copy.status == Reserved {
        SettlingEnds(s.books, m.hold.key, copy, g.actual, g.actualTokens);
      }
    }
  }

  /** A hold given back: nothing is charged and one use returns. A row already closed is left as it is. */
  ghost predicate GivenBack(b: Books, b': Books, key: HoldKey, copy: Hold)
    requires key in b.holds
  {
    if b.holds[key].status != Reserved then b' == b
    else HoldEnds(b, b', key, copy, Released, b.holds[key].actual, NO_CHARGE, 1)
  }

  lemma ReleasingGivesBack(b: Books, key: HoldKey, copy: Hold)
    requires key in b.holds && (b.holds[key].status == Reserved ==> copy.window in b.windows)
    ensures GivenBack(b, Finish(b, key, copy, Release), key, copy)
  {
    if b.holds[key].status == Reserved {
      ReleasingEnds(b, key, copy);
    }
  }

  /** When generating raises, the handler that commits charges nothing. */
  lemma RaisingIsFree(s: Store, m: Message, copy: Hold, fault: Fault, recovers: bool, others: Others)
    requires m.hold.key in s.books.holds
    ensures var (s', exit) := Conclude(s, m, copy, Raised, fault, recovers, others);
            if exit == GenerationRaised then SameRecords(s, s') && GivenBack(s.books, s'.books, m.hold.key, copy)
            else exit == RecoveryFailed && s' == s
  {
    if CanGiveUp(s, m, copy) {
      ReleasingGivesBack(s.books, m.hold.key, copy);
    }
  }

  /** When the write fails, the handler that commits charges nothing either, in the world it finds. */
  lemma FailureIsFree(s: Store, m: Message, copy: Hold, g: Generation, fault: Fault, recovers: bool, others: Others)
    requires Orderly(others) && Respectful(others, m.runId) && Sound(s) && Ticketed(s, m) && m.hold.key in s.books.holds
    requires g.Produced?
    ensures m.hold.key in others(BEFORE_RECOVERY, s).books.holds
    ensures var (s', exit) := Conclude(s, m, copy, g, fault, recovers, others);
            var world := others(BEFORE_RECOVERY, s);
            exit.Recovered? || exit == RecoveredConflict || exit == PersistRaised ==>
              exists handled: Store ::
                && SameRecords(world, handled)
                && GivenBack(world.books, handled.books, m.hold.key, world.books.holds[m.hold.key])
                && (s' == handled || s' == others(BEFORE_REREADING, handled))
  {
    HandlerFinds(s, m, others);
    EndsAre(s, m, copy, g, fault, recovers, others);
    var world, handled := others(BEFORE_RECOVERY, s), Handled(s, m, g, others);
    assert SameRecords(world, handled);
    ReleasingGivesBack(world.books, m.hold.key, world.books.holds[m.hold.key]);
    assert GivenBack(world.books, handled.books, m.hold.key, world.books.holds[m.hold.key]);
  }

  // ---------- What a completed message records ----------

  /** The run answers this account's request with this text and reply; the event and the evidence are those of the run. */
  lemma CompletedIsRecorded(s: Store, m: Message, copy: Hold, g: Generation, fault: Fault, recovers: bool, others: Others)
    requires Conclude(s, m, copy, g, fault, recovers, others).1.Completed?
    ensures var (s', exit) := Conclude(s, m, copy, g, fault, recovers, others);
            var account, request := m.hold.key.account, m.hold.key.request;
            && g.Produced?
            && exit.run == Run(account, request, Some(m.hash), m.runId, g.payload)
            && s'.runs == s.runs + [exit.run]
            && s'.outbox == s.outbox + [Event(account, request, m.runId, g.payload)]
            && s'.tasks == s.tasks + (if g.createsTask then [(account, request)] else [])
            && s'.routed == s.routed + [m.runId]
  {
    EvidenceIsRecorded(s, m, g, fault);
    AllOrNothing(s, m, copy, g, fault, recovers, others);
  }

  lemma EvidenceIsRecorded(s: Store, m: Message, g: Generation, fault: Fault)
    requires g.Produced?
    ensures Recording(s, m, g, fault).Going? ==> Recording(s, m, g, fault).store.routed == s.routed + [m.runId]
  {
  }

  // ---------- When a message completes ----------

  /** No constraint of the second transaction is violated. */
  predicate Unobstructed(s: Store, m: Message, copy: Hold, g: Generation)
    requires g.Produced?
  {
    var account, request := m.hold.key.account, m.hold.key.request;
    && (g.createsTask ==> (account, request) !in s.tasks)
    && (forall run :: run in s.runs ==> run.id != m.runId && !(run.account == account && run.request == request))
    && (forall e :: e in s.outbox ==> !(e.account == account && e.request == request))
    && m.runId !in s.routed
    && (m.hold.key in s.books.holds && s.books.holds[m.hold.key].status == Reserved && (g.release || copy.status == Reserved)
        ==> copy.window in s.books.windows)
  }

  predicate Quiet(fault: Fault) {
    fault.NoFault? || fault.problem == NoProblem
  }

  lemma TakenMeans(s: Store, m: Message)
    ensures RunTaken(s.runs, m)
       <==> !forall run :: run in s.runs ==>
              run.id != m.runId && !(run.account == m.hold.key.account && run.request == m.hold.key.request)
    ensures EventTaken(s.outbox, m)
       <==> !forall e :: e in s.outbox ==> !(e.account == m.hold.key.account && e.request == m.hold.key.request)
  {
    if RunTaken(s.runs, m) {
      var i :| 0 <= i < |s.runs| && (Answers(s.runs[i], m.Account(), m.Request()) || s.runs[i].id == m.runId);
      assert s.runs[i] in s.runs;
    }
    if EventTaken(s.outbox, m) {
      var i :| 0 <= i < |s.outbox| && Tells(s.outbox[i], m.Account(), m.Request());
      assert s.outbox[i] in s.outbox;
    }
  }

  predicate RecordsUnobstructed(s: Store, m: Message, g: Generation)
    requires g.Produced?
  {
    && (g.createsTask ==> (m.Account(), m.Request()) !in s.tasks)
    && !RunTaken(s.runs, m) && !EventTaken(s.outbox, m) && m.runId !in s.routed
  }

  predicate Raises(fault: Fault, step: Steps.Step) {
    fault.At(step) != NoProblem
  }

  lemma RecordingIff(s: Store, m: Message, g: Generation, fault: Fault)
    requires g.Produced?
    ensures Recording(s, m, g, fault).Going? <==>
              && RecordsUnobstructed(s, m, g) && !Raises(fault, ApplyIntent) && !Raises(fault, InsertRun)
              && !Raises(fault, InsertEvent) && !Raises(fault, RecordEvidence)
    ensures RecordsUnobstructed(s, m, g) && !Recording(s, m, g, fault).Going? ==>
              Recording(s, m, g, fault) == Stopped(fault.problem)
    ensures Recording(s, m, g, fault).Going? ==> Recording(s, m, g, fault).store.books == s.books
  {
  }

  /** The end of the hold finds the window it counts on, if it has anything to do. */
  predicate EndUnobstructed(s: Store, m: Message, copy: Hold, g: Generation)
    requires g.Produced?
  {
    IsReserved(s.books, m.hold.key) && (g.release || copy.status == Reserved) ==> copy.window in s.books.windows
  }

  lemma EndingIff(s: Store, m: Message, copy: Hold, g: Generation, fault: Fault)
    requires g.Produced?
    ensures Ending(s, m, copy, g, fault).Going? <==>
              && EndUnobstructed(s, m, copy, g) && !Raises(fault, ReturnSlots) && !Raises(fault, EndHold)
              && !Raises(fault, Steps.Step.Commit)
    ensures EndUnobstructed(s, m, copy, g) && !Ending(s, m, copy, g, fault).Going? ==>
              Ending(s, m, copy, g, fault) == Stopped(fault.problem)
  {
  }

  lemma PersistsIff(s: Store, m: Message, copy: Hold, g: Generation, fault: Fault)
    requires g.Produced?
    ensures Persist(s, m, copy, g, fault).Going? <==> Unobstructed(s, m, copy, g) && Quiet(fault)
    ensures Unobstructed(s, m, copy, g) && !Quiet(fault) ==> Persist(s, m, copy, g, fault) == Stopped(fault.problem)
  {
    TakenMeans(s, m);
    assert Unobstructed(s, m, copy, g) <==> RecordsUnobstructed(s, m, g) && EndUnobstructed(s, m, copy, g);
    RecordingIff(s, m, g, fault);
    var recorded := Recording(s, m, g, fault);
    if recorded.Going? {
      EndingIff(recorded.store, m, copy, g, fault);
    }
    StepsAreAll(fault);
  }

  /** A fault is raised at one of the seven steps. */
  lemma StepsAreAll(fault: Fault)
    ensures Quiet(fault) <==>
              && !Raises(fault, ApplyIntent) && !Raises(fault, InsertRun) && !Raises(fault, InsertEvent)
              && !Raises(fault, RecordEvidence) && !Raises(fault, ReturnSlots) && !Raises(fault, EndHold)
              && !Raises(fault, Steps.Step.Commit)
  {
  }

  /**
   No fault is swallowed and no constraint ignored: a message completes exactly when its reply was produced, nothing was
   raised and nothing was violated. Otherwise what was raised decides how it ends.
   */
  lemma CompletesIff(s: Store, m: Message, copy: Hold, g: Generation, fault: Fault, recovers: bool, others: Others)
    ensures var exit := Conclude(s, m, copy, g, fault, recovers, others).1;
            && (exit.Completed? <==> g.Produced? && Unobstructed(s, m, copy, g) && Quiet(fault))
            && (g.Raised? ==> exit == GenerationRaised || exit == RecoveryFailed)
            && (g.Produced? && !exit.Completed? ==>
                  exit.Recovered? || exit == RecoveredConflict || exit == PersistRaised || exit == RecoveryFailed)
            && (!recovers && !exit.Completed? ==> exit == RecoveryFailed)
            && (g.Produced? && Unobstructed(s, m, copy, g) && !Quiet(fault) && fault.problem == OtherError ==>
                  exit == PersistRaised || exit == RecoveryFailed)
  {
    if g.Produced? {
      PersistsIff(s, m, copy, g, fault);
    }
  }

  /** Sending a completed request again replays its run, or is refused when its text differs. */
  lemma SentAgain(s: Store, m: Message, p: PeriodKey, q: Slots.Quota, g: Generation, fault: Fault, recovers: bool,
                  others: Others, later: Store, again: Message, p': PeriodKey, g': Generation, fault': Fault,
                  recovers': bool, others': Others)
    requires Orderly(others) && Respectful(others, m.runId) && Sound(s)
    requires Execute(s, m, p, q, g, fault, recovers, others).1.Completed?
    requires Follows(Execute(s, m, p, q, g, fault, recovers, others).0, later)
    requires again.hold.key.account == m.hold.key.account && again.hold.key.request == m.hold.key.request
    ensures var (store, exit) := Execute(later, again, p', q, g', fault', recovers', others');
            && store == later
            && exit == if again.hash != m.hash then HashConflict
                       else Replayed(Execute(s, m, p, q, g, fault, recovers, others).1.run)
  {
    var (s', exit) := Execute(s, m, p, q, g, fault, recovers, others);
    ExecuteFollows(s, m, p, q, g, fault, recovers, others);
    var found := Found(s, m, p, q, others);
    CompletedIsRecorded(found, m, Begin(s, m, p, q).1.copy, g, fault, recovers, others);
    assert s'.runs[|found.runs|] == exit.run;
    RepliesAreReplayed(s', later, exit.run, again, p', q, g', fault', recovers', others');
  }

  /** The run answers this message's request. */
  predicate IsFor(run: Run, m: Message) {
    run.account == m.hold.key.account && run.request == m.hold.key.request
  }

  /** The run was made for another text than this message's; runs that recorded no text are for any. */
  predicate IsForAnotherText(run: Run, m: Message) {
    run.hash.Some? && run.hash.value != m.hash
  }

  lemma {:induction false} FoundIsARun(runs: seq<Run>, m: Message)
    ensures var found := FindRun(runs, m.Account(), m.Request());
            if found.Some? then found.value in runs && IsFor(found.value, m) else forall run :: run in runs ==> !IsFor(run, m)
  {
    if runs != [] {
      FoundIsARun(runs[1..], m);
      assert runs == [runs[0]] + runs[1..];
    }
  }

  /**
   Whatever a message is answered with from the store is a committed run of its own request and text, and it is told of a
   conflict only when a committed run of its request has another text.
   */
  lemma AnswersAreCommittedRuns(s: Store, m: Message, p: PeriodKey, q: Slots.Quota, g: Generation, fault: Fault,
                                recovers: bool, others: Others)
    ensures var (s', exit) := Execute(s, m, p, q, g, fault, recovers, others);
            && (exit.Replayed? || exit.Recovered? ==>
                  exit.run in s'.runs && IsFor(exit.run, m) && !IsForAnotherText(exit.run, m))
            && (exit == HashConflict || exit == RecoveredConflict ==>
                  exists run :: run in s'.runs && IsFor(run, m) && IsForAnotherText(run, m))
            && (exit == HashConflict || exit.Replayed? <==> exists run :: run in s.runs && IsFor(run, m))
  {
    FoundIsARun(s.runs, m);
    if Begin(s, m, p, q).1.Holding? {
      ConcludingAnswers(Found(s, m, p, q, others), m, Begin(s, m, p, q).1.copy, g, fault, recovers, others);
    }
  }

  lemma ConcludingAnswers(s: Store, m: Message, copy: Hold, g: Generation, fault: Fault, recovers: bool, others: Others)
    ensures var (s', exit) := Conclude(s, m, copy, g, fault, recovers, others);
            && exit != HashConflict && !exit.Replayed?
            && (exit.Recovered? ==> exit.run in s'.runs && IsFor(exit.run, m) && !IsForAnotherText(exit.run, m))
            && (exit == RecoveredConflict ==> exists run :: run in s'.runs && IsFor(run, m) && IsForAnotherText(run, m))
  {
    if g.Produced? && Persist(s, m, copy, g, fault).Stopped? {
      RecoveringAnswers(others(BEFORE_RECOVERY, s), m, g, Persist(s, m, copy, g, fault).problem, recovers, others);
    }
  }

  lemma RecoveringAnswers(s: Store, m: Message, g: Generation, problem: Problem, recovers: bool, others: Others)
    requires g.Produced?
    ensures var (s', exit) := Recover(s, m, g, problem, recovers, others);
            && exit != HashConflict && !exit.Replayed?
            && (exit.Recovered? ==> exit.run in s'.runs && IsFor(exit.run, m) && !IsForAnotherText(exit.run, m))
            && (exit == RecoveredConflict ==> exists run :: run in s'.runs && IsFor(run, m) && IsForAnotherText(run, m))
  {
    FoundIsARun(Recover(s, m, g, problem, recovers, others).0.runs, m);
  }

  // ---------- When a message is let in ----------

  /** The provider requests a plan may bring a day to. */
  function DailyRequests(q: Slots.Quota, paid: bool): int {
    if paid then q.limit else q.limit - q.paidReserve
  }

  function RequestsOn(usage: Slots.Usage, day: nat): int {
    if day in usage then usage[day] else 0
  }

  /**
   A request without an earlier run is let in exactly when its hold is granted or already settled and, if it is live, two
   more provider requests fit the day; a free plan stops short of the paid share. It is then counted for both at once.
   */
  lemma LetInIff(s: Store, m: Message, p: PeriodKey, q: Slots.Quota)
    requires forall run :: run in s.runs ==> !(run.account == m.hold.key.account && run.request == m.hold.key.request)
    ensures var (store, begun) := Begin(s, m, p, q);
            var outcome := Reserve(s.books, m.hold, RowOf(s.books, m.hold.key), p).1;
            var day := m.hold.now / 86_400;
            var full := m.live && RequestsOn(s.usage, day) + 2 > DailyRequests(q, m.paid);
            && (begun.Holding? <==> (outcome.Granted? || outcome.Existing?) && !full)
            && (begun.Holding? ==> begun.copy == outcome.hold)
            && (begun == Ended(CapacityFull) <==> (outcome.Granted? || outcome.Existing?) && full)
            && (begun.Ended? && begun.exit != CapacityFull ==> begun.exit == NotReserved(outcome))
            && (begun.Holding? ==> RequestsOn(store.usage, day) == RequestsOn(s.usage, day) + (if m.live then 2 else 0))
            && (begun.Ended? ==> store == s)
  {
    NoRunIsFound(s.runs, m);
  }

  lemma {:induction false} NoRunIsFound(runs: seq<Run>, m: Message)
    requires forall run :: run in runs ==> !(run.account == m.hold.key.account && run.request == m.hold.key.request)
    ensures FindRun(runs, m.Account(), m.Request()) == None
  {
    if runs != [] {
      assert runs[0] in runs;
      NoRunIsFound(runs[1..], m);
    }
  }

  // ---------- From the first step to the last ----------

  /** Others that leave the ledger alone. */
  ghost predicate LeaveBooksAlone(others: Others) {
    forall i, s: Store :: others(i, s).books == s.books
  }

  /** What a completed message adds to a counter's reserved and settled total. */
  function Cost(m: Message, p: PeriodKey, g: Generation, c: Counter): int
    requires g.Produced?
  {
    if g.release || !Admission.IsChecked(m.hold, p, c) then 0
    else if c.Tokens? then (if g.actualTokens.Some? then g.actualTokens.value else m.hold.tokens)
    else if g.actual.Some? then g.actual.value
    else m.hold.micro
  }

  /**
   With nobody else at the ledger, a completed message costs its window, its tokens, its billing period and its platform
   day what it measured, or the estimate when nothing was measured, or nothing when no reply was usable; it costs every
   other counter nothing, and its window one use unless no reply was usable.
   */
  lemma MessageCostsWhatItMeasured(s: Store, m: Message, p: PeriodKey, q: Slots.Quota, g: Generation, fault: Fault,
                                   recovers: bool, others: Others, c: Counter)
    requires Homed(s.books) && LeaveBooksAlone(others)
    requires Execute(s, m, p, q, g, fault, recovers, others).1.Completed?
    requires !Admission.DecidedAtOnce(m.hold, RowOf(s.books, m.hold.key))
    requires Has(s.books, c) || Admission.IsChecked(m.hold, p, c)
    ensures var after := Execute(s, m, p, q, g, fault, recovers, others).0.books;
            && g.Produced?
            && Admission.Spent(after, c) == Admission.Spent(s.books, c) + Cost(m, p, g, c)
            && Admission.UsesIn(after, m.hold.Target()) == Admission.UsesIn(s.books, m.hold.Target()) + (if g.release then 0 else 1)
  {
    var seen := RowOf(s.books, m.hold.key);
    var copy, found := Begin(s, m, p, q).1.copy, Found(s, m, p, q, others);
    Admission.OutcomeIsTheFirstObstacle(s.books, m.hold, seen, p);
    Admission.DecidedOutcomes(s.books, m.hold, seen, p);
    Admission.GrantAddsWhatWasAsked(s.books, m.hold, seen, p, c);
    assert found.books == Reserve(s.books, m.hold, seen, p).0;
    ReserveFollows(s.books, m.hold, p);
    CompletedIsCharged(found, m, copy, g, fault, recovers, others);
    TotalsAfterCharge(found.books, Execute(s, m, p, q, g, fault, recovers, others).0.books, m, p, copy, g, c);
  }

  lemma TotalsAfterCharge(b: Books, b': Books, m: Message, p: PeriodKey, copy: Hold, g: Generation, c: Counter)
    requires g.Produced? && IsReserved(b, m.hold.key) && IsRowOf(copy, m.hold, p) && copy.window in b.windows && Has(b, c)
    requires ChargedFor(b, b', m.hold.key, copy, g)
    ensures Admission.Spent(b', c) == Admission.Spent(b, c) - Admission.Asked(m.hold, p, c) + Cost(m, p, g, c)
    ensures Admission.UsesIn(b', m.hold.Target()) == Admission.UsesIn(b, m.hold.Target()) - (if g.release then 1 else 0)
  {
    assert exists charge, usesBack :: CounterEnds(b, b', copy, charge, c) && UsesEnd(b, b', copy, usesBack, copy.window);
  }
}
