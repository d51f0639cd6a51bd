/**
 Under a clock that does not run backwards, `ensure_usage_period` works with exactly one row per account and billing
 period, so the monetary cap is granted once per period however many daily windows pass.
 */
module BillingPeriods {
  import opened Options
  import opened Calendar
  import opened Budget
  import opened Conservation

  /** Each account's subscription anchor. */
  type Anchors = Id -> Date

  ghost predicate ValidAnchors(anchors: Anchors) {
    forall a :: Calendar.Valid(anchors(a))
  }

  /** `r` carries what `subscription_period` computes at its own instant. */
  predicate FromCalendar(anchors: Anchors, r: Request)
    requires Calendar.Valid(anchors(r.key.account))
  {
    && r.periodStart == PeriodStart(anchors(r.key.account), r.now)
    && r.periodReset == PeriodReset(anchors(r.key.account), r.now)
  }

  /** A row of `periods` was created at some instant up to `clock`, for the billing period of that instant. */
  ghost predicate IsBillingRow(anchors: Anchors, b: Books, clock: nat, p: PeriodKey)
    requires p in b.periods && Calendar.Valid(anchors(p.account))
  {
    exists t: nat :: CreatedAt(anchors, b, clock, p, t)
  }

  predicate CreatedAt(anchors: Anchors, b: Books, clock: nat, p: PeriodKey, t: nat)
    requires p in b.periods && Calendar.Valid(anchors(p.account))
  {
    && t <= clock
    && p.start == PeriodStart(anchors(p.account), t)
    && b.periods[p].resetAt == PeriodReset(anchors(p.account), t)
  }

  ghost predicate OnlyBillingRows(anchors: Anchors, b: Books, clock: nat)
    requires ValidAnchors(anchors)
  {
    forall p :: p in b.periods ==> IsBillingRow(anchors, b, clock, p)
  }

  /** An active row is the row of the billing period that holds the present instant. */
  lemma ActiveRowIsCurrent(anchors: Anchors, b: Books, clock: nat, now: nat, p: PeriodKey)
    requires ValidAnchors(anchors) && OnlyBillingRows(anchors, b, clock) && clock <= now
    requires p in b.periods
    ensures IsActive(b.periods, p.account, now, p)
            <==> p == PeriodKey(p.account, PeriodStart(anchors(p.account), now))
  {
    assert IsBillingRow(anchors, b, clock, p);
    var t: nat :| CreatedAt(anchors, b, clock, p, t);
    InstantsTile(anchors(p.account), t, now);
    InstantsTile(anchors(p.account), now, t);
  }

  /** The row `ensure_usage_period` works with is determined by the account and the instant alone. */
  lemma PeriodIsDetermined(anchors: Anchors, b: Books, clock: nat, r: Request, p: PeriodKey)
    requires ValidAnchors(anchors) && OnlyBillingRows(anchors, b, clock) && clock <= r.now
    requires FromCalendar(anchors, r) && IsPeriodFor(b.periods, r, p)
    ensures p == PeriodKey(r.key.account, PeriodStart(anchors(r.key.account), r.now))
  {
    if p in b.periods {
      ActiveRowIsCurrent(anchors, b, clock, r.now, p);
    }
  }

  // ---------- Runs ----------

  lemma PreparedKeepsPeriods(b: Books, r: Request, seen: Option<Hold>)
    ensures SamePeriods(b, Prepared(Expired(b, r, seen), r))
  {
    SweepFrame(EnsureWindow(Expired(b, r, seen), r.Target(), r.plan, r.dayLimit),
               FirstFew(r.candidates, SWEEP_LIMIT), r.now);
  }

  /** The clock never runs backwards, and each reservation uses the row that its SELECT finds. */
  ghost predicate Regular(anchors: Anchors, b: Books, clock: nat, s: Step)
    requires ValidAnchors(anchors)
  {
    s.Reserving? ==>
      && clock <= s.request.now
      && FromCalendar(anchors, s.request)
      && IsPeriodFor(Prepared(Expired(b, s.request, s.seen), s.request).periods, s.request, s.period)
  }

  function Clock(run: seq<Step>): nat {
    if run == [] then 0
    else if run[|run| - 1].Reserving? then run[|run| - 1].request.now
    else Clock(run[..|run| - 1])
  }

  ghost predicate AlwaysRegular(anchors: Anchors, run: seq<Step>)
    requires ValidAnchors(anchors)
  {
    run == [] || (AlwaysRegular(anchors, run[..|run| - 1])
                  && Regular(anchors, After(run[..|run| - 1]), Clock(run[..|run| - 1]), run[|run| - 1]))
  }

  /** A granted reservation adds at most its own period row, and changes no row's limit or reset. */
  lemma GrantOnPeriods(b: Books, r: Request, seen: Option<Hold>, p: PeriodKey)
    requires Reserve(b, r, seen, p).1.Granted?
    ensures var b' := Reserve(b, r, seen, p).0;
            && Reserve(b, r, seen, p).1.hold.period == p
            && b'.periods.Keys == b.periods.Keys + {p}
            && (forall q :: q in b.periods ==>
                  b'.periods[q].resetAt == b.periods[q].resetAt && b'.periods[q].spendLimit == b.periods[q].spendLimit)
            && (p !in b.periods ==> b'.periods[p].resetAt == r.periodReset)
  {
    ReserveTakes(b, r, seen, p);
    PreparedKeepsPeriods(b, r, seen);
  }

  lemma GrantKeepsBillingRows(anchors: Anchors, b: Books, clock: nat, r: Request, seen: Option<Hold>, p: PeriodKey)
    requires ValidAnchors(anchors) && OnlyBillingRows(anchors, b, clock) && clock <= r.now && FromCalendar(anchors, r)
    requires p == PeriodKey(r.key.account, PeriodStart(anchors(r.key.account), r.now))
    requires Reserve(b, r, seen, p).1.Granted?
    ensures OnlyBillingRows(anchors, Reserve(b, r, seen, p).0, r.now)
  {
    var b' := Reserve(b, r, seen, p).0;
    GrantOnPeriods(b, r, seen, p);
    forall q | q in b'.periods ensures IsBillingRow(anchors, b', r.now, q) {
      if q in b.periods {
        RowCarriesOver(anchors, b, b', clock, r.now, q);
      } else {
        assert CreatedAt(anchors, b', r.now, q, r.now);
      }
    }
  }

  lemma ReservingFindsItsRow(anchors: Anchors, b: Books, clock: nat, s: Step)
    requires ValidAnchors(anchors) && OnlyBillingRows(anchors, b, clock)
    requires s.Reserving? && Regular(anchors, b, clock, s)
    ensures s.period == PeriodKey(s.request.key.account, PeriodStart(anchors(s.request.key.account), s.request.now))
  {
    var b1 := Prepared(Expired(b, s.request, s.seen), s.request);
    PreparedKeepsPeriods(b, s.request, s.seen);
    RowsCarryOver(anchors, b, b1, clock, s.request.now);
    PeriodIsDetermined(anchors, b1, s.request.now, s.request, s.period);
  }

  lemma ReservingKeepsLimits(b: Books, s: Step)
    requires s.Reserving?
    ensures forall p :: p in b.periods ==>
              (p in Next(b, s).periods && Next(b, s).periods[p].spendLimit == b.periods[p].spendLimit)
  {
    OnlyGrantsChange(b, s.request, s.seen, s.period);
    if Reserve(b, s.request, s.seen, s.period).1.Granted? {
      GrantOnPeriods(b, s.request, s.seen, s.period);
    }
  }

  lemma ReservingKeepsBillingRows(anchors: Anchors, b: Books, clock: nat, s: Step)
    requires ValidAnchors(anchors) && OnlyBillingRows(anchors, b, clock)
    requires s.Reserving? && Regular(anchors, b, clock, s)
    ensures OnlyBillingRows(anchors, Next(b, s), s.request.now)
  {
    ReservingFindsItsRow(anchors, b, clock, s);
    OnlyGrantsChange(b, s.request, s.seen, s.period);
    if Reserve(b, s.request, s.seen, s.period).1.Granted? {
      GrantKeepsBillingRows(anchors, b, clock, s.request, s.seen, s.period);
    } else {
      RowsCarryOver(anchors, b, b, clock, s.request.now);
    }
  }

  lemma RowCarriesOver(anchors: Anchors, b: Books, b': Books, clock: nat, now: nat, p: PeriodKey)
    requires ValidAnchors(anchors) && p in b.periods && IsBillingRow(anchors, b, clock, p) && clock <= now
    requires p in b'.periods && b'.periods[p].resetAt == b.periods[p].resetAt
    ensures IsBillingRow(anchors, b', now, p)
  {
    var t: nat :| CreatedAt(anchors, b, clock, p, t);
    assert CreatedAt(anchors, b', now, p, t);
  }

  lemma RowsCarryOver(anchors: Anchors, b: Books, b': Books, clock: nat, now: nat)
    requires ValidAnchors(anchors) && OnlyBillingRows(anchors, b, clock)
    requires SamePeriods(b, b') && clock <= now
    ensures OnlyBillingRows(anchors, b', now)
  {
    forall p | p in b'.periods ensures IsBillingRow(anchors, b', now, p) {
      RowCarriesOver(anchors, b, b', clock, now, p);
    }
  }

  lemma FinishingKeepsPeriods(b: Books, s: Step)
    requires s.Finishing?
    ensures SamePeriods(b, Next(b, s))
  {
  }

  lemma {:induction false} EveryRowIsABillingRow(anchors: Anchors, run: seq<Step>)
    requires ValidAnchors(anchors) && AlwaysRegular(anchors, run)
    ensures OnlyBillingRows(anchors, After(run), Clock(run))
  {
    if run != [] {
      var b, clock, s := After(run[..|run| - 1]), Clock(run[..|run| - 1]), run[|run| - 1];
      EveryRowIsABillingRow(anchors, run[..|run| - 1]);
      if s.Reserving? {
        ReservingKeepsBillingRows(anchors, b, clock, s);
      } else {
        FinishingKeepsPeriods(b, s);
        RowsCarryOver(anchors, b, Next(b, s), clock, clock);
      }
    }
  }

  /** At any later instant an account has at most one active row. */
  lemma OneActiveRow(anchors: Anchors, run: seq<Step>, now: nat, p: PeriodKey, q: PeriodKey)
    requires ValidAnchors(anchors) && AlwaysRegular(anchors, run) && Clock(run) <= now
    requires p.account == q.account
    requires IsActive(After(run).periods, p.account, now, p) && IsActive(After(run).periods, p.account, now, q)
    ensures p == q
  {
    EveryRowIsABillingRow(anchors, run);
    ActiveRowIsCurrent(anchors, After(run), Clock(run), now, p);
    ActiveRowIsCurrent(anchors, After(run), Clock(run), now, q);
  }

  lemma {:induction false} LimitIsKept(run: seq<Step>, n: nat, p: PeriodKey)
    requires n <= |run| && p in After(run[..n]).periods
    ensures p in After(run).periods && After(run).periods[p].spendLimit == After(run[..n]).periods[p].spendLimit
    decreases |run|
  {
    if n == |run| {
      assert run[..n] == run;
    } else {
      var before, s := run[..|run| - 1], run[|run| - 1];
      assert before[..n] == run[..n];
      LimitIsKept(before, n, p);
      if s.Reserving? {
        ReservingKeepsLimits(After(before), s);
      } else {
        FinishingKeepsPeriods(After(before), s);
      }
    }
  }

  predicate GrantedAt(run: seq<Step>, i: nat)
    requires i < |run|
  {
    run[i].Reserving? && Reserve(After(run[..i]), run[i].request, run[i].seen, run[i].period).1.Granted?
  }

  lemma {:induction false} RegularPrefix(anchors: Anchors, run: seq<Step>, n: nat)
    requires ValidAnchors(anchors) && AlwaysRegular(anchors, run) && n <= |run|
    ensures AlwaysRegular(anchors, run[..n])
    decreases |run|
  {
    if n == |run| {
      assert run[..n] == run;
    } else {
      RegularPrefix(anchors, run[..|run| - 1], n);
      assert run[..|run| - 1][..n] == run[..n];
    }
  }

  /** All holds granted to one account within one billing period draw on one row, on any number of days. */
  lemma OneRowPerPeriod(anchors: Anchors, run: seq<Step>, i: nat, j: nat)
    requires ValidAnchors(anchors) && AlwaysRegular(anchors, run)
    requires i < |run| && j < |run| && GrantedAt(run, i) && GrantedAt(run, j)
    requires run[i].request.key.account == run[j].request.key.account
    ensures run[i].period == run[j].period
            <==> PeriodStart(anchors(run[i].request.key.account), run[i].request.now)
                 == PeriodStart(anchors(run[i].request.key.account), run[j].request.now)
  {
    GrantUsesCurrentRow(anchors, run, i);
    GrantUsesCurrentRow(anchors, run, j);
  }

  lemma GrantUsesCurrentRow(anchors: Anchors, run: seq<Step>, i: nat)
    requires ValidAnchors(anchors) && AlwaysRegular(anchors, run) && i < |run| && GrantedAt(run, i)
    ensures run[i].period
         == PeriodKey(run[i].request.key.account, PeriodStart(anchors(run[i].request.key.account), run[i].request.now))
  {
    RegularPrefix(anchors, run, i + 1);
    assert run[..i + 1][..i] == run[..i] && run[..i + 1][i] == run[i];
    RegularPrefix(anchors, run, i);
    EveryRowIsABillingRow(anchors, run[..i]);
    ReservingFindsItsRow(anchors, After(run[..i]), Clock(run[..i]), run[i]);
  }

  /** The cap is granted once: all an account spends in one period stays within the limit set when its row was created. */
  lemma CapIsGrantedOnce(run: seq<Step>, n: nat, p: PeriodKey)
    requires n <= |run| && p in After(run[..n]).periods
    ensures p in After(run).periods
    ensures After(run).periods[p].reserved + After(run).periods[p].settled
         <= After(run[..n]).periods[p].spendLimit + Overshoot(After(run).journal, Billing(p))
  {
    LimitIsKept(run, n, p);
    CapsHold(run);
    assert CounterCapped(After(run), Billing(p));
  }
}
