/**
 When a request is admitted, said in sums and limits of the committed books alone: neither the guards of the reserving
 transaction nor its sweep appear in what is promised here.
 */
module Admission {
  import opened Options
  import opened Calendar
  import opened Budget
  import opened Conservation

  /** Reserved and settled together; a row that does not exist yet has spent nothing. */
  function Spent(b: Books, c: Counter): int {
    if Has(b, c) then ReservedOf(b, c) + SettledOf(b, c) else 0
  }

  /** The row's own limit, or the one it will be created with. */
  function Cap(b: Books, r: Request, c: Counter): nat {
    if Has(b, c) then LimitOf(b, c)
    else
      match c
      case Spend(_) => r.plan.requestCap * r.plan.everydayLimit
      case Tokens(_) => r.plan.dailyTokenLimit
      case Billing(_) => r.plan.periodCap
      case Platform(_) => r.dayLimit
  }

  predicate Fits(b: Books, r: Request, c: Counter, amount: int) {
    Spent(b, c) + amount <= Cap(b, r, c)
  }

  function UsesIn(b: Books, w: WindowKey): int {
    if w in b.windows then b.windows[w].everydayUsed else 0
  }

  function UseLimit(b: Books, r: Request, w: WindowKey): nat {
    if w in b.windows then b.windows[w].everydayLimit else r.plan.everydayLimit
  }

  predicate QuotaFits(b: Books, r: Request) {
    r.tokens > 0 ==> Fits(b, r, Tokens(r.Target()), r.tokens)
  }

  predicate AllowanceFits(b: Books, r: Request) {
    Fits(b, r, Spend(r.Target()), r.micro) && UsesIn(b, r.Target()) < UseLimit(b, r, r.Target())
  }

  /** Everything that stands between a request and its hold, in the order in which it is looked at. */
  datatype Obstacle = Quota | Allowance | StalePeriod | BillingCap | DayCap | Nothing

  function FirstObstacle(b: Books, r: Request, p: PeriodKey): Obstacle {
    if !QuotaFits(b, r) then Quota
    else if !AllowanceFits(b, r) then Allowance
    else if p in b.periods && b.periods[p].resetAt <= r.now then StalePeriod
    else if !Fits(b, r, Billing(p), r.micro) then BillingCap
    else if !Fits(b, r, Platform(r.now / DAY_SECONDS), r.micro) then DayCap
    else Nothing
  }

  /** The refusal of each obstacle, with the time at which it goes away. */
  predicate Answers(b: Books, r: Request, p: PeriodKey, outcome: Outcome) {
    var midnight := r.now - r.now % 86_400 + 86_400;
    match FirstObstacle(b, r, p)
    case Quota => outcome == Denied(TokenQuota, midnight)
    case Allowance => outcome == Denied(DailyAllowance, midnight)
    case StalePeriod => outcome == Conflict
    case BillingCap => outcome == Denied(PeriodCap, if p in b.periods then b.periods[p].resetAt else r.periodReset)
    case DayCap => outcome == Denied(PlatformCap, midnight)
    case Nothing => outcome.Granted? || outcome == InFlight || outcome == Conflict
  }

  /** The opening SELECT decides by itself: nothing to reserve, a settled row, or an owner still within its lease. */
  predicate DecidedAtOnce(r: Request, seen: Option<Hold>) {
    || r.micro <= 0
    || (seen.Some? && seen.value.status in {Settled, Unknown})
    || (seen.Some? && seen.value.status == Reserved && r.now - seen.value.createdAt < 120)
  }

  // ---------- What preparing leaves alone ----------

  /** The totals that guards look at are the same in both books, up to rows that are created empty. */
  predicate SameTotals(b: Books, b': Books, r: Request, c: Counter) {
    Spent(b', c) == Spent(b, c) && Cap(b', r, c) == Cap(b, r, c)
  }

  predicate SameUses(b: Books, b': Books, r: Request) {
    UsesIn(b', r.Target()) == UsesIn(b, r.Target()) && UseLimit(b', r, r.Target()) == UseLimit(b, r, r.Target())
  }

  lemma ExpiringKeepsTotals(b: Books, r: Request, seen: Option<Hold>, c: Counter)
    requires seen.Some? ==> seen.value.window in b.windows
    ensures SameTotals(b, Expired(b, r, seen), r, c) && SameUses(b, Expired(b, r, seen), r)
    ensures SamePeriods(b, Expired(b, r, seen)) && Expired(b, r, seen).windows.Keys == b.windows.Keys
    ensures Expired(b, r, seen).days.Keys == b.days.Keys
    ensures Homed(b) ==> Homed(Expired(b, r, seen))
  {
    if seen.Some? && Effective(b, r.key, seen.value, LEASE_EXPIRED) && Has(b, c) {
      FinishMoves(b, r.key, seen.value, LEASE_EXPIRED, c);
    }
  }

  lemma CreatingKeepsTotals(b: Books, r: Request, c: Counter)
    ensures var b' := EnsureWindow(b, r.Target(), r.plan, r.dayLimit);
            && SameUses(b, b', r) && r.Target() in b'.windows && r.Target().day in b'.days
            && (Has(b, c) || c == Spend(r.Target()) || c == Tokens(r.Target()) || c == Platform(r.Target().day) ==>
                  SameTotals(b, b', r, c))
            && (Homed(b) ==> Homed(b')) && b'.periods == b.periods && b'.holds == b.holds
  {
  }

  lemma SweepingKeepsTotals(b: Books, r: Request, candidates: seq<HoldKey>, c: Counter)
    requires Homed(b)
    ensures SameTotals(b, Sweep(b, candidates, r.now), r, c)
  {
    SweepFrame(b, candidates, r.now);
    if Has(b, c) {
      SweepConserves(b, candidates, r.now, c);
    }
  }

  lemma {:induction false} SweepKeepsUseLimits(b: Books, candidates: seq<HoldKey>, now: nat, w: WindowKey)
    requires w in b.windows
    ensures var b' := Sweep(b, candidates, now); w in b'.windows && b'.windows[w].everydayLimit == b.windows[w].everydayLimit
  {
    if candidates != [] {
      SweepKeepsUseLimits(b, candidates[..|candidates| - 1], now, w);
    }
  }

  /** The counters a request of this kind is checked against. */
  predicate IsChecked(r: Request, p: PeriodKey, c: Counter) {
    c == Spend(r.Target()) || c == Tokens(r.Target()) || c == Billing(p) || c == Platform(r.Target().day)
  }

  /** Neither closing an expired hold, nor creating rows, nor sweeping changes what any guard compares. */
  lemma PreparingKeepsTotals(b: Books, r: Request, seen: Option<Hold>, p: PeriodKey, c: Counter)
    requires Homed(b) && (seen.Some? ==> seen.value.window in b.windows)
    requires Has(b, c) || IsChecked(r, p, c)
    ensures var ready := Prepared(Expired(b, r, seen), r);
            && SameTotals(b, ready, r, c) && SameUses(b, ready, r) && SamePeriods(b, ready)
            && r.Target() in ready.windows && r.Target().day in ready.days && (Has(b, c) ==> Has(ready, c))
  {
    var b1 := Expired(b, r, seen);
    ExpiringKeepsTotals(b, r, seen, c);
    var b2 := EnsureWindow(b1, r.Target(), r.plan, r.dayLimit);
    CreatingKeepsTotals(b1, r, c);
    var batch := FirstFew(r.candidates, SWEEP_LIMIT);
    SweepingKeepsTotals(b2, r, batch, c);
    SweepFrame(b2, batch, r.now);
    SweepKeepsUseLimits(b2, batch, r.now, r.Target());
  }

  // ---------- The theorem ----------

  lemma CheckedCountersKeepTotals(b: Books, r: Request, seen: Option<Hold>, p: PeriodKey)
    requires Homed(b) && (seen.Some? ==> seen.value.window in b.windows)
    ensures var ready := Prepared(Expired(b, r, seen), r);
            && (forall c :: IsChecked(r, p, c) ==> SameTotals(b, ready, r, c))
            && SameUses(b, ready, r) && SamePeriods(b, ready)
            && r.Target() in ready.windows && r.Target().day in ready.days
  {
    forall c | IsChecked(r, p, c) ensures SameTotals(b, Prepared(Expired(b, r, seen), r), r, c) {
      PreparingKeepsTotals(b, r, seen, p, c);
    }
    PreparingKeepsTotals(b, r, seen, p, Spend(r.Target()));
  }

  lemma SameObstacle(b: Books, ready: Books, r: Request, p: PeriodKey)
    requires forall c :: IsChecked(r, p, c) ==> SameTotals(b, ready, r, c)
    requires SameUses(b, ready, r) && SamePeriods(b, ready)
    ensures FirstObstacle(ready, r, p) == FirstObstacle(b, r, p)
  {
    assert IsChecked(r, p, Tokens(r.Target())) && IsChecked(r, p, Spend(r.Target()));
    assert IsChecked(r, p, Billing(p)) && IsChecked(r, p, Platform(r.Target().day));
  }

  /** The three guards, in the state they are evaluated in. */
  lemma VerdictIsTheObstacle(ready: Books, r: Request, p: PeriodKey)
    requires r.Target() in ready.windows && r.Target().day in ready.days
    ensures Verdict(ready, r, p).None? <==> FirstObstacle(ready, r, p).Nothing?
    ensures Verdict(ready, r, p).Some? ==> Answers(ready, r, p, Verdict(ready, r, p).value)
  {
    assert r.TargetResetAt() == r.now - r.now % 86_400 + 86_400;
  }

  /**
   The outcome of a request that is not decided at once. Its refusal is that of the first obstacle in the committed books,
   whatever the sweep found; with no obstacle it is granted unless another transaction took the row in the meantime.
   */
  lemma OutcomeIsTheFirstObstacle(b: Books, r: Request, seen: Option<Hold>, p: PeriodKey)
    requires Homed(b) && (seen.Some? ==> seen.value.window in b.windows)
    requires !DecidedAtOnce(r, seen)
    ensures var outcome := Reserve(b, r, seen, p).1;
            && Answers(b, r, p, outcome)
            && (FirstObstacle(b, r, p).Nothing? && seen == RowOf(b, r.key) ==> outcome.Granted?)
            && (outcome.Granted? ==> FirstObstacle(b, r, p).Nothing?)
  {
    var ready := Prepared(Expired(b, r, seen), r);
    CheckedCountersKeepTotals(b, r, seen, p);
    SameObstacle(b, ready, r, p);
    VerdictIsTheObstacle(ready, r, p);
    if seen == RowOf(b, r.key) {
      OwnRowIsClosed(b, r, seen);
    }
  }

  /** Preparing leaves the request's own row closed, and creates none. */
  lemma OwnRowIsClosed(b: Books, r: Request, seen: Option<Hold>)
    requires Homed(b) && seen == RowOf(b, r.key) && !DecidedAtOnce(r, seen)
    ensures var ready := Prepared(Expired(b, r, seen), r);
            && (r.key in ready.holds <==> seen.Some?) && !IsReserved(ready, r.key)
  {
    var b1 := Expired(b, r, seen);
    SweepTouchesOnlyAbandoned(EnsureWindow(b1, r.Target(), r.plan, r.dayLimit), FirstFew(r.candidates, SWEEP_LIMIT),
                              r.now, r.key);
  }

  /** The cases that the opening SELECT decides. */
  lemma DecidedOutcomes(b: Books, r: Request, seen: Option<Hold>, p: PeriodKey)
    ensures var (after, outcome) := Reserve(b, r, seen, p);
            && (outcome == Rejected <==> r.micro <= 0)
            && (outcome.Existing? <==> r.micro > 0 && seen.Some? && seen.value.status in {Settled, Unknown})
            && (outcome.Existing? ==> outcome.hold == seen.value)
            && (r.micro > 0 && seen.Some? && seen.value.status == Reserved && r.now - seen.value.createdAt < 120
                ==> outcome == InFlight)
            && (DecidedAtOnce(r, seen) ==> after == b)
  {
  }

  // ---------- What a grant does ----------

  /** What a request asks of a counter. */
  function Asked(r: Request, p: PeriodKey, c: Counter): int {
    if c == Tokens(r.Target()) then r.tokens
    else if IsChecked(r, p, c) then r.micro
    else 0
  }

  /**
   A granted request adds what it asks for to its window, its tokens, its period and its day, and to nothing else, one use
   to its window, and one open row under its key; an earlier row under that key keeps only its creation time.
   */
  lemma GrantAddsWhatWasAsked(b: Books, r: Request, seen: Option<Hold>, p: PeriodKey, c: Counter)
    requires Homed(b) && (seen.Some? ==> seen.value.window in b.windows)
    requires Has(b, c) || IsChecked(r, p, c)
    requires Reserve(b, r, seen, p).1.Granted?
    ensures var (after, outcome) := Reserve(b, r, seen, p);
            && Spent(after, c) == Spent(b, c) + Asked(r, p, c)
            && Has(after, c) && Cap(after, r, c) == Cap(b, r, c)
            && UsesIn(after, r.Target()) == UsesIn(b, r.Target()) + 1
            && RowOf(after, r.key) == Some(outcome.hold)
            && outcome.hold.window == WindowKey(r.key.account, r.now / 86_400) && outcome.hold.period == p
            && outcome.hold.micro == r.micro && outcome.hold.tokens == r.tokens
            && outcome.hold.status == Reserved && outcome.hold.actual == None
            && (seen.None? ==> outcome.hold.createdAt == r.now)
            && (seen.Some? && r.key in b.holds ==> outcome.hold.createdAt == b.holds[r.key].createdAt)
  {
    var ready := Prepared(Expired(b, r, seen), r);
    PreparingKeepsTotals(b, r, seen, p, c);
    ReserveTakes(b, r, seen, p);
    var row := Reserve(b, r, seen, p).1.hold;
    TakingAdds(ready, r, p, row, c);
    SweepKeepsCreation(EnsureWindow(Expired(b, r, seen), r.Target(), r.plan, r.dayLimit),
                       FirstFew(r.candidates, SWEEP_LIMIT), r.now, r.key);
  }

  lemma TakingAdds(ready: Books, r: Request, p: PeriodKey, row: Hold, c: Counter)
    requires r.Target() in ready.windows && r.Target().day in ready.days && IsRowOf(row, r, p)
    ensures var after := Take(ready, r, p, row);
            && Spent(after, c) == Spent(ready, c) + Asked(r, p, c)
            && (Has(ready, c) || IsChecked(r, p, c) ==> Has(after, c) && Cap(after, r, c) == Cap(ready, r, c))
            && UsesIn(after, r.Target()) == UsesIn(ready, r.Target()) + 1
  {
  }

  lemma {:induction false} SweepKeepsCreation(b: Books, candidates: seq<HoldKey>, now: nat, key: HoldKey)
    ensures key in Sweep(b, candidates, now).holds <==> key in b.holds
    ensures key in b.holds ==> Sweep(b, candidates, now).holds[key].createdAt == b.holds[key].createdAt
  {
    if candidates != [] {
      SweepKeepsCreation(b, candidates[..|candidates| - 1], now, key);
    }
  }

  // ---------- Which abandoned holds a granted request closes ----------

  /**
   Of the other rows, a granted request closes exactly those among the first hundred candidates that are still reserved
   120 seconds after they were created, each as unknown.
   */
  lemma GrantReclaims(b: Books, r: Request, seen: Option<Hold>, p: PeriodKey, key: HoldKey)
    requires Homed(b) && (seen.Some? ==> seen.value.window in b.windows)
    requires Reserve(b, r, seen, p).1.Granted? && key in b.holds && key != r.key
    ensures var after, row := Reserve(b, r, seen, p).0, b.holds[key];
            var reclaimed := row.status == Reserved && r.now - row.createdAt >= 120
                             && exists i :: 0 <= i < |r.candidates| && i < 100 && r.candidates[i] == key;
            key in after.holds
            && after.holds[key] == if reclaimed then row.(status := Unknown, actual := None) else row
  {
    var b1 := EnsureWindow(Expired(b, r, seen), r.Target(), r.plan, r.dayLimit);
    var batch := FirstFew(r.candidates, SWEEP_LIMIT);
    ReserveTakes(b, r, seen, p);
    SweepTouchesOnlyAbandoned(b1, batch, r.now, key);
    assert key in batch <==> exists i :: 0 <= i < |r.candidates| && i < 100 && r.candidates[i] == key by {
      if i :| 0 <= i < |r.candidates| && i < 100 && r.candidates[i] == key { assert batch[i] == key; }
    }
  }
}
