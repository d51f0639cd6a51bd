/**
 The budget ledger: reserve, settle, release and reclaim (src/daily_agent/services.py).

 A request takes one hold, which raises a daily window, a billing period and a platform day together. Rows are
 addressed by their unique keys and identifiers are opaque numbers. `Books` is one committed state of the tables;
 the class `Ledger` is the session that changes it, one guarded UPDATE at a time.
 */
module Budget {
  import opened Options
  import opened Calendar

  const RESERVATION_LEASE_SECONDS := 120
  const SWEEP_LIMIT := 100

  type Id = nat

  datatype Plan = Plan(everydayLimit: nat, dailyTokenLimit: nat, requestCap: nat, periodCap: nat)

  datatype WindowKey = WindowKey(account: Id, day: nat)
  datatype PeriodKey = PeriodKey(account: Id, start: int)
  datatype HoldKey = HoldKey(account: Id, request: Id, stage: Id)

  datatype Status = Reserved | Settled | Released | Unknown

  datatype Window = Window(everydayLimit: nat, everydayUsed: int,
                           spendLimit: nat, reserved: int, settled: int,
                           tokenLimit: nat, tokensReserved: int, tokensSettled: int)
  datatype Period = Period(spendLimit: nat, reserved: int, settled: int, resetAt: int)
  datatype Day = Day(spendLimit: nat, reserved: int, settled: int)
  datatype Hold = Hold(window: WindowKey, period: PeriodKey, micro: nat, tokens: nat,
                       status: Status, createdAt: nat, actual: Option<nat>)

  /** What the log lines and the cost ledger record: one entry for every effect a hold has on the counters. */
  datatype Entry =
    | Took(hold: Hold)
    | Charged(hold: Hold, micro: nat, tokens: nat)
    | Refunded(hold: Hold)

  datatype Books = Books(windows: map<WindowKey, Window>, periods: map<PeriodKey, Period>, days: map<nat, Day>,
                         holds: map<HoldKey, Hold>, journal: seq<Entry>)

  const NEW_BOOKS := Books(map[], map[], map[], map[], [])

  /** What selecting a hold by its key finds. */
  function RowOf(b: Books, key: HoldKey): Option<Hold> {
    if key in b.holds then Some(b.holds[key]) else None
  }

  // ---------- Ending a hold ----------

  datatype Finisher =
    | Settle(actual: Option<nat>, actualTokens: Option<nat>)
    | Release

  predicate IsReserved(b: Books, key: HoldKey) {
    key in b.holds && b.holds[key].status == Reserved
  }

  /** A finisher takes effect when its guarded claim of the row succeeds. Only settling looks at the caller's copy. */
  predicate Effective(b: Books, key: HoldKey, copy: Hold, f: Finisher) {
    IsReserved(b, key) && (f.Settle? ==> copy.status == Reserved)
  }

  function Or<T>(o: Option<T>, default: T): T {
    if o.Some? then o.value else default
  }

  function ChargeOf(copy: Hold, f: Finisher): nat {
    if f.Settle? then Or(f.actual, copy.micro) else 0
  }

  function TokenChargeOf(copy: Hold, f: Finisher): nat {
    if f.Settle? then Or(f.actualTokens, copy.tokens) else 0
  }

  function Closed(row: Hold, f: Finisher): Hold {
    match f
    case Settle(actual, _) => row.(status := if actual.Some? then Settled else Unknown, actual := actual)
    case Release => row.(status := Released)
  }

  function EntryOf(copy: Hold, f: Finisher): Entry {
    if f.Settle? then Charged(copy, ChargeOf(copy, f), TokenChargeOf(copy, f)) else Refunded(copy)
  }

  /** Move a hold's amounts, as the caller remembers them, out of `reserved`; what was charged goes to `settled`. */
  function WindowAfter(w: Window, copy: Hold, f: Finisher): Window {
    w.(reserved := w.reserved - copy.micro,
       settled := w.settled + ChargeOf(copy, f),
       tokensReserved := w.tokensReserved - copy.tokens,
       tokensSettled := w.tokensSettled + TokenChargeOf(copy, f),
       everydayUsed := w.everydayUsed - (if f.Release? then 1 else 0))
  }

  function DayAfter(d: Day, copy: Hold, f: Finisher): Day {
    d.(reserved := d.reserved - copy.micro, settled := d.settled + ChargeOf(copy, f))
  }

  function PeriodAfter(p: Period, copy: Hold, f: Finisher): Period {
    p.(reserved := p.reserved - copy.micro, settled := p.settled + ChargeOf(copy, f))
  }

  /** The committed effect of `settle_budget` or `release_budget` on the row `key`, called with `copy` in memory. */
  function Finish(b: Books, key: HoldKey, copy: Hold, f: Finisher): Books {
    if !Effective(b, key, copy, f) || copy.window !in b.windows then b else
      Books(
        b.windows[copy.window := WindowAfter(b.windows[copy.window], copy, f)],
        if copy.period in b.periods then b.periods[copy.period := PeriodAfter(b.periods[copy.period], copy, f)]
        else b.periods,
        if copy.window.day in b.days then b.days[copy.window.day := DayAfter(b.days[copy.window.day], copy, f)]
        else b.days,
        b.holds[key := Closed(b.holds[key], f)],
        b.journal + [EntryOf(copy, f)])
  }

  // ---------- The sweep ----------

  const LEASE_EXPIRED := Settle(None, None)

  predicate IsLive(row: Hold, now: nat) {
    now - row.createdAt < RESERVATION_LEASE_SECONDS
  }

  predicate IsAbandoned(b: Books, key: HoldKey, now: nat) {
    IsReserved(b, key) && !IsLive(b.holds[key], now)
  }

  function Reclaim(b: Books, key: HoldKey, now: nat): Books {
    if IsAbandoned(b, key, now) then Finish(b, key, b.holds[key], LEASE_EXPIRED) else b
  }

  function Sweep(b: Books, candidates: seq<HoldKey>, now: nat): Books {
    if candidates == [] then b else
      Reclaim(Sweep(b, candidates[..|candidates| - 1], now), candidates[|candidates| - 1], now)
  }

  function FirstFew<T>(s: seq<T>, limit: nat): seq<T> {
    if |s| <= limit then s else s[..limit]
  }

  // ---------- Taking a hold ----------

  /**
   One call of `reserve_budget`. `candidates` is what the sweep's SELECT returned, in the order it returned it;
   `periodStart` and `periodReset` are what `subscription_period` computes for the account's anchor at `now`.
   */
  datatype Call = Call(key: HoldKey, plan: Plan, dayLimit: nat, micro: int, tokens: nat,
                       now: nat, periodStart: int, periodReset: int, candidates: seq<HoldKey>)
  {
    function Target(): WindowKey { WindowKey(key.account, now / DAY_SECONDS) }
    function TargetResetAt(): int { (now / DAY_SECONDS + 1) * DAY_SECONDS }
  }

  /** A billing period resets after the instant it is computed for; see `Calendar.InstantsTile`. */
  type Request = c: Call | c.now < c.periodReset
    witness Call(HoldKey(0, 0, 0), Plan(0, 0, 0, 0), 0, 1, 0, 0, 0, 1, [])

  datatype Reason = TokenQuota | DailyAllowance | PeriodCap | PlatformCap

  datatype Outcome =
    | Granted(hold: Hold)
    | Existing(hold: Hold)
    | Denied(reason: Reason, resetAt: int)
    | InFlight
    | Rejected       // the amount is not positive
    | Conflict       // a unique or foreign key was violated

  predicate Commits(o: Outcome) {
    o.Granted? || o.Existing?
  }

  function FreshWindow(plan: Plan): Window {
    Window(plan.everydayLimit, 0, plan.requestCap * plan.everydayLimit, 0, 0, plan.dailyTokenLimit, 0, 0)
  }

  function EnsureWindow(b: Books, w: WindowKey, plan: Plan, dayLimit: nat): Books {
    b.(windows := if w in b.windows then b.windows else b.windows[w := FreshWindow(plan)],
       days := if w.day in b.days then b.days else b.days[w.day := Day(dayLimit, 0, 0)])
  }

  predicate IsActive(periods: map<PeriodKey, Period>, account: Id, now: nat, p: PeriodKey) {
    p in periods && p.account == account && periods[p].resetAt > now
  }

  predicate IsEarliestActive(periods: map<PeriodKey, Period>, account: Id, now: nat, p: PeriodKey) {
    && IsActive(periods, account, now, p)
    && forall q :: q in periods && IsActive(periods, account, now, q) ==> periods[p].resetAt <= periods[q].resetAt
  }

  ghost predicate NoneActive(periods: map<PeriodKey, Period>, account: Id, now: nat) {
    forall q :: q in periods ==> !IsActive(periods, account, now, q)
  }

  lemma {:induction false} EarliestExists(periods: map<PeriodKey, Period>, account: Id, now: nat)
    requires !NoneActive(periods, account, now)
    ensures exists p :: p in periods && IsEarliestActive(periods, account, now, p)
    decreases |periods|
  {
    var q :| q in periods && IsActive(periods, account, now, q);
    var rest := periods - {q};
    if NoneActive(rest, account, now) {
      forall x | x in periods && IsActive(periods, account, now, x) ensures x == q {
        assert x in rest ==> IsActive(rest, account, now, x);
      }
      assert IsEarliestActive(periods, account, now, q);
    } else {
      EarliestExists(rest, account, now);
      var p :| p in rest && IsEarliestActive(rest, account, now, p);
      var least := if periods[q].resetAt <= periods[p].resetAt then q else p;
      forall x | x in periods && IsActive(periods, account, now, x)
        ensures periods[least].resetAt <= periods[x].resetAt
      {
        assert x != q ==> x in rest && IsActive(rest, account, now, x);
      }
      assert IsEarliestActive(periods, account, now, least);
    }
  }

  /** `p` is the row that `ensure_usage_period` works with: the account's active row that resets first, or a new one. */
  ghost predicate IsPeriodFor(periods: map<PeriodKey, Period>, r: Request, p: PeriodKey)
  {
    if NoneActive(periods, r.key.account, r.now) then p == PeriodKey(r.key.account, r.periodStart)
    else IsEarliestActive(periods, r.key.account, r.now, p)
  }

  function EnsurePeriod(b: Books, p: PeriodKey, cap: nat, resetAt: int): Books {
    b.(periods := if p in b.periods then b.periods else b.periods[p := Period(cap, 0, 0, resetAt)])
  }

  predicate WindowAdmits(w: Window, micro: int, tokens: nat) {
    && w.reserved + w.settled + micro <= w.spendLimit
    && w.everydayUsed < w.everydayLimit
    && TokensAdmit(w, tokens)
  }

  predicate TokensAdmit(w: Window, tokens: nat) {
    tokens > 0 ==> w.tokensReserved + w.tokensSettled + tokens <= w.tokenLimit
  }

  /** The window's guard lets the request through, so that the account's billing period is looked up. */
  predicate PastTheWindow(b: Books, r: Request) {
    r.Target() in b.windows && WindowAdmits(b.windows[r.Target()], r.micro, r.tokens)
  }

  predicate PeriodAdmits(p: Period, micro: int) {
    p.reserved + p.settled + micro <= p.spendLimit
  }

  predicate DayAdmits(d: Day, micro: int) {
    d.reserved + d.settled + micro <= d.spendLimit
  }

  /** The state in which the three guards are evaluated. */
  function Prepared(b: Books, r: Request): Books {
    Sweep(EnsureWindow(b, r.Target(), r.plan, r.dayLimit), FirstFew(r.candidates, SWEEP_LIMIT), r.now)
  }

  /** Why no hold can be taken, if it cannot: the first guard that fails. */
  function Verdict(b: Books, r: Request, p: PeriodKey): Option<Outcome>
  {
    var w := r.Target();
    if w !in b.windows || !WindowAdmits(b.windows[w], r.micro, r.tokens) then
      Some(Denied(if w in b.windows && !TokensAdmit(b.windows[w], r.tokens) then TokenQuota else DailyAllowance,
                  r.TargetResetAt()))
    else if p in b.periods && b.periods[p].resetAt <= r.now then
      Some(Conflict)
    else if !PeriodAdmits(EnsurePeriod(b, p, r.plan.periodCap, r.periodReset).periods[p], r.micro) then
      Some(Denied(PeriodCap, EnsurePeriod(b, p, r.plan.periodCap, r.periodReset).periods[p].resetAt))
    else if w.day !in b.days || !DayAdmits(b.days[w.day], r.micro) then
      Some(Denied(PlatformCap, r.TargetResetAt()))
    else
      None
  }

  function NewHold(r: Request, p: PeriodKey): Hold
    requires r.micro > 0
  {
    Hold(r.Target(), p, r.micro, r.tokens, Reserved, r.now, None)
  }

  /** The three guarded updates, all granted. */
  function Draw(b: Books, r: Request, p: PeriodKey): Books
    requires r.Target() in b.windows && r.Target().day in b.days
  {
    var w := r.Target();
    var b' := EnsurePeriod(b, p, r.plan.periodCap, r.periodReset);
    b'.(windows := b'.windows[w := b'.windows[w].(reserved := b'.windows[w].reserved + r.micro,
                                                  tokensReserved := b'.windows[w].tokensReserved + r.tokens,
                                                  everydayUsed := b'.windows[w].everydayUsed + 1)],
        periods := b'.periods[p := b'.periods[p].(reserved := b'.periods[p].reserved + r.micro)],
        days := b'.days[w.day := b'.days[w.day].(reserved := b'.days[w.day].reserved + r.micro)])
  }

  /** The counters and the row that explains them. */
  function Take(b: Books, r: Request, p: PeriodKey, row: Hold): Books
    requires r.Target() in b.windows && r.Target().day in b.days
  {
    var b' := Draw(b, r, p);
    b'.(holds := b'.holds[r.key := row], journal := b'.journal + [Took(row)])
  }

  /** An expired hold seen under the same key is charged at its estimate before anything is taken. */
  function Expired(b: Books, r: Request, seen: Option<Hold>): Books {
    if seen.Some? && seen.value.status == Reserved then Finish(b, r.key, seen.value, LEASE_EXPIRED) else b
  }

  /** The row after re-reserving it; `created_at` is left as it was. */
  function Reactivated(row: Hold, hold: Hold): Hold {
    hold.(createdAt := row.createdAt)
  }

  /**
   The whole reserving transaction. `seen` is the row the opening SELECT found; other transactions may have committed
   since. Every exception is rolled back by the caller, so only a granted or an existing hold leaves a new state.
   */
  function Reserve(b: Books, r: Request, seen: Option<Hold>, p: PeriodKey): (result: (Books, Outcome))
  {
    if r.micro <= 0 then (b, Rejected)
    else if seen.Some? && seen.value.status in {Settled, Unknown} then (b, Existing(seen.value))
    else if seen.Some? && seen.value.status == Reserved && IsLive(seen.value, r.now) then (b, InFlight)
    else if seen.Some? && Effective(b, r.key, seen.value, LEASE_EXPIRED) && seen.value.window !in b.windows then
      (b, Conflict)
    else
      var b1 := Prepared(Expired(b, r, seen), r);
      var verdict := Verdict(b1, r, p);
      if verdict.Some? then (b, verdict.value)
      else if seen.None? then
        if r.key in b1.holds then (b, Conflict)
        else (Take(b1, r, p, NewHold(r, p)), Granted(NewHold(r, p)))
      else
        if r.key !in b1.holds || b1.holds[r.key].status == Reserved then (b, InFlight)
        else
          var row := Reactivated(b1.holds[r.key], NewHold(r, p));
          (Take(b1, r, p, row), Granted(row))
  }

  // ---------- The session ----------

  class Ledger {
    var windows: map<WindowKey, Window>
    var periods: map<PeriodKey, Period>
    var days: map<nat, Day>
    var holds: map<HoldKey, Hold>
    var journal: seq<Entry>

    function Snapshot(): Books
      reads this
    {
      Books(windows, periods, days, holds, journal)
    }

    constructor ()
      ensures Snapshot() == NEW_BOOKS
    {
      windows, periods, days, holds, journal := map[], map[], map[], map[], [];
    }

    method Rollback(b: Books)
      modifies this
      ensures Snapshot() == b
    {
      windows, periods, days, holds, journal := b.windows, b.periods, b.days, b.holds, b.journal;
    }

    /** A missing window raises after the claim; the caller rolls that back. */
    method SettleBudget(key: HoldKey, copy: Hold, actual: Option<nat>, actualTokens: Option<nat>)
      returns (raised: bool)
      modifies this
      ensures raised <==> old(Effective(Snapshot(), key, copy, Settle(actual, actualTokens)))
                          && copy.window !in old(windows)
      ensures !raised ==> Snapshot() == Finish(old(Snapshot()), key, copy, Settle(actual, actualTokens))
    {
      if copy.status != Reserved {
        return false;
      }
      var settled := Or(actual, copy.micro);
      var settledTokens := Or(actualTokens, copy.tokens);
      var newStatus := if actual.Some? then Settled else Unknown;
      if key !in holds || holds[key].status != Reserved {
        return false;
      }
      holds := holds[key := holds[key].(status := newStatus, actual := actual)];
      if copy.window !in windows {
        return true;
      }
      var w := windows[copy.window];
      windows := windows[copy.window := w.(reserved := w.reserved - copy.micro,
                                           settled := w.settled + settled,
                                           tokensReserved := w.tokensReserved - copy.tokens,
                                           tokensSettled := w.tokensSettled + settledTokens)];
      if copy.window.day in days {
        var d := days[copy.window.day];
        days := days[copy.window.day := d.(reserved := d.reserved - copy.micro, settled := d.settled + settled)];
      }
      if copy.period in periods {
        var p := periods[copy.period];
        periods := periods[copy.period := p.(reserved := p.reserved - copy.micro, settled := p.settled + settled)];
      }
      journal := journal + [Charged(copy, settled, settledTokens)];
      return false;
    }

    method ReleaseBudget(key: HoldKey, copy: Hold) returns (raised: bool)
      modifies this
      ensures raised <==> old(IsReserved(Snapshot(), key)) && copy.window !in old(windows)
      ensures !raised ==> Snapshot() == Finish(old(Snapshot()), key, copy, Release)
    {
      if key !in holds || holds[key].status != Reserved {
        return false;
      }
      holds := holds[key := holds[key].(status := Released)];
      if copy.window !in windows {
        return true;
      }
      var w := windows[copy.window];
      windows := windows[copy.window := w.(reserved := w.reserved - copy.micro,
                                           tokensReserved := w.tokensReserved - copy.tokens,
                                           everydayUsed := w.everydayUsed - 1)];
      if copy.window.day in days {
        var d := days[copy.window.day];
        days := days[copy.window.day := d.(reserved := d.reserved - copy.micro)];
      }
      if copy.period in periods {
        var p := periods[copy.period];
        periods := periods[copy.period := p.(reserved := p.reserved - copy.micro)];
      }
      journal := journal + [Refunded(copy)];
      return false;
    }

    method ReclaimStale(candidates: seq<HoldKey>, now: nat) returns (reclaimed: nat)
      requires forall k :: k in holds ==> holds[k].window in windows
      modifies this
      ensures Snapshot() == Sweep(old(Snapshot()), FirstFew(candidates, SWEEP_LIMIT), now)
      ensures windows.Keys == old(windows.Keys)
    {
      reclaimed := 0;
      var batch := FirstFew(candidates, SWEEP_LIMIT);
      for i := 0 to |batch|
        invariant Snapshot() == Sweep(old(Snapshot()), batch[..i], now)
        invariant windows.Keys == old(windows.Keys)
        invariant forall k :: k in holds ==> holds[k].window in windows
      {
        assert batch[..i + 1][..i] == batch[..i];
        var key := batch[i];
        if key !in holds || holds[key].status != Reserved || IsLive(holds[key], now) {
          continue;
        }
        var raised := SettleBudget(key, holds[key], None, None);
        reclaimed := reclaimed + 1;
      }
      assert batch[..|batch|] == batch;
    }

    method EnsureUsageWindow(w: WindowKey, plan: Plan, dayLimit: nat)
      modifies this
      ensures Snapshot() == EnsureWindow(old(Snapshot()), w, plan, dayLimit)
    {
      if w !in windows {
        windows := windows[w := Window(plan.everydayLimit, 0, plan.requestCap * plan.everydayLimit, 0, 0,
                                       plan.dailyTokenLimit, 0, 0)];
      }
      if w.day !in days {
        days := days[w.day := Day(dayLimit, 0, 0)];
      }
    }

    /** Raises when the new row's key is taken by a row that is no longer active. */
    method EnsureUsagePeriod(r: Request) returns (p: PeriodKey, raised: bool)
      modifies this
      ensures IsPeriodFor(old(periods), r, p)
      ensures raised <==> p in old(periods) && old(periods)[p].resetAt <= r.now
      ensures !raised ==> Snapshot()
                          == EnsurePeriod(old(Snapshot()), p, r.plan.periodCap, r.periodReset)
    {
      if q: PeriodKey :| q in periods && IsEarliestActive(periods, r.key.account, r.now, q) {
        return q, false;
      }
      if !NoneActive(periods, r.key.account, r.now) {
        EarliestExists(periods, r.key.account, r.now);
        assert false;
      }
      p := PeriodKey(r.key.account, r.periodStart);
      if p in periods {
        return p, true;
      }
      periods := periods[p := Period(r.plan.periodCap, 0, 0, r.periodReset)];
      return p, false;
    }

    /** The guarded counter updates. On a refusal the updates made so far stay for the caller to roll back. */
    method ReserveHold(r: Request) returns (refusal: Option<Outcome>, p: PeriodKey)
      requires r.micro > 0
      requires forall k :: k in holds ==> holds[k].window in windows
      modifies this
      ensures refusal == Verdict(old(Prepared(Snapshot(), r)), r, p)
      ensures PastTheWindow(old(Prepared(Snapshot(), r)), r) ==> IsPeriodFor(old(Prepared(Snapshot(), r)).periods, r, p)
      ensures refusal.None? ==> Snapshot() == Draw(old(Prepared(Snapshot(), r)), r, p)
    {
      EnsureUsageWindow(r.Target(), r.plan, r.dayLimit);
      var _ := ReclaimStale(r.candidates, r.now);
      refusal, p := DrawHold(r);
    }

    method DrawHold(r: Request) returns (refusal: Option<Outcome>, p: PeriodKey)
      requires r.Target() in windows
      modifies this
      ensures refusal == Verdict(old(Snapshot()), r, p)
      ensures PastTheWindow(old(Snapshot()), r) ==> IsPeriodFor(old(periods), r, p)
      ensures refusal.None? ==> Snapshot() == Draw(old(Snapshot()), r, p)
    {
      p := PeriodKey(0, 0);
      var key := r.Target();
      var w := windows[key];
      if !(w.reserved + w.settled + r.micro <= w.spendLimit && w.everydayUsed < w.everydayLimit
           && TokensAdmit(w, r.tokens)) {
        if r.tokens > 0 && w.tokensReserved + w.tokensSettled + r.tokens > w.tokenLimit {
          return Some(Denied(TokenQuota, r.TargetResetAt())), p;
        }
        return Some(Denied(DailyAllowance, r.TargetResetAt())), p;
      }
      windows := windows[key := w.(reserved := w.reserved + r.micro,
                                   tokensReserved := w.tokensReserved + r.tokens,
                                   everydayUsed := w.everydayUsed + 1)];
      var raised;
      p, raised := EnsureUsagePeriod(r);
      if raised {
        return Some(Conflict), p;
      }
      ghost var b := EnsurePeriod(old(Snapshot()), p, r.plan.periodCap, r.periodReset);
      assert periods == b.periods && windows == b.windows[key := windows[key]] && days == b.days;
      var period := periods[p];
      if !PeriodAdmits(period, r.micro) {
        return Some(Denied(PeriodCap, period.resetAt)), p;
      }
      periods := periods[p := period.(reserved := period.reserved + r.micro)];
      if key.day !in days || !DayAdmits(days[key.day], r.micro) {
        return Some(Denied(PlatformCap, r.TargetResetAt())), p;
      }
      days := days[key.day := days[key.day].(reserved := days[key.day].reserved + r.micro)];
      ghost var drawn := Draw(old(Snapshot()), r, p);
      assert windows == drawn.windows;
      assert periods == drawn.periods && days == drawn.days;
      return None, p;
    }

    /** `reserve_budget` inside its transaction, rolled back by the caller on every exception. */
    method ReserveBudget(r: Request, seen: Option<Hold>) returns (outcome: Outcome, ghost p: PeriodKey)
      requires forall k :: k in holds ==> holds[k].window in windows
      modifies this
      ensures (Snapshot(), outcome) == Reserve(old(Snapshot()), r, seen, p)
      ensures outcome.Granted? || (outcome.Denied? && outcome.reason in {PeriodCap, PlatformCap}) ==>
                IsPeriodFor(old(Prepared(Expired(Snapshot(), r, seen), r)).periods, r, p)
    {
      p := PeriodKey(0, 0);
      var before := Snapshot();
      if r.micro <= 0 {
        return Rejected, p;
      }
      if seen.Some? {
        if seen.value.status in {Settled, Unknown} {
          return Existing(seen.value), p;
        }
        if seen.value.status == Reserved {
          if IsLive(seen.value, r.now) {
            return InFlight, p;
          }
          var raised := SettleBudget(r.key, seen.value, None, None);
          if raised {
            Rollback(before);
            return Conflict, p;
          }
        }
      }
      assert Snapshot() == Expired(before, r, seen);
      var refusal, period := ReserveHold(r);
      p := period;
      if refusal.Some? {
        Rollback(before);
        return refusal.value, p;
      }
      var row := Hold(r.Target(), period, r.micro, r.tokens, Reserved, r.now, None);
      if seen.None? {
        if r.key in holds {
          Rollback(before);
          return Conflict, p;
        }
      } else {
        if r.key !in holds || holds[r.key].status == Reserved {
          Rollback(before);
          return InFlight, p;
        }
        row := row.(createdAt := holds[r.key].createdAt);
      }
      holds := holds[r.key := row];
      journal := journal + [Took(row)];
      return Granted(row), p;
    }
  }
}
