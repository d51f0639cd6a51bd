/**
 What the budget counters mean, on every run: reserved amounts are the open holds, settled amounts are the recorded
 charges, and no cap is exceeded by more than settlements exceeded their holds.
 */
module Conservation {
  import opened Options
  import opened Sums
  import opened Budget

  /** Every guarded column pair (reserved, settled) of the schema. */
  datatype Counter =
    | Spend(window: WindowKey)
    | Tokens(window: WindowKey)
    | Billing(period: PeriodKey)
    | Platform(day: nat)

  predicate Has(b: Books, c: Counter) {
    match c
    case Spend(w) => w in b.windows
    case Tokens(w) => w in b.windows
    case Billing(p) => p in b.periods
    case Platform(d) => d in b.days
  }

  function ReservedOf(b: Books, c: Counter): int
    requires Has(b, c)
  {
    match c
    case Spend(w) => b.windows[w].reserved
    case Tokens(w) => b.windows[w].tokensReserved
    case Billing(p) => b.periods[p].reserved
    case Platform(d) => b.days[d].reserved
  }

  function SettledOf(b: Books, c: Counter): int
    requires Has(b, c)
  {
    match c
    case Spend(w) => b.windows[w].settled
    case Tokens(w) => b.windows[w].tokensSettled
    case Billing(p) => b.periods[p].settled
    case Platform(d) => b.days[d].settled
  }

  function LimitOf(b: Books, c: Counter): nat
    requires Has(b, c)
  {
    match c
    case Spend(w) => b.windows[w].spendLimit
    case Tokens(w) => b.windows[w].tokenLimit
    case Billing(p) => b.periods[p].spendLimit
    case Platform(d) => b.days[d].spendLimit
  }

  predicate DrawsOn(h: Hold, c: Counter) {
    match c
    case Spend(w) => h.window == w
    case Tokens(w) => h.window == w
    case Billing(p) => h.period == p
    case Platform(d) => h.window.day == d
  }

  /** What one hold takes from a counter. */
  function Amount(h: Hold, c: Counter): nat {
    if !DrawsOn(h, c) then 0 else if c.Tokens? then h.tokens else h.micro
  }

  // ---------- The open holds ----------

  function Weight(h: Hold, c: Counter): nat {
    if h.status == Reserved then Amount(h, c) else 0
  }

  function Weights(holds: map<HoldKey, Hold>, c: Counter): map<HoldKey, int> {
    map k | k in holds :: Weight(holds[k], c)
  }

  /** The sum over the RESERVED rows that point at a counter. */
  ghost function Held(holds: map<HoldKey, Hold>, c: Counter): int {
    Sum(Weights(holds, c))
  }

  function Opens(holds: map<HoldKey, Hold>, w: WindowKey): map<HoldKey, int> {
    map k | k in holds :: if holds[k].status == Reserved && holds[k].window == w then 1 else 0
  }

  ghost function HeldCount(holds: map<HoldKey, Hold>, w: WindowKey): int {
    Sum(Opens(holds, w))
  }

  lemma HeldUpdate(holds: map<HoldKey, Hold>, k: HoldKey, row: Hold, c: Counter)
    ensures Held(holds[k := row], c)
         == Held(holds, c) - (if k in holds then Weight(holds[k], c) else 0) + Weight(row, c)
  {
    assert Weights(holds[k := row], c) == Weights(holds, c)[k := Weight(row, c)];
    SumUpdate(Weights(holds, c), k, Weight(row, c));
  }

  function One(b: bool): nat {
    if b then 1 else 0
  }

  lemma HeldCountUpdate(holds: map<HoldKey, Hold>, k: HoldKey, row: Hold, w: WindowKey)
    ensures HeldCount(holds[k := row], w)
         == HeldCount(holds, w) - One(k in holds && holds[k].status == Reserved && holds[k].window == w)
            + One(row.status == Reserved && row.window == w)
  {
    var v := One(row.status == Reserved && row.window == w);
    assert Opens(holds[k := row], w) == Opens(holds, w)[k := v];
    SumUpdate(Opens(holds, w), k, v);
  }

  lemma HeldIsNonnegative(holds: map<HoldKey, Hold>, c: Counter, w: WindowKey)
    ensures Held(holds, c) >= 0 && HeldCount(holds, w) >= 0
  {
    SumIsNonnegative(Weights(holds, c));
    SumIsNonnegative(Opens(holds, w));
  }

  /** A counter that no row points at has nothing held. */
  lemma NothingHeld(holds: map<HoldKey, Hold>, c: Counter)
    requires forall k :: k in holds ==> !DrawsOn(holds[k], c)
    ensures Held(holds, c) == 0
    ensures c.Spend? ==> HeldCount(holds, c.window) == 0
  {
    var anyKey := HoldKey(0, 0, 0);
    SumOfSpike(Weights(holds, c), anyKey);
    if c.Spend? { SumOfSpike(Opens(holds, c.window), anyKey); }
  }

  // ---------- The journal ----------

  function ChargeIn(e: Entry, c: Counter): nat {
    if !e.Charged? || !DrawsOn(e.hold, c) then 0 else if c.Tokens? then e.tokens else e.micro
  }

  /** By how much a settlement exceeded its hold. */
  function ExcessIn(e: Entry, c: Counter): nat {
    if e.Charged? && ChargeIn(e, c) > Amount(e.hold, c) then ChargeIn(e, c) - Amount(e.hold, c) else 0
  }

  function ChargedTo(journal: seq<Entry>, c: Counter): nat {
    if journal == [] then 0 else
      ChargedTo(journal[..|journal| - 1], c) + ChargeIn(journal[|journal| - 1], c)
  }

  function Overshoot(journal: seq<Entry>, c: Counter): nat {
    if journal == [] then 0 else
      Overshoot(journal[..|journal| - 1], c) + ExcessIn(journal[|journal| - 1], c)
  }

  datatype Deed = Taking | Charging | Refunding

  predicate IsDeed(e: Entry, deed: Deed, w: WindowKey) {
    && e.hold.window == w
    && (match deed case Taking => e.Took? case Charging => e.Charged? case Refunding => e.Refunded?)
  }

  function Deeds(journal: seq<Entry>, deed: Deed, w: WindowKey): nat {
    if journal == [] then 0 else
      Deeds(journal[..|journal| - 1], deed, w) + One(IsDeed(journal[|journal| - 1], deed, w))
  }

  lemma JournalGrows(journal: seq<Entry>, e: Entry, c: Counter, w: WindowKey)
    ensures ChargedTo(journal + [e], c) == ChargedTo(journal, c) + ChargeIn(e, c)
    ensures Overshoot(journal + [e], c) == Overshoot(journal, c) + ExcessIn(e, c)
    ensures forall deed :: Deeds(journal + [e], deed, w) == Deeds(journal, deed, w) + One(IsDeed(e, deed, w))
  {
    assert (journal + [e])[..|journal|] == journal;
  }

  lemma {:induction false} NothingRecorded(journal: seq<Entry>, c: Counter)
    requires forall e :: e in journal ==> !DrawsOn(e.hold, c)
    ensures ChargedTo(journal, c) == 0
    ensures c.Spend? ==> forall deed :: Deeds(journal, deed, c.window) == 0
  {
    if journal != [] {
      NothingRecorded(journal[..|journal| - 1], c);
    }
  }

  // ---------- The invariants ----------

  /** Foreign keys, and the positivity that `reserve_budget` demands. */
  ghost predicate Referential(b: Books) {
    && (forall w :: w in b.windows ==> w.day in b.days)
    && (forall k :: k in b.holds ==> Anchored(b, b.holds[k]))
    && (forall e :: e in b.journal ==> Anchored(b, e.hold))
  }

  predicate Anchored(b: Books, h: Hold) {
    h.window in b.windows && h.period in b.periods && h.micro > 0
  }

  ghost predicate CounterExplained(b: Books, c: Counter)
    requires Has(b, c)
  {
    ReservedOf(b, c) == Held(b.holds, c) && SettledOf(b, c) == ChargedTo(b.journal, c)
  }

  ghost predicate UseExplained(b: Books, w: WindowKey)
    requires w in b.windows
  {
    && b.windows[w].everydayUsed == HeldCount(b.holds, w) + Deeds(b.journal, Charging, w)
    && b.windows[w].everydayUsed == Deeds(b.journal, Taking, w) - Deeds(b.journal, Refunding, w)
  }

  /** The books are explained: every counter is the sum of what it stands for. */
  ghost predicate Explained(b: Books) {
    && Referential(b)
    && (forall c :: Has(b, c) ==> CounterExplained(b, c))
    && (forall w :: w in b.windows ==> UseExplained(b, w))
  }

  predicate CounterCapped(b: Books, c: Counter)
    requires Has(b, c)
  {
    ReservedOf(b, c) + SettledOf(b, c) <= LimitOf(b, c) + Overshoot(b.journal, c)
  }

  ghost predicate Capped(b: Books) {
    && (forall c :: Has(b, c) ==> CounterCapped(b, c))
    && (forall w :: w in b.windows ==> b.windows[w].everydayUsed <= b.windows[w].everydayLimit)
  }

  /** The caller's copy still says what the row says. */
  predicate Matches(copy: Hold, row: Hold) {
    copy.window == row.window && copy.period == row.period && copy.micro == row.micro && copy.tokens == row.tokens
  }

  // ---------- Finishing ----------

  lemma FinishMoves(b: Books, key: HoldKey, copy: Hold, f: Finisher, c: Counter)
    requires Has(b, c) && Effective(b, key, copy, f) && copy.window in b.windows
    ensures var b' := Finish(b, key, copy, f);
            && Has(b', c) && LimitOf(b', c) == LimitOf(b, c)
            && ReservedOf(b', c) == ReservedOf(b, c) - Amount(copy, c)
            && SettledOf(b', c) == SettledOf(b, c) + ChargeIn(EntryOf(copy, f), c)
  {
  }

  lemma FinishKeepsCounter(b: Books, key: HoldKey, copy: Hold, f: Finisher, c: Counter)
    requires Has(b, c) && CounterExplained(b, c) && copy.window in b.windows
    requires Effective(b, key, copy, f) && Matches(copy, b.holds[key])
    ensures CounterExplained(Finish(b, key, copy, f), c)
  {
    FinishMoves(b, key, copy, f, c);
    HeldUpdate(b.holds, key, Closed(b.holds[key], f), c);
    JournalGrows(b.journal, EntryOf(copy, f), c, copy.window);
  }

  lemma FinishKeepsUse(b: Books, key: HoldKey, copy: Hold, f: Finisher, w: WindowKey)
    requires w in b.windows && UseExplained(b, w) && copy.window in b.windows
    requires Effective(b, key, copy, f) && Matches(copy, b.holds[key])
    ensures UseExplained(Finish(b, key, copy, f), w)
  {
    HeldCountUpdate(b.holds, key, Closed(b.holds[key], f), w);
    JournalGrows(b.journal, EntryOf(copy, f), Spend(w), w);
  }

  lemma FinishKeepsReferential(b: Books, key: HoldKey, copy: Hold, f: Finisher)
    requires Referential(b)
    requires Effective(b, key, copy, f) ==> Matches(copy, b.holds[key])
    ensures Referential(Finish(b, key, copy, f))
  {
    var b' := Finish(b, key, copy, f);
    if Effective(b, key, copy, f) {
      assert Anchored(b, b.holds[key]);
      forall k | k in b'.holds ensures Anchored(b', b'.holds[k]) {
        assert Anchored(b, b.holds[k]);
      }
      forall e | e in b'.journal ensures Anchored(b', e.hold) {
        assert e == EntryOf(copy, f) || (e in b.journal && Anchored(b, e.hold));
      }
    }
  }

  lemma FinishKeepsExplained(b: Books, key: HoldKey, copy: Hold, f: Finisher)
    requires Explained(b)
    requires Effective(b, key, copy, f) ==> Matches(copy, b.holds[key])
    ensures Explained(Finish(b, key, copy, f))
  {
    var b' := Finish(b, key, copy, f);
    FinishKeepsReferential(b, key, copy, f);
    if Effective(b, key, copy, f) {
      assert Anchored(b, b.holds[key]);
      forall c | Has(b', c) ensures CounterExplained(b', c) {
        assert Has(b, c);
        FinishKeepsCounter(b, key, copy, f, c);
      }
      forall w | w in b'.windows ensures UseExplained(b', w) {
        FinishKeepsUse(b, key, copy, f, w);
      }
    }
  }

  /** Caps need no hypothesis on the caller's copy: what it moves wrongly is recorded as moved. */
  lemma FinishKeepsCapped(b: Books, key: HoldKey, copy: Hold, f: Finisher)
    requires Capped(b)
    ensures Capped(Finish(b, key, copy, f))
  {
    var b' := Finish(b, key, copy, f);
    if b' != b {
      forall c | Has(b', c) ensures CounterCapped(b', c) {
        assert Has(b, c) && CounterCapped(b, c);
        FinishMoves(b, key, copy, f, c);
        JournalGrows(b.journal, EntryOf(copy, f), c, copy.window);
      }
    }
  }

  /**
   `settle_budget` and `release_budget` subtract the amounts in the caller's memory. The books stay explained exactly
   when the claim fails or those amounts still match the row.
   */
  lemma FinishExplainedIffCopyMatches(b: Books, key: HoldKey, copy: Hold, f: Finisher)
    requires Explained(b) && Anchored(b, copy)
    ensures Explained(Finish(b, key, copy, f)) <==> (Effective(b, key, copy, f) ==> Matches(copy, b.holds[key]))
  {
    if Effective(b, key, copy, f) && !Matches(copy, b.holds[key]) {
      var row := b.holds[key];
      var c := if copy.window != row.window || copy.micro != row.micro then Spend(copy.window)
               else if copy.period != row.period then Billing(copy.period)
               else Tokens(copy.window);
      assert CounterExplained(b, c);
      FinishUnexplains(b, key, copy, f, c);
    } else {
      FinishKeepsExplained(b, key, copy, f);
    }
  }

  /** A counter from which the copy takes another amount than the row held is no longer explained. */
  lemma FinishUnexplains(b: Books, key: HoldKey, copy: Hold, f: Finisher, c: Counter)
    requires Has(b, c) && CounterExplained(b, c)
    requires Effective(b, key, copy, f) && copy.window in b.windows
    requires Amount(copy, c) != Amount(b.holds[key], c)
    ensures Has(Finish(b, key, copy, f), c) && !CounterExplained(Finish(b, key, copy, f), c)
  {
    FinishMoves(b, key, copy, f, c);
    HeldUpdate(b.holds, key, Closed(b.holds[key], f), c);
  }

  datatype Attempt = Attempt(copy: Hold, finisher: Finisher)

  function FinishAll(b: Books, key: HoldKey, attempts: seq<Attempt>): Books
    decreases |attempts|
  {
    if attempts == [] then b else
      FinishAll(Finish(b, key, attempts[0].copy, attempts[0].finisher), key, attempts[1..])
  }

  /** Any number of finishers on one hold change the books exactly once: the first that takes effect decides. */
  lemma {:induction false} FinishedOnce(b: Books, key: HoldKey, attempts: seq<Attempt>, first: nat)
    requires first < |attempts|
    requires forall i :: 0 <= i < |attempts| ==> attempts[i].copy.window in b.windows
    requires Effective(b, key, attempts[first].copy, attempts[first].finisher)
    requires forall i :: 0 <= i < first ==> !Effective(b, key, attempts[i].copy, attempts[i].finisher)
    ensures FinishAll(b, key, attempts) == Finish(b, key, attempts[first].copy, attempts[first].finisher)
    decreases |attempts|
  {
    var b' := Finish(b, key, attempts[0].copy, attempts[0].finisher);
    if first == 0 {
      ClosedForGood(b', key, attempts[1..]);
    } else {
      FinishedOnce(b, key, attempts[1..], first - 1);
    }
  }

  lemma {:induction false} ClosedForGood(b: Books, key: HoldKey, attempts: seq<Attempt>)
    requires !IsReserved(b, key)
    ensures FinishAll(b, key, attempts) == b
    decreases |attempts|
  {
    if attempts != [] {
      ClosedForGood(b, key, attempts[1..]);
    }
  }

  // ---------- The sweep ----------

  lemma {:induction false} SweepKeepsExplained(b: Books, candidates: seq<HoldKey>, now: nat)
    requires Explained(b)
    ensures Explained(Sweep(b, candidates, now))
  {
    if candidates != [] {
      var before := Sweep(b, candidates[..|candidates| - 1], now);
      var key := candidates[|candidates| - 1];
      SweepKeepsExplained(b, candidates[..|candidates| - 1], now);
      if IsAbandoned(before, key, now) {
        FinishKeepsExplained(before, key, before.holds[key], LEASE_EXPIRED);
      }
    }
  }

  lemma {:induction false} SweepKeepsCapped(b: Books, candidates: seq<HoldKey>, now: nat)
    requires Capped(b)
    ensures Capped(Sweep(b, candidates, now))
  {
    if candidates != [] {
      var before := Sweep(b, candidates[..|candidates| - 1], now);
      var key := candidates[|candidates| - 1];
      SweepKeepsCapped(b, candidates[..|candidates| - 1], now);
      if IsAbandoned(before, key, now) {
        FinishKeepsCapped(before, key, before.holds[key], LEASE_EXPIRED);
      }
    }
  }

  ghost predicate Homed(b: Books) {
    forall k :: k in b.holds ==> b.holds[k].window in b.windows
  }

  /** Period rows, limits and resets that a transaction leaves as they are. */
  predicate SamePeriods(b: Books, b': Books) {
    b'.periods.Keys == b.periods.Keys
    && forall p :: p in b.periods ==> b'.periods[p].resetAt == b.periods[p].resetAt
                                      && b'.periods[p].spendLimit == b.periods[p].spendLimit
  }

  /** What no sweep touches: which rows there are, what a period grants, and how many uses a window has counted. */
  lemma {:induction false} SweepFrame(b: Books, candidates: seq<HoldKey>, now: nat)
    ensures var b' := Sweep(b, candidates, now);
            && SamePeriods(b, b') && (Homed(b) ==> Homed(b'))
            && b'.windows.Keys == b.windows.Keys && b'.days.Keys == b.days.Keys && b'.holds.Keys == b.holds.Keys
            && forall w :: w in b.windows ==> b'.windows[w].everydayUsed == b.windows[w].everydayUsed
  {
    if candidates != [] {
      SweepFrame(b, candidates[..|candidates| - 1], now);
    }
  }

  /** A sweep moves nothing into or out of any cap, and grants and refunds no use. */
  lemma {:induction false} SweepConserves(b: Books, candidates: seq<HoldKey>, now: nat, c: Counter)
    requires Has(b, c) && forall k :: k in b.holds ==> b.holds[k].window in b.windows
    ensures var b' := Sweep(b, candidates, now);
            && Has(b', c) && LimitOf(b', c) == LimitOf(b, c)
            && ReservedOf(b', c) + SettledOf(b', c) == ReservedOf(b, c) + SettledOf(b, c)
            && b'.windows.Keys == b.windows.Keys && b'.periods.Keys == b.periods.Keys && b'.days.Keys == b.days.Keys
            && (forall w :: w in b.windows ==> b'.windows[w].everydayUsed == b.windows[w].everydayUsed)
            && (forall k :: k in b'.holds ==> b'.holds[k].window in b'.windows)
  {
    if candidates != [] {
      SweepConserves(b, candidates[..|candidates| - 1], now, c);
      var before := Sweep(b, candidates[..|candidates| - 1], now);
      var key := candidates[|candidates| - 1];
      if IsAbandoned(before, key, now) {
        FinishMoves(before, key, before.holds[key], LEASE_EXPIRED, c);
      }
    }
  }

  /** A sweep closes exactly the candidates whose lease has expired, as unknown, and touches no other row. */
  lemma {:induction false} SweepTouchesOnlyAbandoned(b: Books, candidates: seq<HoldKey>, now: nat, key: HoldKey)
    requires forall k :: k in b.holds ==> b.holds[k].window in b.windows
    ensures var b' := Sweep(b, candidates, now);
            && (key in b'.holds <==> key in b.holds)
            && (key in b.holds ==>
                  b'.holds[key] == (if key in candidates && IsAbandoned(b, key, now)
                                    then Closed(b.holds[key], LEASE_EXPIRED) else b.holds[key]))
            && b'.windows.Keys == b.windows.Keys
            && (forall k :: k in b'.holds ==> b'.holds[k].window in b'.windows)
  {
    if candidates != [] {
      SweepTouchesOnlyAbandoned(b, candidates[..|candidates| - 1], now, key);
      assert candidates == candidates[..|candidates| - 1] + [candidates[|candidates| - 1]];
    }
  }

  // ---------- Reserving ----------

  lemma EnsureWindowKeeps(b: Books, w: WindowKey, plan: Plan, dayLimit: nat)
    ensures Explained(b) ==> Explained(EnsureWindow(b, w, plan, dayLimit))
    ensures Capped(b) ==> Capped(EnsureWindow(b, w, plan, dayLimit))
  {
    var b' := EnsureWindow(b, w, plan, dayLimit);
    if Explained(b) {
      forall c | Has(b', c) ensures CounterExplained(b', c) {
        if Has(b, c) {
          assert CounterExplained(b, c);
        } else {
          forall k | k in b.holds ensures !DrawsOn(b.holds[k], c) { assert Anchored(b, b.holds[k]); }
          forall e | e in b.journal ensures !DrawsOn(e.hold, c) { assert Anchored(b, e.hold); }
          NothingHeld(b.holds, c);
          NothingRecorded(b.journal, c);
        }
      }
      forall v | v in b'.windows ensures UseExplained(b', v) {
        if v in b.windows {
          assert UseExplained(b, v);
        } else {
          var c := Spend(v);
          forall k | k in b.holds ensures !DrawsOn(b.holds[k], c) { assert Anchored(b, b.holds[k]); }
          forall e | e in b.journal ensures !DrawsOn(e.hold, c) { assert Anchored(b, e.hold); }
          NothingHeld(b.holds, c);
          NothingRecorded(b.journal, c);
        }
      }
      forall k | k in b'.holds ensures Anchored(b', b'.holds[k]) { assert Anchored(b, b.holds[k]); }
      forall e | e in b'.journal ensures Anchored(b', e.hold) { assert Anchored(b, e.hold); }
    }
    if Capped(b) {
      forall c | Has(b', c) ensures CounterCapped(b', c) {
        assert Has(b, c) ==> CounterCapped(b, c);
      }
    }
  }

  lemma EnsurePeriodKeeps(b: Books, p: PeriodKey, cap: nat, resetAt: int)
    ensures Explained(b) ==> Explained(EnsurePeriod(b, p, cap, resetAt))
    ensures Capped(b) ==> Capped(EnsurePeriod(b, p, cap, resetAt))
  {
    var b' := EnsurePeriod(b, p, cap, resetAt);
    if Explained(b) {
      forall c | Has(b', c) ensures CounterExplained(b', c) {
        if Has(b, c) {
          assert CounterExplained(b, c);
        } else {
          forall k | k in b.holds ensures !DrawsOn(b.holds[k], c) { assert Anchored(b, b.holds[k]); }
          forall e | e in b.journal ensures !DrawsOn(e.hold, c) { assert Anchored(b, e.hold); }
          NothingHeld(b.holds, c);
          NothingRecorded(b.journal, c);
        }
      }
      forall v | v in b'.windows ensures UseExplained(b', v) { assert UseExplained(b, v); }
      forall k | k in b'.holds ensures Anchored(b', b'.holds[k]) { assert Anchored(b, b.holds[k]); }
      forall e | e in b'.journal ensures Anchored(b', e.hold) { assert Anchored(b, e.hold); }
    }
    if Capped(b) {
      forall c | Has(b', c) ensures CounterCapped(b', c) {
        assert Has(b, c) ==> CounterCapped(b, c);
      }
    }
  }

  lemma PreparedKeeps(b: Books, r: Request)
    ensures Explained(b) ==> Explained(Prepared(b, r))
    ensures Capped(b) ==> Capped(Prepared(b, r))
  {
    EnsureWindowKeeps(b, r.Target(), r.plan, r.dayLimit);
    var b' := EnsureWindow(b, r.Target(), r.plan, r.dayLimit);
    if Explained(b) { SweepKeepsExplained(b', FirstFew(r.candidates, SWEEP_LIMIT), r.now); }
    if Capped(b) { SweepKeepsCapped(b', FirstFew(r.candidates, SWEEP_LIMIT), r.now); }
  }

  /** A row that draws what the request asks for, from the counters the request was granted. */
  predicate IsRowOf(row: Hold, r: Request, p: PeriodKey) {
    row.status == Reserved && row.window == r.Target() && row.period == p && row.micro == r.micro && row.tokens == r.tokens
  }

  lemma TakeMoves(b: Books, r: Request, p: PeriodKey, row: Hold, c: Counter)
    requires r.Target() in b.windows && r.Target().day in b.days && p in b.periods
    requires IsRowOf(row, r, p)
    ensures var b' := Take(b, r, p, row);
            && (Has(b', c) <==> Has(b, c))
            && (Has(b, c) ==>
                  && LimitOf(b', c) == LimitOf(b, c)
                  && ReservedOf(b', c) == ReservedOf(b, c) + Amount(row, c)
                  && SettledOf(b', c) == SettledOf(b, c))
  {
  }

  lemma TakeKeepsExplained(b: Books, r: Request, p: PeriodKey, row: Hold)
    requires Explained(b) && r.micro > 0
    requires r.Target() in b.windows && p in b.periods
    requires IsRowOf(row, r, p) && !IsReserved(b, r.key)
    ensures Explained(Take(b, r, p, row))
  {
    var b' := Take(b, r, p, row);
    forall c | Has(b', c) ensures CounterExplained(b', c) {
      TakeMoves(b, r, p, row, c);
      assert CounterExplained(b, c);
      HeldUpdate(b.holds, r.key, row, c);
      JournalGrows(b.journal, Took(row), c, row.window);
    }
    forall w | w in b'.windows ensures UseExplained(b', w) {
      assert UseExplained(b, w);
      HeldCountUpdate(b.holds, r.key, row, w);
      JournalGrows(b.journal, Took(row), Spend(w), w);
    }
    TakeKeepsReferential(b, r, p, row);
  }

  lemma TakeKeepsReferential(b: Books, r: Request, p: PeriodKey, row: Hold)
    requires Referential(b) && r.micro > 0
    requires r.Target() in b.windows && p in b.periods && IsRowOf(row, r, p)
    ensures Referential(Take(b, r, p, row))
  {
    var b' := Take(b, r, p, row);
    forall k | k in b'.holds ensures Anchored(b', b'.holds[k]) { assert k == r.key || Anchored(b, b.holds[k]); }
    forall e | e in b'.journal ensures Anchored(b', e.hold) { assert e == Took(row) || (e in b.journal && Anchored(b, e.hold)); }
  }

  lemma TakeKeepsCapped(b: Books, r: Request, p: PeriodKey, row: Hold)
    requires Capped(b) && p in b.periods && Verdict(b, r, p).None?
    requires IsRowOf(row, r, p)
    ensures Capped(Take(b, r, p, row))
  {
    var b' := Take(b, r, p, row);
    forall c | Has(b', c) ensures CounterCapped(b', c) {
      TakeMoves(b, r, p, row, c);
      assert CounterCapped(b, c);
      JournalGrows(b.journal, Took(row), c, row.window);
    }
  }

  /** Creating the period first and then taking is the same as taking. */
  lemma TakeAfterEnsure(b: Books, r: Request, p: PeriodKey, row: Hold)
    requires Verdict(b, r, p).None?
    ensures var b' := EnsurePeriod(b, p, r.plan.periodCap, r.periodReset);
            && p in b'.periods && Verdict(b', r, p).None? && Take(b', r, p, row) == Take(b, r, p, row)
            && (IsReserved(b', r.key) <==> IsReserved(b, r.key))
  {
  }

  lemma ReserveKeepsExplained(b: Books, r: Request, seen: Option<Hold>, p: PeriodKey)
    requires Explained(b)
    requires seen.Some? && Effective(b, r.key, seen.value, LEASE_EXPIRED) ==> Matches(seen.value, b.holds[r.key])
    ensures Explained(Reserve(b, r, seen, p).0)
  {
    var (after, outcome) := Reserve(b, r, seen, p);
    if outcome.Granted? {
      var b0 := Expired(b, r, seen);
      if seen.Some? { FinishKeepsExplained(b, r.key, seen.value, LEASE_EXPIRED); }
      PreparedKeeps(b0, r);
      ReserveTakes(b, r, seen, p);
      var b1 := Prepared(b0, r);
      EnsurePeriodKeeps(b1, p, r.plan.periodCap, r.periodReset);
      TakeAfterEnsure(b1, r, p, outcome.hold);
      TakeKeepsExplained(EnsurePeriod(b1, p, r.plan.periodCap, r.periodReset), r, p, outcome.hold);
    }
  }

  lemma ReserveKeepsCapped(b: Books, r: Request, seen: Option<Hold>, p: PeriodKey)
    requires Capped(b)
    ensures Capped(Reserve(b, r, seen, p).0)
  {
    var (after, outcome) := Reserve(b, r, seen, p);
    if outcome.Granted? {
      var b0 := Expired(b, r, seen);
      if seen.Some? { FinishKeepsCapped(b, r.key, seen.value, LEASE_EXPIRED); }
      PreparedKeeps(b0, r);
      ReserveTakes(b, r, seen, p);
      var b1 := Prepared(b0, r);
      EnsurePeriodKeeps(b1, p, r.plan.periodCap, r.periodReset);
      TakeAfterEnsure(b1, r, p, outcome.hold);
      TakeKeepsCapped(EnsurePeriod(b1, p, r.plan.periodCap, r.periodReset), r, p, outcome.hold);
    }
  }

  /** A granted reservation takes one RESERVED row that asks for exactly the request, from a state where none was open. */
  lemma ReserveTakes(b: Books, r: Request, seen: Option<Hold>, p: PeriodKey)
    requires Reserve(b, r, seen, p).1.Granted?
    ensures var (after, outcome) := Reserve(b, r, seen, p);
            var b1 := Prepared(Expired(b, r, seen), r);
            && Verdict(b1, r, p).None?
            && IsRowOf(outcome.hold, r, p) && !IsReserved(b1, r.key)
            && after == Take(b1, r, p, outcome.hold)
  {
    SweepFrame(EnsureWindow(Expired(b, r, seen), r.Target(), r.plan, r.dayLimit), FirstFew(r.candidates, SWEEP_LIMIT), r.now);
  }

  /** A reservation that is not granted leaves the books alone. */
  lemma OnlyGrantsChange(b: Books, r: Request, seen: Option<Hold>, p: PeriodKey)
    ensures var (b', outcome) := Reserve(b, r, seen, p);
            && (!outcome.Granted? ==> b' == b)
            && (outcome.Existing? ==> seen == Some(outcome.hold) && outcome.hold.status in {Settled, Unknown})
            && (outcome.Granted? && seen.Some? ==>
                  seen.value.status == Released || (seen.value.status == Reserved && !IsLive(seen.value, r.now)))
  {
  }

  // ---------- Every run ----------

  datatype Step =
    | Reserving(request: Request, seen: Option<Hold>, period: PeriodKey)
    | Finishing(key: HoldKey, copy: Hold, finisher: Finisher)

  /** A committed transaction, whatever its caller believes; refusals leave no trace. */
  function Next(b: Books, s: Step): Books {
    match s
    case Reserving(r, seen, p) => Reserve(b, r, seen, p).0
    case Finishing(key, copy, f) => Finish(b, key, copy, f)
  }

  function After(run: seq<Step>): Books {
    if run == [] then NEW_BOOKS else Next(After(run[..|run| - 1]), run[|run| - 1])
  }

  /** If this transaction closes a hold, it does so with a copy that matches the row. */
  predicate Faithful(b: Books, s: Step) {
    match s
    case Reserving(r, seen, _) =>
      seen.Some? && Effective(b, r.key, seen.value, LEASE_EXPIRED) ==> Matches(seen.value, b.holds[r.key])
    case Finishing(key, copy, f) =>
      Effective(b, key, copy, f) ==> Matches(copy, b.holds[key])
  }

  predicate AlwaysFaithful(run: seq<Step>) {
    run == [] || (AlwaysFaithful(run[..|run| - 1]) && Faithful(After(run[..|run| - 1]), run[|run| - 1]))
  }

  /** In any interleaving of transactions whose copies match, every counter is the sum of what it stands for. */
  lemma {:induction false} BooksAreExplained(run: seq<Step>)
    requires AlwaysFaithful(run)
    ensures Explained(After(run))
  {
    if run == [] {
      assert forall c :: !Has(NEW_BOOKS, c);
    } else {
      var b, s := After(run[..|run| - 1]), run[|run| - 1];
      BooksAreExplained(run[..|run| - 1]);
      match s
      case Reserving(r, seen, p) =>
        ReserveKeepsExplained(b, r, seen, p);
      case Finishing(key, copy, f) =>
        FinishKeepsExplained(b, key, copy, f);
    }
  }

  /** On every run, faithful or not, no cap is passed by more than settlements exceeded their holds. */
  lemma {:induction false} CapsHold(run: seq<Step>)
    ensures Capped(After(run))
  {
    if run == [] {
      assert forall c :: !Has(NEW_BOOKS, c);
    } else {
      var b, s := After(run[..|run| - 1]), run[|run| - 1];
      CapsHold(run[..|run| - 1]);
      match s
      case Reserving(r, seen, p) =>
        ReserveKeepsCapped(b, r, seen, p);
      case Finishing(key, copy, f) =>
        FinishKeepsCapped(b, key, copy, f);
    }
  }

  /** A request count never goes below zero, and no reserved amount does. */
  lemma NothingGoesNegative(run: seq<Step>, c: Counter, w: WindowKey)
    requires AlwaysFaithful(run) && Has(After(run), c) && w in After(run).windows
    ensures 0 <= ReservedOf(After(run), c) && 0 <= SettledOf(After(run), c)
    ensures 0 <= After(run).windows[w].everydayUsed <= After(run).windows[w].everydayLimit
  {
    BooksAreExplained(run);
    CapsHold(run);
    HeldIsNonnegative(After(run).holds, c, w);
    assert CounterExplained(After(run), c) && UseExplained(After(run), w);
  }

  // ---------- A day is the sum of its windows ----------

  function OfDay(b: Books, d: nat, settled: bool): map<WindowKey, int> {
    map w | w in b.windows :: if w.day != d then 0 else if settled then b.windows[w].settled else b.windows[w].reserved
  }

  ghost predicate DayBalanced(b: Books, d: nat)
    requires d in b.days
  {
    b.days[d].reserved == Sum(OfDay(b, d, false)) && b.days[d].settled == Sum(OfDay(b, d, true))
  }

  ghost predicate Balanced(b: Books) {
    (forall w :: w in b.windows ==> w.day in b.days) && forall d :: d in b.days ==> DayBalanced(b, d)
  }

  function AmountIn(w: Window, settled: bool): int { if settled then w.settled else w.reserved }

  /** Changing one window moves the sum of its own day, and of no other. */
  lemma SumOfDayMoves(b: Books, b': Books, w: WindowKey, d: nat, settled: bool)
    requires w in b.windows && b'.windows.Keys == b.windows.Keys
    requires forall v :: v in b.windows && v != w ==> b'.windows[v] == b.windows[v]
    ensures Sum(OfDay(b', d, settled)) == Sum(OfDay(b, d, settled))
              + (if w.day == d then AmountIn(b'.windows[w], settled) - AmountIn(b.windows[w], settled) else 0)
  {
    var v := if w.day == d then AmountIn(b'.windows[w], settled) else 0;
    assert OfDay(b', d, settled) == OfDay(b, d, settled)[w := v];
    SumUpdate(OfDay(b, d, settled), w, v);
  }

  /** The days outside `w` are as they were, and its own day moved by what `w` moved by. */
  predicate DayFollows(b: Books, b': Books, w: WindowKey)
    requires w in b.windows && w in b'.windows && w.day in b.days && w.day in b'.days
  {
    && (forall d :: d in b.days && d != w.day ==> d in b'.days && b'.days[d] == b.days[d])
    && b'.days[w.day].reserved - b.days[w.day].reserved == b'.windows[w].reserved - b.windows[w].reserved
    && b'.days[w.day].settled - b.days[w.day].settled == b'.windows[w].settled - b.windows[w].settled
  }

  lemma MovingKeepsBalance(b: Books, b': Books, w: WindowKey)
    requires Balanced(b) && w in b.windows
    requires b'.windows.Keys == b.windows.Keys && b'.days.Keys == b.days.Keys && DayFollows(b, b', w)
    requires forall v :: v in b.windows && v != w ==> b'.windows[v] == b.windows[v]
    ensures Balanced(b')
  {
    forall d | d in b'.days ensures DayBalanced(b', d) {
      assert DayBalanced(b, d);
      SumOfDayMoves(b, b', w, d, false);
      SumOfDayMoves(b, b', w, d, true);
    }
  }

  lemma FinishKeepsBalance(b: Books, key: HoldKey, copy: Hold, f: Finisher)
    requires Balanced(b)
    ensures Balanced(Finish(b, key, copy, f))
  {
    if Effective(b, key, copy, f) && copy.window in b.windows {
      FinishMovesItsDay(b, key, copy, f);
      MovingKeepsBalance(b, Finish(b, key, copy, f), copy.window);
    }
  }

  lemma FinishMovesItsDay(b: Books, key: HoldKey, copy: Hold, f: Finisher)
    requires Effective(b, key, copy, f) && copy.window in b.windows && copy.window.day in b.days
    ensures var b' := Finish(b, key, copy, f);
            && b'.windows.Keys == b.windows.Keys && b'.days.Keys == b.days.Keys && DayFollows(b, b', copy.window)
            && forall v :: v in b.windows && v != copy.window ==> b'.windows[v] == b.windows[v]
  {
  }

  lemma {:induction false} SweepKeepsBalance(b: Books, candidates: seq<HoldKey>, now: nat)
    requires Balanced(b)
    ensures Balanced(Sweep(b, candidates, now))
  {
    if candidates != [] {
      var before, key := Sweep(b, candidates[..|candidates| - 1], now), candidates[|candidates| - 1];
      SweepKeepsBalance(b, candidates[..|candidates| - 1], now);
      if IsAbandoned(before, key, now) {
        FinishKeepsBalance(before, key, before.holds[key], LEASE_EXPIRED);
      }
    }
  }

  lemma EmptyWindowAddsNothing(b: Books, w: WindowKey, plan: Plan, dayLimit: nat, d: nat, settled: bool)
    ensures Sum(OfDay(EnsureWindow(b, w, plan, dayLimit), d, settled)) == Sum(OfDay(b, d, settled))
  {
    var b' := EnsureWindow(b, w, plan, dayLimit);
    if w in b.windows {
      assert OfDay(b', d, settled) == OfDay(b, d, settled);
    } else {
      assert OfDay(b', d, settled) == OfDay(b, d, settled)[w := 0];
      SumUpdate(OfDay(b, d, settled), w, 0);
    }
  }

  lemma NewDayIsEmpty(b: Books, d: nat, settled: bool)
    requires forall w :: w in b.windows ==> w.day != d
    ensures Sum(OfDay(b, d, settled)) == 0
  {
    SumOfSpike(OfDay(b, d, settled), WindowKey(0, d));
  }

  /** A new window and a new day start empty. */
  lemma EnsureWindowKeepsBalance(b: Books, w: WindowKey, plan: Plan, dayLimit: nat)
    requires Balanced(b)
    ensures Balanced(EnsureWindow(b, w, plan, dayLimit))
  {
    var b' := EnsureWindow(b, w, plan, dayLimit);
    forall d | d in b'.days ensures DayBalanced(b', d) {
      EmptyWindowAddsNothing(b, w, plan, dayLimit, d, false);
      EmptyWindowAddsNothing(b, w, plan, dayLimit, d, true);
      if d in b.days {
        assert DayBalanced(b, d);
      } else {
        NewDayIsEmpty(b, d, false);
        NewDayIsEmpty(b, d, true);
      }
    }
  }

  lemma TakeKeepsBalance(b: Books, r: Request, p: PeriodKey, row: Hold)
    requires Balanced(b) && r.Target() in b.windows
    ensures Balanced(Take(b, r, p, row))
  {
    MovingKeepsBalance(b, Take(b, r, p, row), r.Target());
  }

  lemma PreparedKeepsBalance(b: Books, r: Request)
    requires Balanced(b)
    ensures Balanced(Prepared(b, r))
  {
    EnsureWindowKeepsBalance(b, r.Target(), r.plan, r.dayLimit);
    SweepKeepsBalance(EnsureWindow(b, r.Target(), r.plan, r.dayLimit), FirstFew(r.candidates, SWEEP_LIMIT), r.now);
  }

  lemma ReserveKeepsBalance(b: Books, r: Request, seen: Option<Hold>, p: PeriodKey)
    requires Balanced(b)
    ensures Balanced(Reserve(b, r, seen, p).0)
  {
    OnlyGrantsChange(b, r, seen, p);
    if Reserve(b, r, seen, p).1.Granted? {
      if seen.Some? { FinishKeepsBalance(b, r.key, seen.value, LEASE_EXPIRED); }
      PreparedKeepsBalance(Expired(b, r, seen), r);
      ReserveTakes(b, r, seen, p);
      TakeKeepsBalance(Prepared(Expired(b, r, seen), r), r, p, Reserve(b, r, seen, p).1.hold);
    }
  }

  lemma {:induction false} EveryRunIsBalanced(run: seq<Step>)
    ensures Balanced(After(run))
  {
    if run != [] {
      var b, s := After(run[..|run| - 1]), run[|run| - 1];
      EveryRunIsBalanced(run[..|run| - 1]);
      match s
      case Reserving(r, seen, p) => ReserveKeepsBalance(b, r, seen, p);
      case Finishing(key, copy, f) => FinishKeepsBalance(b, key, copy, f);
    }
  }

  /** On every run, matching copies or not, a platform day's reserved and settled amounts are the sums over its windows. */
  lemma DayIsSumOfWindows(run: seq<Step>, d: nat)
    requires d in After(run).days
    ensures After(run).days[d].reserved == Sum(OfDay(After(run), d, false))
    ensures After(run).days[d].settled == Sum(OfDay(After(run), d, true))
  {
    EveryRunIsBalanced(run);
    assert DayBalanced(After(run), d);
  }
}
