/**
 Civil dates and the monthly billing periods of a subscription.

 Dates are proleptic Gregorian. Instants are whole seconds counted from midnight of 1 January of year 0,
 so `instant / DAY_SECONDS` numbers the days that the daily windows are keyed by.
 */
module Calendar {

  const DAY_SECONDS := 86_400

  datatype Date = Date(year: int, month: int, day: int)

  predicate IsLeap(year: int) {
    year % 4 == 0 && (year % 100 != 0 || year % 400 == 0)
  }

  /** The second component of Python's `calendar.monthrange`. */
  function MonthLength(year: int, month: int): (n: int)
    requires 1 <= month <= 12
    ensures 28 <= n <= 31
  {
    if month == 2 then (if IsLeap(year) then 29 else 28)
    else if month in {4, 6, 9, 11} then 30
    else 31
  }

  predicate Valid(d: Date) {
    1 <= d.month <= 12 && 1 <= d.day <= MonthLength(d.year, d.month)
  }

  predicate Before(a: Date, b: Date) {
    || a.year < b.year
    || (a.year == b.year && a.month < b.month)
    || (a.year == b.year && a.month == b.month && a.day < b.day)
  }

  function Min(a: int, b: int): int {
    if a <= b then a else b
  }

  // ---------- The period of a subscription ----------

  datatype Span = Span(start: Date, reset: Date)

  predicate Inside(s: Span, today: Date) {
    !Before(today, s.start) && Before(today, s.reset)
  }

  /** The anniversary of `anchor` in one month, clamped to the last day of a short month. */
  function StartOf(anchor: Date, year: int, month: int): Date
    requires 1 <= month <= 12
  {
    Date(year, month, Min(anchor.day, MonthLength(year, month)))
  }

  /** The billing period that `today` falls into. */
  function SubscriptionPeriod(anchor: Date, today: Date): Span
    requires Valid(anchor) && Valid(today)
  {
    var thisMonth := StartOf(anchor, today.year, today.month);
    var start :=
      if !Before(today, thisMonth) then thisMonth
      else if today.month == 1 then StartOf(anchor, today.year - 1, 12)
      else StartOf(anchor, today.year, today.month - 1);
    var reset :=
      if start.month == 12 then StartOf(anchor, start.year + 1, 1)
      else StartOf(anchor, start.year, start.month + 1);
    Span(start, reset)
  }

  // ---------- An independent description: the sequence of anniversaries ----------

  /** Months numbered consecutively across years. */
  function MonthNumber(d: Date): int {
    12 * d.year + d.month - 1
  }

  /** The `k`-th anniversary, one for every month number. */
  function Anniversary(anchor: Date, k: int): Date {
    StartOf(anchor, k / 12, k % 12 + 1)
  }

  lemma AnniversariesIncrease(anchor: Date, j: int, k: int)
    requires Valid(anchor) && j < k
    ensures Valid(Anniversary(anchor, j))
    ensures Before(Anniversary(anchor, j), Anniversary(anchor, k))
  {
    MonthNumberOrders(Anniversary(anchor, j), Anniversary(anchor, k));
  }

  lemma MonthNumberOrders(a: Date, b: Date)
    requires 1 <= a.month <= 12 && 1 <= b.month <= 12
    ensures MonthNumber(a) < MonthNumber(b) ==> Before(a, b)
    ensures MonthNumber(a) == MonthNumber(b) ==> a.year == b.year && a.month == b.month
  {
    if MonthNumber(a) < MonthNumber(b) && a.year >= b.year {
      assert a.year == b.year;
    }
  }

  /** The computed period is the gap between two consecutive anniversaries that holds `today`. */
  lemma PeriodIsTheGap(anchor: Date, today: Date) returns (k: int)
    requires Valid(anchor) && Valid(today)
    ensures SubscriptionPeriod(anchor, today) == Span(Anniversary(anchor, k), Anniversary(anchor, k + 1))
    ensures Inside(SubscriptionPeriod(anchor, today), today)
  {
    var m := MonthNumber(today);
    assert m / 12 == today.year && m % 12 + 1 == today.month;
    k := if Before(today, StartOf(anchor, today.year, today.month)) then m - 1 else m;
    MonthNumberOrders(today, Anniversary(anchor, k + 1));
    MonthNumberOrders(Anniversary(anchor, k), today);
  }

  /** Periods tile the timeline: every date inside a period, and no date outside it, has that period. */
  lemma PeriodsTile(anchor: Date, today: Date, other: Date)
    requires Valid(anchor) && Valid(today) && Valid(other)
    ensures Inside(SubscriptionPeriod(anchor, today), other)
            <==> SubscriptionPeriod(anchor, other) == SubscriptionPeriod(anchor, today)
  {
    var j := PeriodIsTheGap(anchor, today);
    var k := PeriodIsTheGap(anchor, other);
    if j < k {
      AnniversariesIncrease(anchor, j, k);
      if j + 1 < k { AnniversariesIncrease(anchor, j + 1, k); }
    } else if k < j {
      AnniversariesIncrease(anchor, k, j);
      if k + 1 < j { AnniversariesIncrease(anchor, k + 1, j); }
    }
  }

  /** The period found at a reset starts at that reset: no date lies between two periods. */
  lemma PeriodAtReset(anchor: Date, today: Date)
    requires Valid(anchor) && Valid(today)
    ensures Valid(SubscriptionPeriod(anchor, today).reset)
    ensures SubscriptionPeriod(anchor, SubscriptionPeriod(anchor, today).reset).start
         == SubscriptionPeriod(anchor, today).reset
  {
    var k := PeriodIsTheGap(anchor, today);
    var reset := SubscriptionPeriod(anchor, today).reset;
    AnniversariesIncrease(anchor, k + 1, k + 2);
    var j := PeriodIsTheGap(anchor, reset);
    if j < k + 1 {
      if j + 1 < k + 1 { AnniversariesIncrease(anchor, j + 1, k + 1); }
    } else if k + 1 < j {
      AnniversariesIncrease(anchor, k + 1, j);
    }
  }

  // ---------- What a period is, without the code's own construction ----------

  /** A month's anniversary: the anchor's own day when the month has it, and the last day of the month otherwise. */
  predicate CarriesDayOf(anchor: Date, d: Date) {
    && 1 <= d.month <= 12
    && d.day == (if anchor.day <= MonthLength(d.year, d.month) then anchor.day else MonthLength(d.year, d.month))
  }

  /** Two anniversaries in consecutive months with `today` between them. */
  predicate IsPeriodOf(anchor: Date, today: Date, s: Span) {
    && CarriesDayOf(anchor, s.start) && CarriesDayOf(anchor, s.reset)
    && MonthNumber(s.reset) == MonthNumber(s.start) + 1
    && Inside(s, today)
  }

  /** The computed period is such a span, it is the only one, and the first period starts at the anchor itself. */
  lemma PeriodIsTheOnlySuchSpan(anchor: Date, today: Date, s: Span)
    requires Valid(anchor) && Valid(today)
    ensures s == SubscriptionPeriod(anchor, today) <==> IsPeriodOf(anchor, today, s)
    ensures SubscriptionPeriod(anchor, anchor).start == anchor
  {
    var k := PeriodIsTheGap(anchor, today);
    MonthOfAnniversary(anchor, k);
    MonthOfAnniversary(anchor, k + 1);
    if IsPeriodOf(anchor, today, s) {
      var j := MonthNumber(s.start);
      OnlyAnniversary(anchor, s.start);
      OnlyAnniversary(anchor, s.reset);
      GapsAreDisjoint(anchor, today, j, k);
    }
  }

  lemma MonthOfAnniversary(anchor: Date, k: int)
    requires Valid(anchor)
    ensures MonthNumber(Anniversary(anchor, k)) == k && CarriesDayOf(anchor, Anniversary(anchor, k))
  {
  }

  lemma OnlyAnniversary(anchor: Date, d: Date)
    requires CarriesDayOf(anchor, d)
    ensures d == Anniversary(anchor, MonthNumber(d))
  {
    assert MonthNumber(d) / 12 == d.year && MonthNumber(d) % 12 + 1 == d.month;
  }

  /** Only one gap holds a date. */
  lemma GapsAreDisjoint(anchor: Date, today: Date, j: int, k: int)
    requires Valid(anchor)
    requires Inside(Span(Anniversary(anchor, j), Anniversary(anchor, j + 1)), today)
    requires Inside(Span(Anniversary(anchor, k), Anniversary(anchor, k + 1)), today)
    ensures j == k
  {
    if j + 1 < k {
      AnniversariesIncrease(anchor, j + 1, k);
    } else if k + 1 < j {
      AnniversariesIncrease(anchor, k + 1, j);
    }
  }

  // ---------- Instants ----------

  /** Days in the months before month number `m`. */
  function DaysBeforeMonth(m: int): int
    decreases if m < 0 then -m else m
  {
    if m == 0 then 0
    else if m > 0 then DaysBeforeMonth(m - 1) + MonthLength((m - 1) / 12, (m - 1) % 12 + 1)
    else DaysBeforeMonth(m + 1) - MonthLength(m / 12, m % 12 + 1)
  }

  function DayNumber(d: Date): int {
    DaysBeforeMonth(MonthNumber(d)) + d.day - 1
  }

  function NextDay(d: Date): Date
    requires Valid(d)
  {
    if d.day < MonthLength(d.year, d.month) then Date(d.year, d.month, d.day + 1)
    else if d.month == 12 then Date(d.year + 1, 1, 1)
    else Date(d.year, d.month + 1, 1)
  }

  function DateOf(day: nat): (d: Date)
    ensures Valid(d) && DayNumber(d) == day
  {
    if day == 0 then Date(0, 1, 1) else
      var d := DateOf(day - 1);
      MonthStep(MonthNumber(d));
      assert MonthNumber(d) / 12 == d.year && MonthNumber(d) % 12 + 1 == d.month;
      NextDay(d)
  }

  lemma MonthStep(m: int)
    ensures DaysBeforeMonth(m + 1) == DaysBeforeMonth(m) + MonthLength(m / 12, m % 12 + 1)
  {
  }

  /** The days from 1 March of year 0 to the first of a month, in closed form; years begin in March. */
  function DaysFromMarch(m: int): int {
    var year, month := (m - 2) / 12, (m - 2) % 12;
    365 * year + year / 4 - year / 100 + year / 400 + (153 * month + 2) / 5
  }

  /** Counting month lengths agrees with the closed form of the Gregorian calendar. */
  lemma {:induction false} MonthLengthsAreGregorian(m: int)
    ensures DaysBeforeMonth(m) == DaysFromMarch(m) + 60
    decreases if m < 0 then -m else m
  {
    if m > 0 {
      MonthLengthsAreGregorian(m - 1);
      ClosedFormStep(m - 1);
    } else if m < 0 {
      MonthLengthsAreGregorian(m + 1);
      ClosedFormStep(m);
    }
  }

  lemma ClosedFormStep(m: int)
    ensures DaysFromMarch(m + 1) - DaysFromMarch(m) == MonthLength(m / 12, m % 12 + 1)
  {
    var year, month := m / 12, m % 12;
    if month == 1 {
      LeapDays(year);
      assert (m - 2) / 12 == year - 1 && (m - 1) / 12 == year;
    } else if month == 0 {
      assert (m - 2) / 12 == year - 1 && (m - 1) / 12 == year - 1;
    } else {
      assert (m - 2) / 12 == year && (m - 1) / 12 == year;
    }
  }

  /** What a year's passing adds to the count of leap days. */
  lemma LeapDays(year: int)
    ensures year / 4 - year / 100 + year / 400 - ((year - 1) / 4 - (year - 1) / 100 + (year - 1) / 400)
         == if IsLeap(year) then 1 else 0
  {
    FourthYears(year);
    Centuries(year);
    FourthCenturies(year);
    CenturiesAreFourthYears(year);
  }

  lemma FourthYears(year: int)
    ensures year / 4 - (year - 1) / 4 == if year % 4 == 0 then 1 else 0
  {
  }

  lemma Centuries(year: int)
    ensures year / 100 - (year - 1) / 100 == if year % 100 == 0 then 1 else 0
  {
  }

  lemma FourthCenturies(year: int)
    ensures year / 400 - (year - 1) / 400 == if year % 400 == 0 then 1 else 0
  {
  }

  lemma CenturiesAreFourthYears(year: int)
    ensures year % 100 == 0 ==> year % 4 == 0
    ensures year % 400 == 0 ==> year % 100 == 0
  {
  }

  lemma {:induction false} MonthsAccumulate(j: int, k: int)
    requires j < k
    ensures DaysBeforeMonth(j) + MonthLength(j / 12, j % 12 + 1) <= DaysBeforeMonth(k)
    decreases k - j
  {
    MonthStep(k - 1);
    if j < k - 1 {
      MonthsAccumulate(j, k - 1);
    }
  }

  /** Day numbers order dates exactly as the calendar does. */
  lemma DayNumberOrders(a: Date, b: Date)
    requires Valid(a) && Valid(b)
    ensures Before(a, b) <==> DayNumber(a) < DayNumber(b)
  {
    var j, k := MonthNumber(a), MonthNumber(b);
    assert j / 12 == a.year && j % 12 + 1 == a.month;
    assert k / 12 == b.year && k % 12 + 1 == b.month;
    MonthNumberOrders(a, b);
    MonthNumberOrders(b, a);
    if j < k {
      MonthsAccumulate(j, k);
    } else if k < j {
      MonthsAccumulate(k, j);
    }
  }

  /** The period holding the instant `now`, as a start day and a reset instant (midnight of the reset day). */
  function PeriodStart(anchor: Date, now: nat): int
    requires Valid(anchor)
  {
    DayNumber(SubscriptionPeriod(anchor, DateOf(now / DAY_SECONDS)).start)
  }

  function PeriodReset(anchor: Date, now: nat): int
    requires Valid(anchor)
  {
    DayNumber(SubscriptionPeriod(anchor, DateOf(now / DAY_SECONDS)).reset) * DAY_SECONDS
  }

  /** Two spans are the same, or one ends before the other starts. */
  predicate SameOrApart(s: Span, t: Span) {
    s == t || DayNumber(t.reset) <= DayNumber(s.start) || DayNumber(s.reset) <= DayNumber(t.start)
  }

  lemma GapsAreApart(anchor: Date, j: int, k: int)
    requires Valid(anchor)
    ensures SameOrApart(Span(Anniversary(anchor, j), Anniversary(anchor, j + 1)),
                        Span(Anniversary(anchor, k), Anniversary(anchor, k + 1)))
  {
    if j < k {
      GapsInOrder(anchor, j, k);
    } else if k < j {
      GapsInOrder(anchor, k, j);
    }
  }

  /** Tiling in day numbers: a day lies in its own period, and different periods do not overlap. */
  lemma DaysTile(anchor: Date, day: nat, other: nat)
    requires Valid(anchor)
    ensures var s := SubscriptionPeriod(anchor, DateOf(day)); DayNumber(s.start) <= day < DayNumber(s.reset)
    ensures SameOrApart(SubscriptionPeriod(anchor, DateOf(day)), SubscriptionPeriod(anchor, DateOf(other)))
  {
    DayIsInItsPeriod(anchor, day);
    var j := PeriodIsTheGap(anchor, DateOf(day));
    var k := PeriodIsTheGap(anchor, DateOf(other));
    GapsAreApart(anchor, j, k);
  }

  lemma DayIsInItsPeriod(anchor: Date, day: nat)
    requires Valid(anchor)
    ensures var s := SubscriptionPeriod(anchor, DateOf(day)); DayNumber(s.start) <= day < DayNumber(s.reset)
  {
    var today := DateOf(day);
    var s := SubscriptionPeriod(anchor, today);
    var j := PeriodIsTheGap(anchor, today);
    AnniversariesIncrease(anchor, j, j + 1);
    AnniversariesIncrease(anchor, j + 1, j + 2);
    DayNumberOrders(today, s.start);
    DayNumberOrders(today, s.reset);
  }

  lemma GapsInOrder(anchor: Date, j: int, k: int)
    requires Valid(anchor) && j < k
    ensures DayNumber(Anniversary(anchor, j + 1)) <= DayNumber(Anniversary(anchor, k))
  {
    if j + 1 < k {
      AnniversariesIncrease(anchor, j + 1, k);
      AnniversariesIncrease(anchor, k, k + 1);
      DayNumberOrders(Anniversary(anchor, j + 1), Anniversary(anchor, k));
    }
  }

  /** An instant has the period of `now` exactly when it lies between that period's start and its reset. */
  lemma InstantsTile(anchor: Date, now: nat, other: nat)
    requires Valid(anchor)
    ensures PeriodStart(anchor, now) * DAY_SECONDS <= now < PeriodReset(anchor, now)
    ensures PeriodStart(anchor, now) * DAY_SECONDS <= other < PeriodReset(anchor, now)
            <==> PeriodStart(anchor, other) == PeriodStart(anchor, now)
    ensures PeriodStart(anchor, other) == PeriodStart(anchor, now)
            ==> PeriodReset(anchor, other) == PeriodReset(anchor, now)
    ensures PeriodStart(anchor, other) < PeriodStart(anchor, now)
            ==> PeriodReset(anchor, other) <= PeriodStart(anchor, now) * DAY_SECONDS
  {
    DaysTile(anchor, now / DAY_SECONDS, other / DAY_SECONDS);
    DaysTile(anchor, other / DAY_SECONDS, now / DAY_SECONDS);
  }
}
