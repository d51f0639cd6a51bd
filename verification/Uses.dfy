/**
 Use counts (`everyday_used`) stay between zero and their limit although copies may be stale: every use that a request in
 flight could still give back is counted. The one exception is a handler that releases another request's hold.
 */
module Uses {
  import opened Options
  import opened Calendar
  import opened Budget
  import opened Conservation
  import opened Owners

  /** The requests in flight that took a hold in this window. */
  function Holders(w: World, v: WindowKey): set<Id> {
    set id | id in w.inFlight && w.inFlight[id].copy.status == Reserved && w.inFlight[id].copy.window == v
  }

  function UsedIn(b: Books, v: WindowKey): int {
    if v in b.windows then b.windows[v].everydayUsed else 0
  }

  /**
   The move is a handler that reads its row again and finds it open in window `v`, while its own hold was taken in another
   window: it is about to give back a use that another request took.
   */
  predicate Robs(w: World, m: Move, v: WindowKey) {
    && m.GiveUp? && Possible(w, m) && IsReserved(w.books, w.inFlight[m.id].key)
    && w.books.holds[w.inFlight[m.id].key].window == v != w.inFlight[m.id].copy.window
  }

  function Robberies(moves: seq<Move>, v: WindowKey): nat {
    if moves == [] then 0
    else
      Robberies(moves[..|moves| - 1], v)
      + One(Robs(WorldAfter(moves[..|moves| - 1]), moves[|moves| - 1], v))
  }

  /** A copy in flight is of a known window; one handed out settled belongs to a row that is closed for good. */
  predicate CopyIsKnown(w: World, id: Id)
    requires id in w.inFlight
  {
    var o := w.inFlight[id];
    && o.key in w.books.holds && o.copy.window in w.books.windows
    && (o.copy.status != Reserved ==> w.books.holds[o.key].status in {Settled, Unknown})
  }

  ghost predicate CopiesAreKnown(w: World) {
    Homed(w.books) && forall id :: id in w.inFlight ==> CopyIsKnown(w, id)
  }

  // ---------- What one move does to the uses of one window ----------

  /** The move gives back a use of window `v`. */
  predicate GivesBack(w: World, m: Move, v: WindowKey) {
    && Possible(w, m) && (m.GiveUp? || (m.Leave? && m.finisher.Release?))
    && IsReserved(w.books, w.inFlight[m.id].key)
    && v == (if m.GiveUp? then w.books.holds[w.inFlight[m.id].key].window else w.inFlight[m.id].copy.window)
  }

  /** The move takes a use of window `v`. */
  predicate Takes(w: World, m: Move, v: WindowKey) {
    m.Enter? && Possible(w, m) && Entering(w, m.request, m.period).1.Granted? && m.request.Target() == v
  }

  lemma GrantOnUses(b: Books, r: Request, seen: Option<Hold>, p: PeriodKey, v: WindowKey)
    requires Reserve(b, r, seen, p).1.Granted?
    ensures UsedIn(Reserve(b, r, seen, p).0, v) == UsedIn(b, v) + One(r.Target() == v)
    ensures v in Reserve(b, r, seen, p).0.windows <==> v in b.windows || v == r.Target()
  {
    ReserveTakes(b, r, seen, p);
    var b1 := EnsureWindow(Expired(b, r, seen), r.Target(), r.plan, r.dayLimit);
    SweepFrame(b1, FirstFew(r.candidates, SWEEP_LIMIT), r.now);
  }

  lemma UsesAfter(w: World, m: Move, v: WindowKey)
    requires Possible(w, m) && CopiesAreKnown(w)
    ensures UsedIn(Moved(w, m).books, v) == UsedIn(w.books, v) + One(Takes(w, m, v)) - One(GivesBack(w, m, v))
  {
    if m.Enter? {
      var r := m.request;
      OnlyGrantsChange(w.books, r, RowOf(w.books, r.key), m.period);
      if Entering(w, r, m.period).1.Granted? {
        GrantOnUses(w.books, r, RowOf(w.books, r.key), m.period, v);
      }
    } else {
      assert CopyIsKnown(w, m.id);
    }
  }

  /** A use count falls below zero exactly when a release gives back a use of a window that has none. */
  lemma UseGoesNegativeIff(w: World, m: Move, v: WindowKey)
    requires Possible(w, m) && CopiesAreKnown(w) && UsedIn(w.books, v) >= 0
    ensures UsedIn(Moved(w, m).books, v) < 0 <==> GivesBack(w, m, v) && UsedIn(w.books, v) == 0
  {
    UsesAfter(w, m, v);
  }

  // ---------- Copies ----------

  lemma GrantKeepsCopies(w: World, m: Move)
    requires m.Enter? && Possible(w, m) && CopiesAreKnown(w)
    requires Entering(w, m.request, m.period).1.Granted?
    ensures CopiesAreKnown(Moved(w, m))
  {
    var r, w' := m.request, Moved(w, m);
    var seen := RowOf(w.books, r.key);
    OnlyGrantsChange(w.books, r, seen, m.period);
    GrantStaysHomed(w.books, r, seen, m.period);
    forall id | id in w'.inFlight ensures CopyIsKnown(w', id) {
      if id in w.inFlight {
        assert CopyIsKnown(w, id);
        var key := w.inFlight[id].key;
        if w.inFlight[id].copy.status != Reserved {
          OtherRowsStay(w, r, m.period, key);
        }
      }
    }
  }

  lemma GrantStaysHomed(b: Books, r: Request, seen: Option<Hold>, p: PeriodKey)
    requires Homed(b) && Reserve(b, r, seen, p).1.Granted?
    ensures var (b', outcome) := Reserve(b, r, seen, p);
            && Homed(b') && b.windows.Keys <= b'.windows.Keys && b.holds.Keys <= b'.holds.Keys
            && r.key in b'.holds && b'.holds[r.key] == outcome.hold && outcome.hold.window in b'.windows
            && outcome.hold.status == Reserved && outcome.hold.window == r.Target()
  {
    ReserveTakes(b, r, seen, p);
    SweepFrame(EnsureWindow(Expired(b, r, seen), r.Target(), r.plan, r.dayLimit),
               FirstFew(r.candidates, SWEEP_LIMIT), r.now);
  }

  lemma MoveKeepsCopies(w: World, m: Move)
    requires Possible(w, m) && CopiesAreKnown(w)
    ensures CopiesAreKnown(Moved(w, m))
  {
    var w' := Moved(w, m);
    if m.Enter? {
      OnlyGrantsChange(w.books, m.request, RowOf(w.books, m.request.key), m.period);
      if Entering(w, m.request, m.period).1.Granted? {
        GrantKeepsCopies(w, m);
      } else {
        forall id | id in w'.inFlight ensures CopyIsKnown(w', id) {
          assert id in w.inFlight ==> CopyIsKnown(w, id);
        }
      }
    } else {
      assert CopyIsKnown(w, m.id);
      forall id | id in w'.inFlight ensures CopyIsKnown(w', id) {
        assert CopyIsKnown(w, id);
      }
    }
  }

  // ---------- Every run ----------

  lemma HoldersWithOneMore(w: World, w': World, id: Id, o: Owner, v: WindowKey)
    requires id !in w.inFlight && w'.inFlight == w.inFlight[id := o]
    ensures |Holders(w', v)| == |Holders(w, v)| + One(o.copy.status == Reserved && o.copy.window == v)
  {
    assert Holders(w', v) == Holders(w, v) + if o.copy.status == Reserved && o.copy.window == v then {id} else {};
  }

  /** Who is in flight after a request has entered. */
  lemma EnteringFlight(w: World, m: Move)
    requires m.Enter? && Possible(w, m)
    ensures var outcome := Entering(w, m.request, m.period).1;
            && Moved(w, m).inFlight == (if Commits(outcome) then w.inFlight[m.id := Owner(m.request.key, outcome.hold)]
                                        else w.inFlight)
            && (outcome.Granted? ==> outcome.hold.status == Reserved && outcome.hold.window == m.request.Target())
            && (outcome.Existing? ==> outcome.hold.status != Reserved)
  {
    var seen := RowOf(w.books, m.request.key);
    OnlyGrantsChange(w.books, m.request, seen, m.period);
    if Entering(w, m.request, m.period).1.Granted? { ReserveTakes(w.books, m.request, seen, m.period); }
  }

  lemma HoldersAfterEntering(w: World, m: Move, v: WindowKey)
    requires m.Enter? && Possible(w, m)
    ensures |Holders(Moved(w, m), v)| == |Holders(w, v)| + One(Takes(w, m, v))
  {
    EnteringFlight(w, m);
    var outcome, w' := Entering(w, m.request, m.period).1, Moved(w, m);
    if Commits(outcome) {
      HoldersWithOneMore(w, w', m.id, Owner(m.request.key, outcome.hold), v);
    } else {
      assert Holders(w', v) == Holders(w, v);
    }
  }

  lemma HoldersAfterLeaving(w: World, m: Move, v: WindowKey)
    requires !m.Enter? && Possible(w, m) && CopyIsKnown(w, m.id)
    ensures |Holders(Moved(w, m), v)| <= |Holders(w, v)| - One(GivesBack(w, m, v) && !Robs(w, m, v))
  {
    assert Holders(Moved(w, m), v) == Holders(w, v) - {m.id};
    assert GivesBack(w, m, v) && !Robs(w, m, v) ==> m.id in Holders(w, v);
  }

  /** On every run, a window's use count covers the requests in flight that may still give a use back, but for robberies. */
  lemma {:induction false} UsesAreBacked(moves: seq<Move>, v: WindowKey)
    ensures CopiesAreKnown(WorldAfter(moves))
    ensures UsedIn(WorldAfter(moves).books, v) + Robberies(moves, v) >= |Holders(WorldAfter(moves), v)|
  {
    if moves != [] {
      var before, m := moves[..|moves| - 1], moves[|moves| - 1];
      var w := WorldAfter(before);
      UsesAreBacked(before, v);
      if Possible(w, m) {
        MoveKeepsCopies(w, m);
        UsesAfter(w, m, v);
        if m.Enter? {
          HoldersAfterEntering(w, m, v);
        } else {
          assert CopyIsKnown(w, m.id);
          HoldersAfterLeaving(w, m, v);
        }
        assert Robs(w, m, v) ==> GivesBack(w, m, v);
      }
    }
  }

  lemma {:induction false} WorldsAreCapped(moves: seq<Move>)
    ensures Capped(WorldAfter(moves).books)
  {
    if moves == [] {
      CapsHold([]);
    } else {
      var w, m := WorldAfter(moves[..|moves| - 1]), moves[|moves| - 1];
      WorldsAreCapped(moves[..|moves| - 1]);
      if Possible(w, m) {
        match m
        case Enter(_, r, p) => ReserveKeepsCapped(w.books, r, RowOf(w.books, r.key), p);
        case Leave(id, f) => FinishKeepsCapped(w.books, w.inFlight[id].key, w.inFlight[id].copy, f);
        case GiveUp(id) =>
          var row := RowOf(w.books, w.inFlight[id].key);
          if row.Some? { FinishKeepsCapped(w.books, w.inFlight[id].key, row.value, Release); }
        case Crash(_) =>
      }
    }
  }

  /**
   On every run, with crashes and with owners however late, a use count never passes its limit, and never falls below zero
   unless a handler has given back a use of that window which another request took.
   */
  lemma UsesStayWithinLimits(moves: seq<Move>, v: WindowKey)
    requires v in WorldAfter(moves).books.windows
    ensures var w := WorldAfter(moves).books.windows[v];
            w.everydayUsed <= w.everydayLimit && (w.everydayUsed < 0 ==> Robberies(moves, v) > 0)
  {
    UsesAreBacked(moves, v);
    WorldsAreCapped(moves);
  }

  /** In particular they stay within bounds as long as every request leaves with the copy it holds, or crashes. */
  lemma {:induction false} OwnCopiesKeepUsesInBounds(moves: seq<Move>, v: WindowKey)
    requires forall i :: 0 <= i < |moves| ==> !moves[i].GiveUp?
    ensures Robberies(moves, v) == 0
    ensures v in WorldAfter(moves).books.windows ==>
              0 <= WorldAfter(moves).books.windows[v].everydayUsed <= WorldAfter(moves).books.windows[v].everydayLimit
  {
    if moves != [] {
      OwnCopiesKeepUsesInBounds(moves[..|moves| - 1], v);
    }
    if v in WorldAfter(moves).books.windows {
      UsesStayWithinLimits(moves, v);
    }
  }

  // ---------- A run on which a use count goes below zero ----------

  /**
   A row that is released or abandoned is reserved again in a new window on a new day, whenever the plan, the period and
   the platform allow it.
   */
  lemma RoomOnANewDay(b: Books, r: Request, p: PeriodKey)
    requires r.key in b.holds && b.holds[r.key].window in b.windows
    requires b.holds[r.key].status == Released || IsAbandoned(b, r.key, r.now)
    requires r.candidates == [] && r.micro > 0 && r.tokens <= r.plan.dailyTokenLimit
    requires r.Target() !in b.windows && r.Target().day !in b.days
    requires r.plan.everydayLimit > 0 && r.micro <= r.plan.requestCap * r.plan.everydayLimit && r.micro <= r.dayLimit
    requires p in b.periods && b.periods[p].resetAt > r.now && PeriodAdmits(b.periods[p], r.micro)
    ensures Reserve(b, r, RowOf(b, r.key), p).1 == Granted(Reactivated(b.holds[r.key], NewHold(r, p)))
    ensures var b' := Reserve(b, r, RowOf(b, r.key), p).0;
            && b'.days.Keys == b.days.Keys + {r.Target().day}
            && p in b'.periods && b'.periods[p].resetAt == b.periods[p].resetAt
            && b'.periods[p].spendLimit == b.periods[p].spendLimit
            && b'.periods[p].reserved + b'.periods[p].settled == b.periods[p].reserved + b.periods[p].settled + r.micro
  {
    var b0 := Expired(b, r, RowOf(b, r.key));
    var ready := EnsureWindow(b0, r.Target(), r.plan, r.dayLimit);
    assert Prepared(b0, r) == ready;
    assert Verdict(ready, r, p).None?;
  }

  const PLAN := Plan(10, 1_000, 1_000, 1_000)
  const KEY := HoldKey(1, 7, 0)
  const PERIOD := PeriodKey(1, 0)
  const RESET := 31 * DAY_SECONDS

  /** The same request, sent again on day `d`. */
  function OnDay(d: nat): Request
    requires d < 31
  {
    Call(KEY, PLAN, 5_000, 100, 0, d * DAY_SECONDS, 0, RESET, [])
  }

  /**
   The first attempt stalls; the second reclaims and reserves on the next day; the first one's handler releases what it
   finds; the third attempt reserves on the day after; and the second one releases with the copy it holds.
   */
  function Robbery(): seq<Move> {
    [] + [Enter(1, OnDay(0), PERIOD)] + [Enter(2, OnDay(1), PERIOD)] + [GiveUp(1)] + [Enter(3, OnDay(2), PERIOD)]
    + [Leave(2, Release)]
  }

  /** The row can be reserved again the day after `d`. */
  predicate Reservable(w: World, d: nat) {
    && (forall v :: v in w.books.windows ==> v.day <= d) && (forall e :: e in w.books.days ==> e <= d)
    && KEY in w.books.holds && w.books.holds[KEY].window in w.books.windows && w.books.holds[KEY].createdAt == 0
    && w.books.holds[KEY].status in {Reserved, Released}
    && PERIOD in w.books.periods && w.books.periods[PERIOD].resetAt == RESET
    && w.books.periods[PERIOD].spendLimit == 1_000
    && w.books.periods[PERIOD].reserved + w.books.periods[PERIOD].settled <= 100 * (d + 1)
  }

  /** It is open in that day's window, as the only use there. */
  predicate Stage(w: World, d: nat) {
    && Reservable(w, d) && IsReserved(w.books, KEY) && w.books.holds[KEY].window == WindowKey(1, d)
    && UsedIn(w.books, WindowKey(1, d)) == 1
  }

  /** The request's key, and what the two owners hold. */
  predicate Holds(w: World, id: Id, d: nat) {
    id in w.inFlight && w.inFlight[id].key == KEY && w.inFlight[id].copy.window == WindowKey(1, d)
  }

  lemma OneMore(moves: seq<Move>, m: Move)
    requires Possible(WorldAfter(moves), m)
    ensures WorldAfter(moves + [m]) == Moved(WorldAfter(moves), m)
  {
    assert (moves + [m])[..|moves|] == moves;
  }

  lemma FirstStage()
    ensures var w := WorldAfter([] + [Enter(1, OnDay(0), PERIOD)]);
            Stage(w, 0) && Holds(w, 1, 0) && w.inFlight.Keys == {1}
  {
    OneMore([], Enter(1, OnDay(0), PERIOD));
    var ready := Prepared(NEW_BOOKS, OnDay(0));
    assert ready == EnsureWindow(NEW_BOOKS, WindowKey(1, 0), PLAN, 5_000);
    assert Verdict(ready, OnDay(0), PERIOD).None?;
  }

  /** Reserving the row again on the next day. */
  lemma NextStage(w: World, id: Id, d: nat)
    requires d < 2 && id !in w.inFlight && Reservable(w, d)
    ensures var w' := Moved(w, Enter(id, OnDay(d + 1), PERIOD));
            && Stage(w', d + 1) && w'.inFlight == w.inFlight[id := Owner(KEY, w'.books.holds[KEY])]
            && forall v: WindowKey :: v.day <= d ==> UsedIn(w'.books, v) == UsedIn(w.books, v)
  {
    var r := OnDay(d + 1);
    assert r.Target() == WindowKey(1, d + 1);
    RoomOnANewDay(w.books, r, PERIOD);
    ReserveTakes(w.books, r, RowOf(w.books, KEY), PERIOD);
    forall v { GrantOnUses(w.books, r, RowOf(w.books, KEY), PERIOD, v); }
  }

  lemma OneDayLater(moves: seq<Move>, id: Id, d: nat, other: Id, e: nat)
    requires d < 2 && id !in WorldAfter(moves).inFlight && Reservable(WorldAfter(moves), d)
    requires Holds(WorldAfter(moves), other, e) && e <= d
    ensures var w, w' := WorldAfter(moves), WorldAfter(moves + [Enter(id, OnDay(d + 1), PERIOD)]);
            && Stage(w', d + 1) && Holds(w', id, d + 1) && Holds(w', other, e)
            && w'.inFlight.Keys == w.inFlight.Keys + {id}
            && UsedIn(w'.books, WindowKey(1, e)) == UsedIn(w.books, WindowKey(1, e))
  {
    OneMore(moves, Enter(id, OnDay(d + 1), PERIOD));
    NextStage(WorldAfter(moves), id, d);
  }

  /** The late handler releases the row it finds. */
  lemma RobbedStage(moves: seq<Move>, id: Id, other: Id, d: nat)
    requires Stage(WorldAfter(moves), d) && id in WorldAfter(moves).inFlight && WorldAfter(moves).inFlight[id].key == KEY
    requires Holds(WorldAfter(moves), other, d) && other != id
    ensures var w, w' := WorldAfter(moves), WorldAfter(moves + [GiveUp(id)]);
            && w'.inFlight.Keys == w.inFlight.Keys - {id} && Holds(w', other, d)
            && Reservable(w', d) && UsedIn(w'.books, WindowKey(1, d)) == 0
  {
    OneMore(moves, GiveUp(id));
  }

  lemma LastStage(w: World, id: Id, d: nat)
    requires IsReserved(w.books, KEY) && UsedIn(w.books, WindowKey(1, d)) == 0 && WindowKey(1, d) in w.books.windows
    requires Holds(w, id, d)
    ensures UsedIn(Moved(w, Leave(id, Release)).books, WindowKey(1, d)) == -1
  {
  }

  lemma AfterTheFirst(first: seq<Move>)
    requires Stage(WorldAfter(first), 0) && Holds(WorldAfter(first), 1, 0) && WorldAfter(first).inFlight.Keys == {1}
    ensures var last := first + [Enter(2, OnDay(1), PERIOD)] + [GiveUp(1)] + [Enter(3, OnDay(2), PERIOD)] + [Leave(2, Release)];
            UsedIn(WorldAfter(last).books, WindowKey(1, 1)) == -1
  {
    OneDayLater(first, 2, 0, 1, 0);
    var second := first + [Enter(2, OnDay(1), PERIOD)];
    RobbedStage(second, 1, 2, 1);
    AfterTheRobbery(second + [GiveUp(1)]);
  }

  lemma AfterTheRobbery(third: seq<Move>)
    requires Reservable(WorldAfter(third), 1) && Holds(WorldAfter(third), 2, 1) && WorldAfter(third).inFlight.Keys == {2}
    requires UsedIn(WorldAfter(third).books, WindowKey(1, 1)) == 0
    ensures var last := third + [Enter(3, OnDay(2), PERIOD)] + [Leave(2, Release)];
            UsedIn(WorldAfter(last).books, WindowKey(1, 1)) == -1
  {
    assert 3 !in WorldAfter(third).inFlight.Keys;
    OneDayLater(third, 3, 1, 2, 1);
    var fourth := third + [Enter(3, OnDay(2), PERIOD)];
    UsesAreBacked(fourth, WindowKey(1, 1));
    assert CopyIsKnown(WorldAfter(fourth), 2);
    LastStage(WorldAfter(fourth), 2, 1);
    OneMore(fourth, Leave(2, Release));
  }

  /** From the empty books, each request leaving once, the second day's window ends with a use count of minus one. */
  lemma RobbedRunGoesNegative()
    ensures UsedIn(WorldAfter(Robbery()).books, WindowKey(1, 1)) == -1
  {
    FirstStage();
    AfterTheFirst([] + [Enter(1, OnDay(0), PERIOD)]);
  }
}
