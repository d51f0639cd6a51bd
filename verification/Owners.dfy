/**
 When do the copies held by requests in flight match their rows? A request keeps its copy from the reserving commit
 until it settles or releases; in between, other transactions may reclaim the row and reserve it again.
 */
module Owners {
  import opened Options
  import opened Budget
  import opened Conservation

  /** A request in flight: the row it reserved, and that row as it was then. */
  datatype Owner = Owner(key: HoldKey, copy: Hold)

  datatype World = World(books: Books, inFlight: map<Id, Owner>)

  const NEW_WORLD := World(NEW_BOOKS, map[])

  /**
   A request leaves by settling or releasing with the copy it holds. `GiveUp` is the handler of a failed write: its
   rollback makes the session read the row again, and it releases what it finds.
   */
  datatype Move =
    | Enter(id: Id, request: Request, period: PeriodKey)
    | Leave(id: Id, finisher: Finisher)
    | GiveUp(id: Id)
    | Crash(id: Id)

  /** The opening SELECT and the rest of the reserving transaction, in one piece. */
  function Entering(w: World, r: Request, p: PeriodKey): (Books, Outcome) {
    Reserve(w.books, r, RowOf(w.books, r.key), p)
  }

  predicate Possible(w: World, m: Move) {
    match m
    case Enter(id, _, _) => id !in w.inFlight
    case Leave(id, _) => id in w.inFlight
    case GiveUp(id) => id in w.inFlight
    case Crash(id) => id in w.inFlight
  }

  function Moved(w: World, m: Move): World
    requires Possible(w, m)
  {
    match m
    case Enter(id, r, p) =>
      var (books, outcome) := Entering(w, r, p);
      World(books, if Commits(outcome) then w.inFlight[id := Owner(r.key, outcome.hold)] else w.inFlight)
    case Leave(id, f) =>
      World(Finish(w.books, w.inFlight[id].key, w.inFlight[id].copy, f), w.inFlight - {id})
    case GiveUp(id) =>
      var row := RowOf(w.books, w.inFlight[id].key);
      World(if row.Some? then Finish(w.books, w.inFlight[id].key, row.value, Release) else w.books, w.inFlight - {id})
    case Crash(id) =>
      World(w.books, w.inFlight - {id})
  }

  /** No request still in flight has outlived the lease of its row when another one reserves. */
  predicate Punctual(w: World, m: Move) {
    m.Enter? ==> forall id :: id in w.inFlight ==> !IsAbandoned(w.books, w.inFlight[id].key, m.request.now)
  }

  ghost predicate OwnerMatches(w: World, id: Id)
    requires id in w.inFlight
  {
    var o := w.inFlight[id];
    && o.key in w.books.holds
    && w.books.holds[o.key].window in w.books.windows
    && w.books.holds[o.key].status != Released
    && (IsReserved(w.books, o.key) ==> o.copy.status == Reserved && Matches(o.copy, w.books.holds[o.key]))
  }

  /** Every copy in flight matches its row while the row is open, and an open row has at most one owner. */
  ghost predicate Owned(w: World) {
    && (forall id :: id in w.inFlight ==> OwnerMatches(w, id))
    && (forall i, j :: i in w.inFlight && j in w.inFlight && i != j && w.inFlight[i].key == w.inFlight[j].key
                       ==> !IsReserved(w.books, w.inFlight[i].key))
  }

  /** A granted reservation rewrites its own row and closes abandoned ones; every other row is as it was. */
  lemma OtherRowsStay(w: World, r: Request, p: PeriodKey, key: HoldKey)
    requires Entering(w, r, p).1.Granted?
    requires key != r.key && key in w.books.holds && !IsAbandoned(w.books, key, r.now)
    requires Homed(w.books)
    ensures var b := Entering(w, r, p).0;
            key in b.holds && b.holds[key] == w.books.holds[key] && b.holds[key].window in b.windows
  {
    var b0 := Expired(w.books, r, RowOf(w.books, r.key));
    var b1 := EnsureWindow(b0, r.Target(), r.plan, r.dayLimit);
    SweepTouchesOnlyAbandoned(b1, FirstFew(r.candidates, SWEEP_LIMIT), r.now, key);
    ReserveTakes(w.books, r, RowOf(w.books, r.key), p);
  }

  lemma GrantedEntryKeepsOwner(w: World, m: Move, id: Id)
    requires m.Enter? && Possible(w, m) && Punctual(w, m) && Owned(w) && Explained(w.books)
    requires Entering(w, m.request, m.period).1.Granted?
    requires id in w.inFlight
    ensures w.inFlight[id].key != m.request.key && OwnerMatches(Moved(w, m), id)
  {
    var r := m.request;
    var o := w.inFlight[id];
    assert OwnerMatches(w, id) && !IsAbandoned(w.books, o.key, r.now);
    OnlyGrantsChange(w.books, r, RowOf(w.books, r.key), m.period);
    assert o.key != r.key;
    forall k | k in w.books.holds ensures w.books.holds[k].window in w.books.windows {
      assert Anchored(w.books, w.books.holds[k]);
    }
    OtherRowsStay(w, r, m.period, o.key);
  }

  lemma GrantedEntryIsOwned(w: World, m: Move)
    requires m.Enter? && Possible(w, m)
    requires Entering(w, m.request, m.period).1.Granted?
    ensures OwnerMatches(Moved(w, m), m.id)
  {
    ReserveTakes(w.books, m.request, RowOf(w.books, m.request.key), m.period);
  }

  lemma EnterKeepsOwned(w: World, m: Move)
    requires m.Enter? && Possible(w, m) && Punctual(w, m) && Owned(w) && Explained(w.books)
    ensures Owned(Moved(w, m))
  {
    var w' := Moved(w, m);
    OnlyGrantsChange(w.books, m.request, RowOf(w.books, m.request.key), m.period);
    if Entering(w, m.request, m.period).1.Granted? {
      GrantedEntryIsOwned(w, m);
      forall id | id in w.inFlight ensures w.inFlight[id].key != m.request.key && OwnerMatches(w', id) {
        GrantedEntryKeepsOwner(w, m, id);
      }
      GrantedEntryKeepsUniqueness(w, m);
    } else {
      forall id | id in w.inFlight ensures OwnerMatches(w', id) {
        assert OwnerMatches(w, id);
      }
      if Commits(Entering(w, m.request, m.period).1) {
        assert Anchored(w.books, w.books.holds[m.request.key]);
      }
    }
  }

  lemma GrantedEntryKeepsUniqueness(w: World, m: Move)
    requires m.Enter? && Possible(w, m) && Punctual(w, m) && Owned(w) && Explained(w.books)
    requires Entering(w, m.request, m.period).1.Granted?
    ensures var w' := Moved(w, m);
            forall i, j :: i in w'.inFlight && j in w'.inFlight && i != j && w'.inFlight[i].key == w'.inFlight[j].key
                           ==> !IsReserved(w'.books, w'.inFlight[i].key)
  {
    var w' := Moved(w, m);
    forall i, j | i in w'.inFlight && j in w'.inFlight && i != j && w'.inFlight[i].key == w'.inFlight[j].key
      ensures !IsReserved(w'.books, w'.inFlight[i].key)
    {
      if i in w.inFlight { GrantedEntryKeepsOwner(w, m, i); }
      if j in w.inFlight { GrantedEntryKeepsOwner(w, m, j); }
      var o := w.inFlight[i];
      assert OwnerMatches(w, i) && !IsAbandoned(w.books, o.key, m.request.now);
      forall k | k in w.books.holds ensures w.books.holds[k].window in w.books.windows {
        assert Anchored(w.books, w.books.holds[k]);
      }
      OtherRowsStay(w, m.request, m.period, o.key);
    }
  }

  lemma LeaveKeepsOwned(w: World, m: Move)
    requires !m.Enter? && Possible(w, m) && Owned(w)
    ensures Owned(Moved(w, m))
  {
    var w' := Moved(w, m);
    assert OwnerMatches(w, m.id);
    forall id | id in w'.inFlight ensures OwnerMatches(w', id) {
      assert OwnerMatches(w, id);
    }
  }

  /** The world after some moves; a move that is not possible does not happen. */
  function WorldAfter(moves: seq<Move>): World {
    if moves == [] then NEW_WORLD else
      var w := WorldAfter(moves[..|moves| - 1]);
      if Possible(w, moves[|moves| - 1]) then Moved(w, moves[|moves| - 1]) else w
  }

  predicate AlwaysPunctual(moves: seq<Move>) {
    moves == [] || (AlwaysPunctual(moves[..|moves| - 1]) && Punctual(WorldAfter(moves[..|moves| - 1]), moves[|moves| - 1]))
  }

  /**
   As long as no request reserves while another one in flight has outlived its lease, every copy in flight matches
   its row, so the books are explained whatever the requests do next.
   */
  lemma {:induction false} PunctualOwnersMatch(moves: seq<Move>)
    requires AlwaysPunctual(moves)
    ensures Owned(WorldAfter(moves)) && Explained(WorldAfter(moves).books)
  {
    if moves == [] {
      BooksAreExplained([]);
    } else {
      var m, w := moves[|moves| - 1], WorldAfter(moves[..|moves| - 1]);
      PunctualOwnersMatch(moves[..|moves| - 1]);
      if Possible(w, m) {
        if m.Enter? { EnterKeepsOwned(w, m); } else { LeaveKeepsOwned(w, m); }
        MoveKeepsExplained(w, m);
      }
    }
  }

  lemma MoveKeepsExplained(w: World, m: Move)
    requires Possible(w, m) && Owned(w) && Explained(w.books)
    ensures Explained(Moved(w, m).books)
  {
    match m
    case Enter(_, r, p) => ReserveKeepsExplained(w.books, r, RowOf(w.books, r.key), p);
    case Leave(id, f) =>
      assert OwnerMatches(w, id);
      FinishKeepsExplained(w.books, w.inFlight[id].key, w.inFlight[id].copy, f);
    case GiveUp(id) =>
      var row := RowOf(w.books, w.inFlight[id].key);
      if row.Some? { FinishKeepsExplained(w.books, w.inFlight[id].key, row.value, Release); }
    case Crash(_) =>
  }

  lemma GrantKeepsAnchor(b: Books, r: Request, seen: Option<Hold>, p: PeriodKey, h: Hold)
    requires Anchored(b, h) && Reserve(b, r, seen, p).1.Granted?
    ensures Anchored(Reserve(b, r, seen, p).0, h)
  {
    ReserveTakes(b, r, seen, p);
    var b0 := Expired(b, r, seen);
    var b1 := EnsureWindow(b0, r.Target(), r.plan, r.dayLimit);
    SweepFrame(b1, FirstFew(r.candidates, SWEEP_LIMIT), r.now);
  }

  /**
   Without punctuality the books can break: if a stalled owner's row is reclaimed and reserved again, its late
   finisher, whichever it is, keeps the books explained exactly when the new amounts happen to be the old ones.
   */
  lemma StalledOwnerBreaksBooks(b: Books, r: Request, p: PeriodKey, f: Finisher, b': Books, row: Hold)
    requires Explained(b) && IsReserved(b, r.key)
    requires Reserve(b, r, Some(b.holds[r.key]), p) == (b', Granted(row))
    ensures Explained(Finish(b', r.key, b.holds[r.key], f)) <==> Matches(b.holds[r.key], row)
  {
    var copy := b.holds[r.key];
    ReserveTakes(b, r, Some(copy), p);
    ReserveKeepsExplained(b, r, Some(copy), p);
    assert Anchored(b, copy);
    GrantKeepsAnchor(b, r, Some(copy), p, copy);
    FinishExplainedIffCopyMatches(b', r.key, copy, f);
  }

  const EXAMPLE_PLAN := Plan(10, 1_000, 1_000, 1_000)
  const EXAMPLE_KEY := HoldKey(1, 7, 0)
  const EXAMPLE_FIRST: Request := Call(EXAMPLE_KEY, EXAMPLE_PLAN, 5_000, 100, 0, 0, 0, 1_000, [])
  const EXAMPLE_SECOND: Request := Call(EXAMPLE_KEY, EXAMPLE_PLAN, 5_000, 250, 0, 200, 0, 1_000, [])
  const EXAMPLE_WINDOW := WindowKey(1, 0)
  const EXAMPLE_PERIOD := PeriodKey(1, 0)
  const EXAMPLE_HOLD := Hold(EXAMPLE_WINDOW, EXAMPLE_PERIOD, 100, 0, Reserved, 0, None)
  const EXAMPLE_ROW := Hold(EXAMPLE_WINDOW, EXAMPLE_PERIOD, 250, 0, Reserved, 0, None)

  /** One such run, with amounts of 100 and 250 under one key, 200 seconds apart. */
  lemma StalledOwnerExample() returns (b: Books, b': Books)
    ensures Reserve(NEW_BOOKS, EXAMPLE_FIRST, None, EXAMPLE_PERIOD) == (b, Granted(EXAMPLE_HOLD))
    ensures Reserve(b, EXAMPLE_SECOND, Some(EXAMPLE_HOLD), EXAMPLE_PERIOD) == (b', Granted(EXAMPLE_ROW))
    ensures !Explained(Finish(b', EXAMPLE_KEY, EXAMPLE_HOLD, Settle(Some(100), None)))
  {
    b := ExampleFirst();
    b' := ExampleSecond(b);
    BooksAreExplained([]);
    ReserveKeepsExplained(NEW_BOOKS, EXAMPLE_FIRST, None, EXAMPLE_PERIOD);
    StalledOwnerBreaksBooks(b, EXAMPLE_SECOND, EXAMPLE_PERIOD, Settle(Some(100), None), b', EXAMPLE_ROW);
  }

  lemma ExampleFirst() returns (b: Books)
    ensures Reserve(NEW_BOOKS, EXAMPLE_FIRST, None, EXAMPLE_PERIOD) == (b, Granted(EXAMPLE_HOLD))
    ensures EXAMPLE_WINDOW in b.windows && b.windows[EXAMPLE_WINDOW] == Window(10, 1, 10_000, 100, 0, 1_000, 0, 0)
    ensures EXAMPLE_PERIOD in b.periods && b.periods[EXAMPLE_PERIOD] == Period(1_000, 100, 0, 1_000)
    ensures 0 in b.days && b.days[0] == Day(5_000, 100, 0)
    ensures EXAMPLE_KEY in b.holds && b.holds[EXAMPLE_KEY] == EXAMPLE_HOLD
  {
    var ready := Prepared(NEW_BOOKS, EXAMPLE_FIRST);
    assert ready == EnsureWindow(NEW_BOOKS, EXAMPLE_WINDOW, EXAMPLE_PLAN, 5_000);
    assert Verdict(ready, EXAMPLE_FIRST, EXAMPLE_PERIOD).None?;
    b := Take(ready, EXAMPLE_FIRST, EXAMPLE_PERIOD, EXAMPLE_HOLD);
  }

  /** Reclaiming conserves every cap, so an expired hold is reserved again whenever there is room in the books as they are. */
  lemma RoomAfterReclaim(b: Books, r: Request, p: PeriodKey)
    requires IsAbandoned(b, r.key, r.now) && b.holds[r.key].window in b.windows
    requires r.candidates == [] && r.micro > 0
    requires r.Target() in b.windows && WindowAdmits(b.windows[r.Target()], r.micro, r.tokens)
    requires p in b.periods && b.periods[p].resetAt > r.now && PeriodAdmits(b.periods[p], r.micro)
    requires r.Target().day in b.days && DayAdmits(b.days[r.Target().day], r.micro)
    ensures Reserve(b, r, Some(b.holds[r.key]), p).1 == Granted(Reactivated(b.holds[r.key], NewHold(r, p)))
  {
    var closed := Finish(b, r.key, b.holds[r.key], LEASE_EXPIRED);
    assert EnsureWindow(closed, r.Target(), r.plan, r.dayLimit) == closed;
    assert Prepared(closed, r) == closed;
    assert Verdict(closed, r, p).None?;
  }

  lemma ExampleSecond(b: Books) returns (b': Books)
    requires EXAMPLE_WINDOW in b.windows && b.windows[EXAMPLE_WINDOW] == Window(10, 1, 10_000, 100, 0, 1_000, 0, 0)
    requires EXAMPLE_PERIOD in b.periods && b.periods[EXAMPLE_PERIOD] == Period(1_000, 100, 0, 1_000)
    requires 0 in b.days && b.days[0] == Day(5_000, 100, 0)
    requires EXAMPLE_KEY in b.holds && b.holds[EXAMPLE_KEY] == EXAMPLE_HOLD
    ensures Reserve(b, EXAMPLE_SECOND, Some(EXAMPLE_HOLD), EXAMPLE_PERIOD) == (b', Granted(EXAMPLE_ROW))
  {
    RoomAfterReclaim(b, EXAMPLE_SECOND, EXAMPLE_PERIOD);
    b' := Reserve(b, EXAMPLE_SECOND, Some(EXAMPLE_HOLD), EXAMPLE_PERIOD).0;
  }

  /**
   The lease runs from `created_at`, which reserving a row again does not refresh: a granted hold is protected from an
   immediate sweep exactly when its row is new or younger than the lease.
   */
  lemma LeaseOfGrantedHold(b: Books, r: Request, p: PeriodKey)
    requires Reserve(b, r, RowOf(b, r.key), p).1.Granted?
    requires forall k :: k in b.holds ==> b.holds[k].window in b.windows
    ensures var b' := Reserve(b, r, RowOf(b, r.key), p).0;
            IsAbandoned(b', r.key, r.now)
            <==> r.key in b.holds && r.now - b.holds[r.key].createdAt >= RESERVATION_LEASE_SECONDS
  {
    var seen := RowOf(b, r.key);
    ReserveTakes(b, r, seen, p);
    var b0 := Expired(b, r, seen);
    var b1 := EnsureWindow(b0, r.Target(), r.plan, r.dayLimit);
    SweepTouchesOnlyAbandoned(b1, FirstFew(r.candidates, SWEEP_LIMIT), r.now, r.key);
  }
}
