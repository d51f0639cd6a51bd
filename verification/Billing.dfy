/**
 Plans, billing events, access codes and themes (`billing_sandbox`, `redeem_access_code` and `update_active_theme` in
 src/daily_agent/api.py, with `plan_policy` and `sync_account_progression` of src/daily_agent/services.py).
 */
module Billing {
  import opened Options

  type Id = nat

  datatype PlanId = Ananta | Yanta | Trika | Parth {
    function Rank(): nat {
      match this
      case Ananta => 0
      case Yanta => 1
      case Trika => 2
      case Parth => 3
    }
    function Tier(): nat { Rank() + 1 }
  }

  datatype Subscription = Subscription(plan: PlanId, active: bool, version: int)

  datatype User = User(account: Id, unlockedTier: int, activeTheme: int)

  datatype Kind = Activated | Renewed | Cancelled

  /** `payload` stands for the hash of the signed body. */
  datatype Event = Event(id: Id, account: Id, version: int, kind: Kind, plan: PlanId, payload: Id)

  /** `seen` holds the payload hash of every event id recorded so far. */
  datatype State = State(subscriptions: map<Id, Subscription>, users: map<Id, User>, seen: map<Id, Id>)

  const FREE := Subscription(Ananta, true, 0)

  function SubscriptionOf(s: State, account: Id): Subscription {
    if account in s.subscriptions then s.subscriptions[account] else FREE
  }

  function EffectivePlan(s: State, account: Id): PlanId {
    if SubscriptionOf(s, account).active then SubscriptionOf(s, account).plan else Ananta
  }

  // ---------- Operations ----------

  function Synced(u: User, tier: int): User {
    u.(unlockedTier := tier, activeTheme := if u.activeTheme > tier then tier else u.activeTheme)
  }

  function SyncAccount(s: State, account: Id): State {
    s.(users := map id | id in s.users ::
         if s.users[id].account == account then Synced(s.users[id], EffectivePlan(s, account).Tier()) else s.users[id])
  }

  datatype Answer = AccountNotFound | PayloadConflict | Duplicate | Accepted(stale: bool)

  function Applied(e: Event): Subscription {
    Subscription(e.plan, e.kind != Cancelled, e.version)
  }

  function Bill(s: State, e: Event): (State, Answer) {
    if e.account !in s.subscriptions then (s, AccountNotFound)
    else if e.id in s.seen then (s, if s.seen[e.id] != e.payload then PayloadConflict else Duplicate)
    else
      var recorded := s.(seen := s.seen[e.id := e.payload]);
      if e.version <= s.subscriptions[e.account].version then (recorded, Accepted(true))
      else (SyncAccount(recorded.(subscriptions := s.subscriptions[e.account := Applied(e)]), e.account), Accepted(false))
  }

  /** A valid code for `plan`. A missing subscription is created, and kept only when the code changes something. */
  function Redeem(s: State, account: Id, plan: PlanId): (State, bool) {
    if plan.Rank() > EffectivePlan(s, account).Rank() then
      (SyncAccount(s.(subscriptions := s.subscriptions[account := SubscriptionOf(s, account).(plan := plan)]), account), true)
    else (s, false)
  }

  datatype ThemeAnswer = UserNotFound | TierLocked(unlocked: int) | Chosen

  function ChooseTheme(s: State, user: Id, theme: int): (State, ThemeAnswer) {
    if user !in s.users then (s, UserNotFound)
    else
      var u := Synced(s.users[user], EffectivePlan(s, s.users[user].account).Tier());
      if theme > u.unlockedTier then (s, TierLocked(u.unlockedTier))
      else (s.(users := s.users[user := u.(activeTheme := theme)]), Chosen)
  }

  // ---------- The session ----------

  class Accounts {
    var subscriptions: map<Id, Subscription>
    var users: map<Id, User>
    var seen: map<Id, Id>

    function Snapshot(): State
      reads this
    {
      State(subscriptions, users, seen)
    }

    constructor (subscriptions: map<Id, Subscription>, users: map<Id, User>)
      ensures Snapshot() == State(subscriptions, users, map[])
    {
      this.subscriptions, this.users, seen := subscriptions, users, map[];
    }

    method PlanOf(account: Id) returns (plan: PlanId)
      ensures plan == EffectivePlan(Snapshot(), account)
    {
      if account !in subscriptions || !subscriptions[account].active {
        return Ananta;
      }
      return subscriptions[account].plan;
    }

    method SyncAccountProgression(account: Id)
      modifies this
      ensures Snapshot() == SyncAccount(old(Snapshot()), account)
    {
      var plan := PlanOf(account);
      var unlocked := plan.Tier();
      var todo := set id | id in users && users[id].account == account;
      while todo != {}
        invariant subscriptions == old(subscriptions) && seen == old(seen)
        invariant users.Keys == old(users).Keys
        invariant forall id :: id in todo ==> id in users && users[id].account == account
        invariant forall id :: id in users ==>
                    users[id] == if id !in todo && old(users)[id].account == account then Synced(old(users)[id], unlocked)
                                 else old(users)[id]
        decreases todo
      {
        var id :| id in todo;
        var u := users[id].(unlockedTier := unlocked);
        if u.activeTheme > u.unlockedTier {
          u := u.(activeTheme := u.unlockedTier);
        }
        users := users[id := u];
        todo := todo - {id};
      }
      assert users == SyncAccount(old(Snapshot()), account).users;
    }

    method BillingEvent(e: Event) returns (answer: Answer)
      modifies this
      ensures (Snapshot(), answer) == Bill(old(Snapshot()), e)
    {
      if e.account !in subscriptions {
        return AccountNotFound;
      }
      if e.id in seen {
        return if seen[e.id] != e.payload then PayloadConflict else Duplicate;
      }
      seen := seen[e.id := e.payload];
      var stale := e.version <= subscriptions[e.account].version;
      if !stale {
        subscriptions := subscriptions[e.account := Subscription(e.plan, e.kind != Cancelled, e.version)];
        SyncAccountProgression(e.account);
      }
      return Accepted(stale);
    }

    method RedeemAccessCode(account: Id, plan: PlanId) returns (changed: bool)
      modifies this
      ensures (Snapshot(), changed) == Redeem(old(Snapshot()), account, plan)
    {
      var current := PlanOf(account);
      changed := plan.Rank() > current.Rank();
      if changed {
        var subscription := if account in subscriptions then subscriptions[account] else FREE;
        subscriptions := subscriptions[account := subscription.(plan := plan)];
        SyncAccountProgression(account);
      }
    }

    method UpdateActiveTheme(user: Id, theme: int) returns (answer: ThemeAnswer)
      modifies this
      ensures (Snapshot(), answer) == ChooseTheme(old(Snapshot()), user, theme)
    {
      if user !in users {
        return UserNotFound;
      }
      var plan := PlanOf(users[user].account);
      var u := users[user].(unlockedTier := plan.Tier());
      if u.activeTheme > u.unlockedTier {
        u := u.(activeTheme := u.unlockedTier);
      }
      if theme > u.unlockedTier {
        return TierLocked(u.unlockedTier);
      }
      users := users[user := u.(activeTheme := theme)];
      return Chosen;
    }
  }

  // ---------- Themes ----------

  datatype Action =
    | Billing(event: Event)
    | Code(account: Id, plan: PlanId)
    | Theme(user: Id, theme: int)

  function Next(s: State, a: Action): State {
    match a
    case Billing(event) => Bill(s, event).0
    case Code(account, plan) => Redeem(s, account, plan).0
    case Theme(user, theme) => ChooseTheme(s, user, theme).0
  }

  function After(s: State, actions: seq<Action>): State {
    if actions == [] then s else Next(After(s, actions[..|actions| - 1]), actions[|actions| - 1])
  }

  /** Requests for a theme name one of the four. */
  predicate WellFormed(actions: seq<Action>) {
    forall i :: 0 <= i < |actions| ==> actions[i].Theme? ==> 1 <= actions[i].theme <= 4
  }

  predicate ThemeLegal(u: User) {
    1 <= u.activeTheme <= u.unlockedTier <= 4
  }

  /** What a user has unlocked is what the account's effective plan gives, and the theme in use is within it. */
  predicate InStep(s: State) {
    forall id :: id in s.users ==>
      ThemeLegal(s.users[id]) && s.users[id].unlockedTier == EffectivePlan(s, s.users[id].account).Tier()
  }

  lemma NextKeepsStep(s: State, a: Action)
    requires InStep(s) && (a.Theme? ==> 1 <= a.theme <= 4)
    ensures InStep(Next(s, a))
  {
    var s' := Next(s, a);
    forall id | id in s'.users
      ensures ThemeLegal(s'.users[id]) && s'.users[id].unlockedTier == EffectivePlan(s', s'.users[id].account).Tier()
    {
      assert id in s.users && ThemeLegal(s.users[id]);
      assert s'.users[id].account == s.users[id].account;
    }
  }

  /** Across billing events, access codes and theme changes, in any order. */
  lemma {:induction false} UsersStayInStep(s: State, actions: seq<Action>)
    requires InStep(s) && WellFormed(actions)
    ensures InStep(After(s, actions))
  {
    if actions != [] {
      UsersStayInStep(s, actions[..|actions| - 1]);
      NextKeepsStep(After(s, actions[..|actions| - 1]), actions[|actions| - 1]);
    }
  }

  // ---------- Access codes ----------

  /**
   A code never lowers the effective plan, and raises it exactly when it outranks it and the subscription is active. On a
   cancelled subscription a paid code reports a change that leaves the account on the free plan.
   */
  lemma CodesNeverDowngrade(s: State, account: Id, plan: PlanId)
    ensures var (s', changed) := Redeem(s, account, plan);
            var before, after := EffectivePlan(s, account), EffectivePlan(s', account);
            && before.Rank() <= after.Rank()
            && (changed <==> plan.Rank() > before.Rank())
            && (after != before <==> changed && SubscriptionOf(s, account).active)
            && (after != before ==> after == plan)
            && (!changed ==> s' == s)
            && (forall other :: other != account ==> SubscriptionOf(s', other) == SubscriptionOf(s, other))
  {
    var (s', changed) := Redeem(s, account, plan);
    forall other | other != account ensures SubscriptionOf(s', other) == SubscriptionOf(s, other) {
      assert other in s'.subscriptions <==> other in s.subscriptions;
    }
  }

  // ---------- Convergence ----------

  function Deliver(s: State, events: seq<Event>): State {
    if events == [] then s else Bill(Deliver(s, events[..|events| - 1]), events[|events| - 1]).0
  }

  /** Event ids determine their events, and no two events of an account share a version. */
  predicate Consistent(events: set<Event>) {
    forall e, f :: e in events && f in events ==>
      (e.id == f.id ==> e == f) && (e.account == f.account && e.version == f.version ==> e == f)
  }

  /** `now` is what the latest of the events makes of `start`: the greatest version above the initial one, if there is one. */
  ghost predicate IsLatest(start: Subscription, now: Subscription, account: Id, events: set<Event>) {
    if exists e :: e in events && e.account == account && e.version > start.version then
      exists e :: && e in events && e.account == account && e.version > start.version && now == Applied(e)
                  && forall f :: f in events && f.account == account ==> f.version <= e.version
    else now == start
  }

  lemma LatestIsUnique(start: Subscription, one: Subscription, two: Subscription, account: Id, events: set<Event>)
    requires Consistent(events)
    requires IsLatest(start, one, account, events) && IsLatest(start, two, account, events)
    ensures one == two
  {
  }

  function SetOf(events: seq<Event>): set<Event> {
    set e | e in events
  }

  /** Only accounts that exist have recorded events, and every recorded id came from one of the events. */
  ghost predicate Recorded(s: State, now: State, events: set<Event>) {
    && now.subscriptions.Keys == s.subscriptions.Keys
    && (forall id :: id in now.seen && id !in s.seen ==> exists e :: e in events && e.id == id)
    && (forall e :: e in events && e.account in s.subscriptions ==> e.id in now.seen)
  }

  lemma {:induction false} DeliveriesRecord(s: State, events: seq<Event>)
    ensures Recorded(s, Deliver(s, events), SetOf(events))
  {
    if events != [] {
      var before, last := events[..|events| - 1], events[|events| - 1];
      DeliveriesRecord(s, before);
      assert events == before + [last];
      var now, next := Deliver(s, before), Deliver(s, events);
      forall id | id in next.seen && id !in s.seen ensures exists e :: e in SetOf(events) && e.id == id {
        if id in now.seen {
          var e :| e in SetOf(before) && e.id == id;
          assert e in SetOf(events);
        } else {
          assert last in SetOf(events) && last.id == id;
        }
      }
      forall e | e in SetOf(events) && e.account in s.subscriptions ensures e.id in next.seen {
        assert e in SetOf(before) || e == last;
      }
    }
  }

  lemma LatestGrows(start: Subscription, now: Subscription, account: Id, events: set<Event>, last: Event)
    requires IsLatest(start, now, account, events) && last.account == account
    ensures IsLatest(start, if last.version > now.version then Applied(last) else now, account, events + {last})
  {
    if e :| e in events && e.account == account && e.version > start.version && now == Applied(e)
            && forall f :: f in events && f.account == account ==> f.version <= e.version {
      assert e in events + {last};
      assert last in events + {last};
    } else {
      assert now == start;
      assert last in events + {last};
    }
  }

  lemma OthersKeepLatest(start: Subscription, now: Subscription, account: Id, events: set<Event>, last: Event)
    requires IsLatest(start, now, account, events) && last.account != account
    ensures IsLatest(start, now, account, events + {last})
  {
    forall e: Event | e.account == account ensures e in events + {last} <==> e in events { }
  }

  lemma BillKeepsLatest(start: Subscription, now: State, account: Id, events: set<Event>, last: Event)
    requires account in now.subscriptions && IsLatest(start, now.subscriptions[account], account, events)
    requires last.id in now.seen ==> last in events
    ensures account in Bill(now, last).0.subscriptions
    ensures IsLatest(start, Bill(now, last).0.subscriptions[account], account, events + {last})
  {
    if last.id in now.seen {
      assert events + {last} == events;
    } else if last.account == account {
      LatestGrows(start, now.subscriptions[account], account, events, last);
    } else {
      OthersKeepLatest(start, now.subscriptions[account], account, events, last);
    }
  }

  /** After any deliveries, an account's subscription is what its latest event says. */
  lemma {:induction false} DeliveriesKeepTheLatest(s: State, events: seq<Event>, account: Id)
    requires Consistent(SetOf(events)) && account in s.subscriptions
    requires forall e :: e in events ==> e.id !in s.seen
    ensures account in Deliver(s, events).subscriptions
    ensures IsLatest(s.subscriptions[account], Deliver(s, events).subscriptions[account], account, SetOf(events))
  {
    if events != [] {
      var before, last := events[..|events| - 1], events[|events| - 1];
      assert events == before + [last];
      assert SetOf(events) == SetOf(before) + {last};
      DeliveriesKeepTheLatest(s, before, account);
      var now := Deliver(s, before);
      assert last.id in now.seen ==> last in SetOf(before) by {
        DeliveriesRecord(s, before);
      }
      BillKeepsLatest(s.subscriptions[account], now, account, SetOf(before), last);
    }
  }

  /** Any two delivery orders, with any redeliveries, of the same events end in the same plan, status and version. */
  lemma DeliveriesConverge(s: State, one: seq<Event>, two: seq<Event>, account: Id)
    requires SetOf(one) == SetOf(two) && Consistent(SetOf(one))
    requires forall e :: e in SetOf(one) ==> e.id !in s.seen
    ensures SubscriptionOf(Deliver(s, one), account) == SubscriptionOf(Deliver(s, two), account)
  {
    forall e | e in one ensures e.id !in s.seen { assert e in SetOf(one); }
    forall e | e in two ensures e.id !in s.seen { assert e in SetOf(two); }
    DeliveriesRecord(s, one);
    DeliveriesRecord(s, two);
    if account in s.subscriptions {
      DeliveriesKeepTheLatest(s, one, account);
      DeliveriesKeepTheLatest(s, two, account);
      LatestIsUnique(s.subscriptions[account], Deliver(s, one).subscriptions[account],
                     Deliver(s, two).subscriptions[account], account, SetOf(one));
    }
  }

  /** A redelivery is a duplicate and changes nothing; the same id with another payload is refused and changes nothing. */
  lemma RedeliveryIsIgnored(s: State, e: Event, again: Event)
    requires e.account in s.subscriptions && again.account in s.subscriptions && again.id == e.id
    requires e.id !in s.seen
    ensures Bill(Bill(s, e).0, again)
         == (Bill(s, e).0, if again.payload != e.payload then PayloadConflict else Duplicate)
  {
  }

  // ---------- What a delivery order does to themes ----------

  function TierOf(e: Event): nat {
    if e.kind == Cancelled then Ananta.Tier() else e.plan.Tier()
  }

  function Min(a: int, b: int): int { if a <= b then a else b }

  /** The greatest version an account has seen, starting from `version`. */
  function LatestVersion(events: seq<Event>, account: Id, version: int): int {
    if events == [] then version
    else
      var before, last := LatestVersion(events[..|events| - 1], account, version), events[|events| - 1];
      if last.account == account && last.version > before then last.version else before
  }

  /** The lowest tier among the events that were new when they arrived, 4 if there was none: no matter what came between. */
  function LowestTier(events: seq<Event>, account: Id, version: int): int {
    if events == [] then 4
    else
      var before, last := LowestTier(events[..|events| - 1], account, version), events[|events| - 1];
      if last.account == account && last.version > LatestVersion(events[..|events| - 1], account, version)
      then Min(before, TierOf(last)) else before
  }

  lemma {:induction false} LatestIsAbove(events: seq<Event>, account: Id, version: int, e: Event)
    requires e in events && e.account == account
    ensures LatestVersion(events, account, version) >= e.version
  {
    var before, last := events[..|events| - 1], events[|events| - 1];
    assert events == before + [last];
    if e in before {
      LatestIsAbove(before, account, version, e);
    }
  }

  /** One event lowers a user's theme to its tier when it is new, and touches it in no other case. */
  lemma BillOnUser(now: State, e: Event, user: Id, version: int)
    requires user in now.users && now.users[user].account in now.subscriptions
    requires now.subscriptions[now.users[user].account].version == version
    requires e.id in now.seen && e.account == now.users[user].account ==> e.version <= version
    ensures var next, account := Bill(now, e).0, now.users[user].account;
            var isNew := e.account == account && e.version > version;
            && user in next.users && next.users[user].account == account && account in next.subscriptions
            && next.subscriptions[account].version == (if isNew then e.version else version)
            && next.users[user].activeTheme
               == (if isNew then Min(now.users[user].activeTheme, TierOf(e)) else now.users[user].activeTheme)
  {
  }

  /** After any deliveries a user's theme is the lower of the one at the start and the lowest tier passed through. */
  lemma {:induction false} ThemeIsTheLowest(s: State, events: seq<Event>, user: Id)
    requires user in s.users && s.users[user].account in s.subscriptions && s.users[user].activeTheme <= 4
    requires Consistent(SetOf(events)) && forall e :: e in events ==> e.id !in s.seen
    ensures var now, account := Deliver(s, events), s.users[user].account;
            var version := s.subscriptions[account].version;
            && user in now.users && now.users[user].account == account && account in now.subscriptions
            && now.subscriptions[account].version == LatestVersion(events, account, version)
            && now.users[user].activeTheme == Min(s.users[user].activeTheme, LowestTier(events, account, version))
  {
    if events != [] {
      var before, last := events[..|events| - 1], events[|events| - 1];
      assert events == before + [last];
      assert SetOf(events) == SetOf(before) + {last};
      ThemeIsTheLowest(s, before, user);
      var now, account := Deliver(s, before), s.users[user].account;
      var version := s.subscriptions[account].version;
      if last.id in now.seen && last.account == account {
        DeliveriesRecord(s, before);
        var e :| e in SetOf(before) && e.id == last.id;
        assert e == last;
        LatestIsAbove(before, account, version, e);
      }
      BillOnUser(now, last, user, LatestVersion(before, account, version));
    }
  }

  /** Two orders of delivery leave a user the same theme exactly when the lowest tiers they pass through agree below it. */
  lemma ThemesAgreeIff(s: State, one: seq<Event>, two: seq<Event>, user: Id)
    requires user in s.users && s.users[user].account in s.subscriptions && s.users[user].activeTheme <= 4
    requires SetOf(one) == SetOf(two) && Consistent(SetOf(one)) && forall e :: e in SetOf(one) ==> e.id !in s.seen
    ensures user in Deliver(s, one).users && user in Deliver(s, two).users
    ensures var account, theme := s.users[user].account, s.users[user].activeTheme;
            var version := s.subscriptions[account].version;
            Deliver(s, one).users[user].activeTheme == Deliver(s, two).users[user].activeTheme
            <==> Min(theme, LowestTier(one, account, version)) == Min(theme, LowestTier(two, account, version))
  {
    forall e | e in one ensures e.id !in s.seen { assert e in SetOf(one); }
    forall e | e in two ensures e.id !in s.seen { assert e in SetOf(two); }
    ThemeIsTheLowest(s, one, user);
    ThemeIsTheLowest(s, two, user);
  }

  lemma {:induction false} DeliveriesKeepStep(s: State, events: seq<Event>)
    requires InStep(s)
    ensures InStep(Deliver(s, events)) && Deliver(s, events).users.Keys == s.users.Keys
    ensures forall id :: id in s.users ==> Deliver(s, events).users[id].account == s.users[id].account
  {
    if events != [] {
      DeliveriesKeepStep(s, events[..|events| - 1]);
      NextKeepsStep(Deliver(s, events[..|events| - 1]), Billing(events[|events| - 1]));
    }
  }

  /** What is unlocked converges with the plan. */
  lemma UnlockedTiersConverge(s: State, one: seq<Event>, two: seq<Event>, user: Id)
    requires InStep(s) && user in s.users
    requires SetOf(one) == SetOf(two) && Consistent(SetOf(one)) && forall e :: e in SetOf(one) ==> e.id !in s.seen
    ensures user in Deliver(s, one).users && user in Deliver(s, two).users
    ensures Deliver(s, one).users[user].unlockedTier == Deliver(s, two).users[user].unlockedTier
  {
    DeliveriesKeepStep(s, one);
    DeliveriesKeepStep(s, two);
    DeliveriesConverge(s, one, two, s.users[user].account);
  }

  /** A cancellation that arrives before a newer renewal resets the theme to 1; arriving after it, it changes nothing. */
  lemma ThemesMayDiffer(s: State, user: Id, cancel: Event, renew: Event)
    requires user in s.users && s.users[user].account in s.subscriptions && 1 < s.users[user].activeTheme <= 4
    requires cancel.account == renew.account == s.users[user].account
    requires cancel.id !in s.seen && renew.id !in s.seen && cancel.id != renew.id
    requires s.subscriptions[cancel.account].version < cancel.version < renew.version
    requires cancel.kind == Cancelled && renew.kind != Cancelled && renew.plan.Tier() >= s.users[user].activeTheme
    ensures user in Deliver(s, [cancel, renew]).users && user in Deliver(s, [renew, cancel]).users
    ensures Deliver(s, [cancel, renew]).users[user].activeTheme == 1
    ensures Deliver(s, [renew, cancel]).users[user].activeTheme == s.users[user].activeTheme
  {
    ThemeIsTheLowest(s, [cancel, renew], user);
    ThemeIsTheLowest(s, [renew, cancel], user);
    var version := s.subscriptions[cancel.account].version;
    TwoEvents(cancel, renew, cancel.account, version);
    TwoEvents(renew, cancel, cancel.account, version);
  }

  lemma TwoEvents(e: Event, f: Event, account: Id, version: int)
    requires e.account == f.account == account && version < e.version
    ensures LowestTier([e, f], account, version)
         == Min(4, if f.version > e.version then Min(TierOf(e), TierOf(f)) else TierOf(e))
  {
    assert [e, f][..1] == [e] && [e][..0] == [];
    assert LatestVersion([e], account, version) == e.version && LowestTier([e], account, version) == Min(4, TierOf(e));
  }

  // ---------- What each request answers and changes ----------

  /** The tiers of the plans. */
  function TierNumber(plan: PlanId): int {
    match plan
    case Ananta => 1
    case Yanta => 2
    case Trika => 3
    case Parth => 4
  }

  /** What an account has unlocked: the tier of its plan while it is active, and the free one otherwise. */
  function UnlockedBy(s: State, account: Id): int {
    if account in s.subscriptions && s.subscriptions[account].active then TierNumber(s.subscriptions[account].plan) else 1
  }

  /** Nothing but this account's subscription and its users has changed. */
  predicate OnlyAccountChanged(s: State, s': State, account: Id) {
    && s'.users.Keys == s.users.Keys
    && (forall other :: other in s.subscriptions && other != account ==>
          other in s'.subscriptions && s'.subscriptions[other] == s.subscriptions[other])
    && forall id :: id in s.users && s.users[id].account != account ==> s'.users[id] == s.users[id]
  }

  /** Every user of the account has what it unlocks, and uses no more than that. */
  predicate UsersFollow(s: State, s': State, account: Id) {
    forall id :: id in s.users && s.users[id].account == account && id in s'.users ==>
      s'.users[id] == User(account, UnlockedBy(s', account), Min(s.users[id].activeTheme, UnlockedBy(s', account)))
  }

  /** The answer to a billing event, and everything it changes. */
  lemma BillDoes(s: State, e: Event)
    ensures var (s', answer) := Bill(s, e);
            if e.account !in s.subscriptions then answer == AccountNotFound && s' == s
            else if e.id in s.seen then answer == (if s.seen[e.id] == e.payload then Duplicate else PayloadConflict) && s' == s
            else if e.version <= s.subscriptions[e.account].version then
              answer == Accepted(true) && s' == s.(seen := s.seen[e.id := e.payload])
            else
              && answer == Accepted(false) && s'.seen == s.seen[e.id := e.payload]
              && s'.subscriptions
                 == s.subscriptions[e.account := Subscription(e.plan, e.kind == Activated || e.kind == Renewed, e.version)]
              && OnlyAccountChanged(s, s', e.account) && UsersFollow(s, s', e.account)
  {
  }

  /** A valid code changes something exactly when its tier is above what is unlocked; it sets the plan and nothing else. */
  lemma RedeemDoes(s: State, account: Id, plan: PlanId)
    ensures var (s', changed) := Redeem(s, account, plan);
            && (changed <==> TierNumber(plan) > UnlockedBy(s, account))
            && (!changed ==> s' == s)
            && (changed ==>
                  && s'.seen == s.seen && account in s'.subscriptions
                  && s'.subscriptions[account] == (if account in s.subscriptions then s.subscriptions[account].(plan := plan)
                                                   else Subscription(plan, true, 0))
                  && OnlyAccountChanged(s, s', account) && UsersFollow(s, s', account))
  {
  }

  /** A theme is chosen exactly when its tier is unlocked, by that user alone; a refusal names what is unlocked. */
  lemma ThemeIsChosenIff(s: State, user: Id, theme: int)
    requires user in s.users
    ensures var (s', answer) := ChooseTheme(s, user, theme);
            var account := s.users[user].account;
            var unlocked := UnlockedBy(s, account);
            && (answer == Chosen <==> theme <= unlocked)
            && (answer == Chosen ==> s' == s.(users := s.users[user := User(account, unlocked, theme)]))
            && (answer != Chosen ==> answer == TierLocked(unlocked) && s' == s)
  {
  }
}
