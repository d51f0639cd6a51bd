/**
 Provider health (src/daily_agent/gateway/health.py): a circuit breaker per provider, a cooldown per model, and models
 disabled for good. The fields are shown to be exactly what the whole log of events says they should be.
 */
module Health {
  import opened Options

  type Name = string

  datatype Kind = RateLimited | Timeout | Server | Auth | Invalid | NonZeroPrice | Rejected

  datatype Breaker = Breaker(failures: nat, openedAt: Option<real>, probing: bool)

  const CLOSED := Breaker(0, None, false)

  datatype Settings = Settings(threshold: nat, openSeconds: real, defaultCooldown: real, maxCooldown: real)

  datatype State = State(breakers: map<Name, Breaker>, cooldowns: map<(Name, Name), real>, disabled: set<(Name, Name)>)

  const INITIAL := State(map[], map[], {})

  datatype Event =
    | Began(provider: Name)
    | Succeeded(provider: Name)
    | Failed(provider: Name, model: Name, kind: Kind, retryAfter: Option<real>, at: real)

  function BreakerOf(s: State, provider: Name): Breaker {
    if provider in s.breakers then s.breakers[provider] else CLOSED
  }

  function CooldownSeconds(g: Settings, retryAfter: Option<real>): real {
    var seconds := if retryAfter.None? || retryAfter.value <= 0.0 then g.defaultCooldown else retryAfter.value;
    if seconds <= g.maxCooldown then seconds else g.maxCooldown
  }

  function ProbeReleased(s: State, provider: Name): State {
    if provider in s.breakers then s.(breakers := s.breakers[provider := s.breakers[provider].(probing := false)]) else s
  }

  function Step(g: Settings, s: State, e: Event): State {
    match e
    case Began(provider) =>
      if BreakerOf(s, provider).openedAt.Some? then
        s.(breakers := s.breakers[provider := BreakerOf(s, provider).(probing := true)])
      else s
    case Succeeded(provider) =>
      s.(breakers := s.breakers[provider := CLOSED])
    case Failed(provider, model, kind, retryAfter, at) =>
      match kind
      case NonZeroPrice => s.(disabled := s.disabled + {(provider, model)})
      case RateLimited =>
        ProbeReleased(s.(cooldowns := s.cooldowns[(provider, model) := at + CooldownSeconds(g, retryAfter)]), provider)
      case Rejected => ProbeReleased(s, provider)
      case _ =>
        var b := BreakerOf(s, provider);
        var n := b.failures + 1;
        s.(breakers := s.breakers[provider :=
          Breaker(n, if kind == Auth || n >= g.threshold then Some(at) else b.openedAt, false)])
  }

  predicate Available(g: Settings, s: State, provider: Name, model: Name, now: real) {
    if (provider, model) in s.disabled then false
    else if (provider, model) in s.cooldowns && now < s.cooldowns[(provider, model)] then false
    else
      var b := BreakerOf(s, provider);
      b.openedAt.None? || (now - b.openedAt.value >= g.openSeconds && !b.probing)
  }

  function Replay(g: Settings, log: seq<Event>): State {
    if log == [] then INITIAL else Step(g, Replay(g, log[..|log| - 1]), log[|log| - 1])
  }

  class HealthTracker {
    const settings: Settings
    var breakers: map<Name, Breaker>
    var cooldowns: map<(Name, Name), real>
    var disabled: set<(Name, Name)>

    function Snapshot(): State
      reads this
    {
      State(breakers, cooldowns, disabled)
    }

    constructor (settings: Settings)
      ensures Snapshot() == INITIAL && this.settings == settings
    {
      this.settings := settings;
      breakers, cooldowns, disabled := map[], map[], {};
    }

    method BeginCall(provider: Name)
      modifies this
      ensures Snapshot() == Step(settings, old(Snapshot()), Began(provider))
    {
      if provider in breakers && breakers[provider].openedAt.Some? {
        breakers := breakers[provider := breakers[provider].(probing := true)];
      }
    }

    method RecordSuccess(provider: Name)
      modifies this
      ensures Snapshot() == Step(settings, old(Snapshot()), Succeeded(provider))
    {
      breakers := breakers[provider := Breaker(0, None, false)];
    }

    method ReleaseProbe(provider: Name)
      modifies this
      ensures Snapshot() == ProbeReleased(old(Snapshot()), provider)
    {
      if provider in breakers {
        breakers := breakers[provider := breakers[provider].(probing := false)];
      }
    }

    method RecordFailure(provider: Name, model: Name, kind: Kind, retryAfter: Option<real>, now: real)
      modifies this
      ensures Snapshot() == Step(settings, old(Snapshot()), Failed(provider, model, kind, retryAfter, now))
    {
      var key := (provider, model);
      if kind == NonZeroPrice {
        disabled := disabled + {key};
        return;
      }
      if kind == RateLimited {
        var seconds := settings.defaultCooldown;
        if retryAfter.Some? && retryAfter.value > 0.0 {
          seconds := retryAfter.value;
        }
        cooldowns := cooldowns[key := now + (if seconds <= settings.maxCooldown then seconds else settings.maxCooldown)];
        ReleaseProbe(provider);
        return;
      }
      if kind == Rejected {
        ReleaseProbe(provider);
        return;
      }
      var b := if provider in breakers then breakers[provider] else Breaker(0, None, false);
      b := b.(probing := false, failures := b.failures + 1);
      if kind == Auth || b.failures >= settings.threshold {
        b := b.(openedAt := Some(now));
      }
      breakers := breakers[provider := b];
    }
  }

  // ---------- What the log says ----------

  /** Failures that count towards the threshold. */
  predicate Counts(e: Event, provider: Name) {
    e.Failed? && e.provider == provider && e.kind !in {NonZeroPrice, RateLimited, Rejected}
  }

  predicate NoSuccessFrom(log: seq<Event>, provider: Name, i: int)
    requires 0 <= i
  {
    forall j :: i <= j < |log| ==> log[j] != Succeeded(provider)
  }

  /** The positions of the counting failures since the provider's last success. */
  function FailuresSince(log: seq<Event>, provider: Name): set<int> {
    set i | 0 <= i < |log| && Counts(log[i], provider) && NoSuccessFrom(log, provider, i)
  }

  /** A failure that opens the breaker: it is an AUTH failure, or the failures since the last success reach the threshold. */
  predicate Opens(g: Settings, log: seq<Event>, provider: Name, i: int) {
    && i in FailuresSince(log, provider)
    && (log[i].kind == Auth || |FailuresSince(log[..i + 1], provider)| >= g.threshold)
  }

  predicate OpenedLastAt(g: Settings, log: seq<Event>, provider: Name, i: int) {
    Opens(g, log, provider, i) && forall j :: i < j < |log| ==> !Opens(g, log, provider, j)
  }

  ghost predicate IsOpen(g: Settings, log: seq<Event>, provider: Name) {
    exists i :: Opens(g, log, provider, i)
  }

  /** Every outcome ends a probe, except a failure for a non-zero price. */
  predicate EndsProbe(e: Event, provider: Name) {
    e == Succeeded(provider) || (e.Failed? && e.provider == provider && e.kind != NonZeroPrice)
  }

  /** A call began while the breaker was open, and no outcome has ended its probe. */
  ghost predicate ProbeFrom(g: Settings, log: seq<Event>, provider: Name, i: int) {
    && 0 <= i < |log| && log[i] == Began(provider) && IsOpen(g, log[..i], provider)
    && forall j :: i < j < |log| ==> !EndsProbe(log[j], provider)
  }

  ghost predicate IsProbing(g: Settings, log: seq<Event>, provider: Name) {
    exists i :: ProbeFrom(g, log, provider, i)
  }

  predicate IsRateLimit(e: Event, provider: Name, model: Name) {
    e.Failed? && e.provider == provider && e.model == model && e.kind == RateLimited
  }

  predicate LimitedLastAt(log: seq<Event>, provider: Name, model: Name, i: int) {
    && 0 <= i < |log| && IsRateLimit(log[i], provider, model)
    && forall j :: i < j < |log| ==> !IsRateLimit(log[j], provider, model)
  }

  predicate IsPriced(e: Event, provider: Name, model: Name) {
    e.Failed? && e.provider == provider && e.model == model && e.kind == NonZeroPrice
  }

  /** The seconds the provider asked for have passed, or the default when it asked for none, or the longest cooldown. */
  predicate HasCooled(g: Settings, e: Event, now: real)
    requires e.Failed?
  {
    || now - e.at >= g.maxCooldown
    || now - e.at >= (if e.retryAfter.Some? && e.retryAfter.value > 0.0 then e.retryAfter.value else g.defaultCooldown)
  }

  /** Availability read off the whole log. */
  ghost predicate AvailableByLog(g: Settings, log: seq<Event>, provider: Name, model: Name, now: real) {
    && (forall i :: 0 <= i < |log| ==> !IsPriced(log[i], provider, model))
    && (forall i :: LimitedLastAt(log, provider, model, i) ==> HasCooled(g, log[i], now))
    && (forall i :: OpenedLastAt(g, log, provider, i) ==> now - log[i].at >= g.openSeconds)
    && (IsOpen(g, log, provider) ==> !IsProbing(g, log, provider))
  }

  // ---------- Agreement, component by component ----------

  lemma FailuresGrow(log: seq<Event>, e: Event, provider: Name)
    ensures FailuresSince(log + [e], provider)
         == if e == Succeeded(provider) then {}
            else if Counts(e, provider) then FailuresSince(log, provider) + {|log|}
            else FailuresSince(log, provider)
  {
    var log' := log + [e];
    if e == Succeeded(provider) {
      assert forall i :: 0 <= i < |log'| ==> !NoSuccessFrom(log', provider, i) by {
        assert log'[|log|] == Succeeded(provider);
      }
    } else {
      assert forall i :: 0 <= i < |log| ==> (NoSuccessFrom(log', provider, i) <==> NoSuccessFrom(log, provider, i)) by {
        forall i | 0 <= i < |log| && NoSuccessFrom(log', provider, i) ensures NoSuccessFrom(log, provider, i) {
          forall j | i <= j < |log| ensures log[j] != Succeeded(provider) { assert log'[j] == log[j]; }
        }
      }
      assert NoSuccessFrom(log', provider, |log|);
    }
  }

  lemma CountGrows(log: seq<Event>, e: Event, provider: Name)
    ensures |FailuresSince(log + [e], provider)|
         == if e == Succeeded(provider) then 0
            else if Counts(e, provider) then |FailuresSince(log, provider)| + 1
            else |FailuresSince(log, provider)|
  {
    FailuresGrow(log, e, provider);
    assert |log| !in FailuresSince(log, provider);
  }

  lemma {:induction false} FailuresAgree(g: Settings, log: seq<Event>, provider: Name)
    ensures BreakerOf(Replay(g, log), provider).failures == |FailuresSince(log, provider)|
  {
    if log != [] {
      var before, e := log[..|log| - 1], log[|log| - 1];
      assert log == before + [e];
      FailuresAgree(g, before, provider);
      CountGrows(before, e, provider);
    }
  }

  /** The failure e, coming after the log, opens the breaker. */
  predicate Trips(g: Settings, log: seq<Event>, e: Event, provider: Name) {
    Counts(e, provider) && (e.kind == Auth || |FailuresSince(log, provider)| + 1 >= g.threshold)
  }

  /** Earlier openings survive everything but a success; a counting failure may add itself. */
  lemma OpeningsGrow(g: Settings, log: seq<Event>, e: Event, provider: Name, i: int)
    ensures Opens(g, log + [e], provider, i)
            <==> (e != Succeeded(provider) && Opens(g, log, provider, i)) || (i == |log| && Trips(g, log, e, provider))
  {
    FailuresGrow(log, e, provider);
    var log' := log + [e];
    if 0 <= i < |log| {
      assert log'[..i + 1] == log[..i + 1];
    } else if i == |log| {
      assert log'[..i + 1] == log';
      assert |log| !in FailuresSince(log, provider);
    }
  }

  lemma IsOpenGrows(g: Settings, log: seq<Event>, e: Event, provider: Name)
    ensures IsOpen(g, log + [e], provider)
            <==> (e != Succeeded(provider) && IsOpen(g, log, provider)) || Trips(g, log, e, provider)
  {
    if i :| Opens(g, log + [e], provider, i) {
      OpeningsGrow(g, log, e, provider, i);
    }
    if i :| Opens(g, log, provider, i) {
      OpeningsGrow(g, log, e, provider, i);
    }
    OpeningsGrow(g, log, e, provider, |log|);
  }

  lemma OpenedLastGrows(g: Settings, log: seq<Event>, e: Event, provider: Name, i: int)
    requires OpenedLastAt(g, log + [e], provider, i)
    ensures i == |log| <==> Trips(g, log, e, provider)
    ensures i != |log| ==> e != Succeeded(provider) && OpenedLastAt(g, log, provider, i)
  {
    OpeningsGrow(g, log, e, provider, i);
    OpeningsGrow(g, log, e, provider, |log|);
    if i != |log| {
      forall j | i < j < |log| ensures !Opens(g, log, provider, j) {
        assert !Opens(g, log + [e], provider, j);
        OpeningsGrow(g, log, e, provider, j);
      }
    }
  }

  /** How one event moves the time at which the provider's breaker opened. */
  lemma StepOnOpening(g: Settings, log: seq<Event>, e: Event, provider: Name)
    ensures BreakerOf(Replay(g, log + [e]), provider).openedAt
         == if e == Succeeded(provider) then None
            else if Trips(g, log, e, provider) then Some(e.at)
            else BreakerOf(Replay(g, log), provider).openedAt
  {
    FailuresAgree(g, log, provider);
    assert (log + [e])[..|log|] == log;
  }

  lemma {:induction false} OpeningAgrees(g: Settings, log: seq<Event>, provider: Name)
    ensures BreakerOf(Replay(g, log), provider).openedAt.None? <==> !IsOpen(g, log, provider)
    ensures forall i :: OpenedLastAt(g, log, provider, i) ==>
                          BreakerOf(Replay(g, log), provider).openedAt == Some(log[i].at)
  {
    if log != [] {
      var before, e := log[..|log| - 1], log[|log| - 1];
      assert log == before + [e];
      OpeningAgrees(g, before, provider);
      StepOnOpening(g, before, e, provider);
      IsOpenGrows(g, before, e, provider);
      forall i | OpenedLastAt(g, log, provider, i)
        ensures BreakerOf(Replay(g, log), provider).openedAt == Some(log[i].at)
      {
        OpenedLastGrows(g, before, e, provider, i);
      }
    }
  }

  lemma ProbesGrow(g: Settings, log: seq<Event>, e: Event, provider: Name, i: int)
    ensures ProbeFrom(g, log + [e], provider, i)
            <==> (!EndsProbe(e, provider) && ProbeFrom(g, log, provider, i))
                 || (i == |log| && e == Began(provider) && IsOpen(g, log, provider))
  {
    var log' := log + [e];
    if 0 <= i < |log| {
      assert log'[..i] == log[..i];
      if ProbeFrom(g, log', provider, i) {
        forall j | i < j < |log| ensures !EndsProbe(log[j], provider) { assert log'[j] == log[j]; }
        assert log'[|log|] == e;
      }
    } else if i == |log| {
      assert log'[..i] == log;
    }
  }

  lemma ProbingGrows(g: Settings, log: seq<Event>, e: Event, provider: Name)
    ensures IsProbing(g, log + [e], provider)
            <==> (!EndsProbe(e, provider) && IsProbing(g, log, provider)) || (e == Began(provider) && IsOpen(g, log, provider))
  {
    if IsProbing(g, log + [e], provider) {
      var i :| ProbeFrom(g, log + [e], provider, i);
      ProbesGrow(g, log, e, provider, i);
    }
    if IsProbing(g, log, provider) {
      var i :| ProbeFrom(g, log, provider, i);
      ProbesGrow(g, log, e, provider, i);
    }
    ProbesGrow(g, log, e, provider, |log|);
  }

  lemma {:induction false} ProbingAgrees(g: Settings, log: seq<Event>, provider: Name)
    ensures BreakerOf(Replay(g, log), provider).probing <==> IsProbing(g, log, provider)
  {
    if log != [] {
      var before, e := log[..|log| - 1], log[|log| - 1];
      assert log == before + [e];
      ProbingAgrees(g, before, provider);
      ProbingGrows(g, before, e, provider);
      assert BreakerOf(Replay(g, before), provider).openedAt.None? <==> !IsOpen(g, before, provider) by {
        OpeningAgrees(g, before, provider);
      }
    }
  }

  lemma {:induction false} CooldownAgrees(g: Settings, log: seq<Event>, provider: Name, model: Name)
    ensures var s := Replay(g, log);
            && ((provider, model) in s.cooldowns <==> exists i :: LimitedLastAt(log, provider, model, i))
            && (forall i :: LimitedLastAt(log, provider, model, i) ==>
                  (provider, model) in s.cooldowns
                  && s.cooldowns[(provider, model)] == log[i].at + CooldownSeconds(g, log[i].retryAfter))
  {
    if log != [] {
      var before, e := log[..|log| - 1], log[|log| - 1];
      assert log == before + [e];
      CooldownAgrees(g, before, provider, model);
      if IsRateLimit(e, provider, model) {
        assert LimitedLastAt(log, provider, model, |before|);
      } else {
        forall i ensures LimitedLastAt(log, provider, model, i) <==> LimitedLastAt(before, provider, model, i) {
          if LimitedLastAt(log, provider, model, i) {
            forall j | i < j < |before| ensures !IsRateLimit(before[j], provider, model) { assert log[j] == before[j]; }
          }
        }
      }
    }
  }

  lemma {:induction false} DisabledAgrees(g: Settings, log: seq<Event>, provider: Name, model: Name)
    ensures (provider, model) in Replay(g, log).disabled
            <==> exists i :: 0 <= i < |log| && IsPriced(log[i], provider, model)
  {
    if log != [] {
      var before, e := log[..|log| - 1], log[|log| - 1];
      assert log == before + [e];
      DisabledAgrees(g, before, provider, model);
      if exists i :: 0 <= i < |before| && IsPriced(before[i], provider, model) {
        var i :| 0 <= i < |before| && IsPriced(before[i], provider, model);
        assert IsPriced(log[i], provider, model);
      }
    }
  }

  lemma {:induction false} SomeOpensLast(g: Settings, log: seq<Event>, provider: Name, i: int)
    requires Opens(g, log, provider, i)
    ensures exists j :: OpenedLastAt(g, log, provider, j)
    decreases |log| - i
  {
    if !OpenedLastAt(g, log, provider, i) {
      var j :| i < j < |log| && Opens(g, log, provider, j);
      SomeOpensLast(g, log, provider, j);
    }
  }

  /** After any sequence of events, availability is what the whole log says. */
  lemma AvailabilityIsTheLogs(g: Settings, log: seq<Event>, provider: Name, model: Name, now: real)
    ensures Available(g, Replay(g, log), provider, model, now) <==> AvailableByLog(g, log, provider, model, now)
  {
    DisabledAgrees(g, log, provider, model);
    CooldownAgrees(g, log, provider, model);
    OpeningAgrees(g, log, provider);
    ProbingAgrees(g, log, provider);
    if IsOpen(g, log, provider) {
      var i :| Opens(g, log, provider, i);
      SomeOpensLast(g, log, provider, i);
    }
  }
}
