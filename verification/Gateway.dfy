/**
 The model gateway (src/daily_agent/gateway/service.py): route a request, judge the reply, retry at most once on another
 model. A provider's behaviour is arbitrary: it is given as the answer it would make for each model.
 */
module Gateway {
  import opened Options
  import opened Sorting
  import opened Health
  import opened Router

  const MAX_ATTEMPTS := 2

  datatype Rejection = EmptyReply | ContentFiltered | WrongLanguage

  datatype Reason = NoEligibleModel | ProviderFailed(kind: Kind) | Refused(why: Rejection)

  datatype Operation = Generate | GenerateFailed | GenerateRejected

  datatype Call = Call(provider: string, modelId: string, operation: Operation)

  datatype Answer =
    | Replied(text: string, finish: Option<string>)
    | ProviderError(kind: Kind, retryAfter: Option<real>)

  datatype Result = Result(text: Option<string>, calls: seq<Call>, action: Option<string>, failed: bool,
                           reason: Option<Reason>, attempts: nat)

  // ---------- One attempt ----------

  /** The characters Python's str.strip removes. */
  predicate IsSpace(c: char) {
    var k := c as int;
    || 9 <= k <= 13 || 28 <= k <= 32 || k == 0x85 || k == 0xa0 || k == 0x1680 || 0x2000 <= k <= 0x200a
    || k == 0x2028 || k == 0x2029 || k == 0x202f || k == 0x205f || k == 0x3000
  }

  function ValidateOutput(text: string, finish: Option<string>, task: Task): Option<Rejection> {
    if forall i :: 0 <= i < |text| ==> IsSpace(text[i]) then Some(EmptyReply)
    else if finish == Some("content_filter") then Some(ContentFiltered)
    else if task == Hindi && forall i :: 0 <= i < |text| ==> !(0x900 <= text[i] as int <= 0x97f) then Some(WrongLanguage)
    else None
  }

  datatype Attempt = Attempt(reply: Option<string>, reason: Option<Reason>, call: Call)

  function Judge(m: Model, answer: Answer, task: Task): Attempt {
    match answer
    case ProviderError(kind, _) =>
      Attempt(None, Some(ProviderFailed(kind)), Call(m.provider, m.modelId, GenerateFailed))
    case Replied(text, finish) =>
      match ValidateOutput(text, finish, task)
      case Some(why) => Attempt(None, Some(Refused(why)), Call(m.provider, m.modelId, GenerateRejected))
      case None => Attempt(Some(text), None, Call(m.provider, m.modelId, Generate))
  }

  /** What one attempt on m reports to the health tracker, its failure being recorded at the given time. */
  function Reported(g: Settings, s: State, m: Model, answer: Answer, at: real): State {
    var begun := Step(g, s, Began(m.provider));
    match answer
    case ProviderError(kind, retryAfter) => Step(g, begun, Failed(m.provider, m.modelId, kind, retryAfter, at))
    case Replied(_, _) => Step(g, begun, Succeeded(m.provider))
  }

  // ---------- A whole request ----------

  /** The models that were available at each of the three times the registry is consulted. */
  datatype Openings = Openings(first: set<Model>, stricter: set<Model>, fallback: set<Model>)

  predicate OthersFirst(provider: string, m: Model, n: Model) {
    m.provider == provider ==> n.provider == provider
  }

  function FirstPool(registry: seq<Model>, r: Request, open: set<Model>): seq<Model> {
    EligibleModels(registry, r, open, {}, None)
  }

  function Candidates(registry: seq<Model>, r: Request, first: Model, refused: bool, open: Openings): seq<Model> {
    var stricter :=
      if refused then EligibleModels(registry, r, open.stricter, {first.Action()}, Some(first.cls.Rank() + 1)) else [];
    if stricter != [] then stricter else EligibleModels(registry, r, open.fallback, {first.Action()}, None)
  }

  function RetryPool(registry: seq<Model>, r: Request, first: Model, refused: bool, open: Openings): seq<Model> {
    Sort((m: Model, n: Model) => OthersFirst(first.provider, m, n), Candidates(registry, r, first, refused, open))
  }

  predicate WasRefused(a: Attempt) {
    a.reason.Some? && a.reason.value.Refused?
  }

  /** The attempts on `first` and, when that fails, on the first model of the retry pool. */
  function Attempts(r: Request, answer: Model -> Answer, first: Model, retry: seq<Model>): Result {
    var one := Judge(first, answer(first), r.task);
    if one.reply.Some? then Result(one.reply, [one.call], Some(first.Action()), false, None, 1)
    else if retry == [] then Result(None, [one.call], Some(first.Action()), true, one.reason, 1)
    else
      var two := Judge(retry[0], answer(retry[0]), r.task);
      Result(two.reply, [one.call, two.call], Some(retry[0].Action()), two.reply.None?, two.reason, 2)
  }

  function Respond(registry: seq<Model>, r: Request, answer: Model -> Answer, open: Openings): Result {
    var pool := FirstPool(registry, r, open.first);
    if pool == [] then Result(None, [], None, true, Some(NoEligibleModel), 0)
    else
      var refused := WasRefused(Judge(pool[0], answer(pool[0]), r.task));
      Attempts(r, answer, pool[0], RetryPool(registry, r, pool[0], refused, open))
  }

  // ---------- The clock and the tracker ----------

  /** The registry is consulted at three times, and the failures of the two attempts are recorded at two more. */
  datatype Clock = Clock(first: real, stricter: real, fallback: real, firstFailed: real, secondFailed: real)

  function OpenIn(registry: seq<Model>, g: Settings, s: State, now: real): set<Model> {
    set m | m in registry && Available(g, s, m.provider, m.modelId, now)
  }

  function Seen(registry: seq<Model>, r: Request, answer: Model -> Answer, g: Settings, s: State, c: Clock): Openings {
    var open := OpenIn(registry, g, s, c.first);
    var pool := FirstPool(registry, r, open);
    if pool == [] then Openings(open, {}, {})
    else
      var after := Reported(g, s, pool[0], answer(pool[0]), c.firstFailed);
      Openings(open, OpenIn(registry, g, after, c.stricter), OpenIn(registry, g, after, c.fallback))
  }

  /** The tracker after the whole request: every attempt was reported to it, and nothing else. */
  function Told(registry: seq<Model>, r: Request, answer: Model -> Answer, g: Settings, s: State, c: Clock): State {
    var open := Seen(registry, r, answer, g, s, c);
    var pool := FirstPool(registry, r, open.first);
    if pool == [] then s
    else
      var after := Reported(g, s, pool[0], answer(pool[0]), c.firstFailed);
      var one := Judge(pool[0], answer(pool[0]), r.task);
      var retry := RetryPool(registry, r, pool[0], WasRefused(one), open);
      if one.reply.Some? || retry == [] then after
      else Reported(g, after, retry[0], answer(retry[0]), c.secondFailed)
  }

  class Service {
    const registry: seq<Model>
    const health: HealthTracker

    constructor (registry: seq<Model>, health: HealthTracker)
      ensures this.registry == registry && this.health == health
    {
      this.registry, this.health := registry, health;
    }

    method Try(m: Model, answer: Answer, task: Task, at: real, calls: seq<Call>)
      returns (reply: Option<string>, reason: Option<Reason>, logged: seq<Call>)
      modifies health
      ensures health.Snapshot() == Reported(health.settings, old(health.Snapshot()), m, answer, at)
      ensures reply == Judge(m, answer, task).reply && reason == Judge(m, answer, task).reason
      ensures logged == calls + [Judge(m, answer, task).call]
    {
      health.BeginCall(m.provider);
      if answer.ProviderError? {
        health.RecordFailure(m.provider, m.modelId, answer.kind, answer.retryAfter, at);
        return None, Some(ProviderFailed(answer.kind)), calls + [Call(m.provider, m.modelId, GenerateFailed)];
      }
      health.RecordSuccess(m.provider);
      var rejection := ValidateOutput(answer.text, answer.finish, task);
      if rejection.Some? {
        return None, Some(Refused(rejection.value)), calls + [Call(m.provider, m.modelId, GenerateRejected)];
      }
      return Some(answer.text), None, calls + [Call(m.provider, m.modelId, Generate)];
    }

    /** The models a second attempt may use, the best first. */
    method SecondPool(r: Request, first: Model, refused: bool, c: Clock, ghost seen: Openings) returns (retry: seq<Model>)
      requires seen.stricter == OpenIn(registry, health.settings, health.Snapshot(), c.stricter)
      requires seen.fallback == OpenIn(registry, health.settings, health.Snapshot(), c.fallback)
      ensures retry == RetryPool(registry, r, first, refused, seen)
    {
      retry := [];
      if refused {
        retry := EligibleModels(registry, r, OpenIn(registry, health.settings, health.Snapshot(), c.stricter),
                                {first.Action()}, Some(first.cls.Rank() + 1));
      }
      if retry == [] {
        retry := EligibleModels(registry, r, OpenIn(registry, health.settings, health.Snapshot(), c.fallback),
                                {first.Action()}, None);
      }
      assert retry == Candidates(registry, r, first, refused, seen);
      retry := Sort((m: Model, n: Model) => OthersFirst(first.provider, m, n), retry);
    }

    method Run(r: Request, answer: Model -> Answer, c: Clock) returns (result: Result)
      modifies health
      ensures var seen := Seen(registry, r, answer, health.settings, old(health.Snapshot()), c);
              result == Respond(registry, r, answer, seen)
      ensures health.Snapshot() == Told(registry, r, answer, health.settings, old(health.Snapshot()), c)
    {
      ghost var seen := Seen(registry, r, answer, health.settings, health.Snapshot(), c);
      var pool := FirstPool(registry, r, OpenIn(registry, health.settings, health.Snapshot(), c.first));
      if pool == [] {
        return Result(None, [], None, true, Some(NoEligibleModel), 0);
      }
      var calls := [];
      var first := pool[0];
      var reply, reason;
      ghost var one := Judge(first, answer(first), r.task);
      ghost var planned := RetryPool(registry, r, first, WasRefused(one), seen);
      assert Respond(registry, r, answer, seen) == Attempts(r, answer, first, planned);
      reply, reason, calls := Try(first, answer(first), r.task, c.firstFailed, calls);
      assert calls == [one.call];
      if reply.Some? {
        return Result(reply, calls, Some(first.Action()), false, None, 1);
      }
      var retry := SecondPool(r, first, reason.Some? && reason.value.Refused?, c, seen);
      if retry == [] {
        return Result(None, calls, Some(first.Action()), true, reason, 1);
      }
      var second := retry[0];
      reply, reason, calls := Try(second, answer(second), r.task, c.secondFailed, calls);
      assert calls == [one.call, Judge(second, answer(second), r.task).call];
      if reply.Some? {
        return Result(reply, calls, Some(second.Action()), false, None, 2);
      }
      return Result(None, calls, Some(second.Action()), true, reason, 2);
    }
  }

  // ---------- Who is tried ----------

  /** m is among the usable models of the registry and comes before every other one. */
  ghost predicate IsFirstChoice(registry: seq<Model>, r: Request, open: set<Model>, m: Model) {
    && m in registry && Usable(m, r, open)
    && forall n :: n in registry && Usable(n, r, open) ==> ModelLeq(r.task, m, n)
  }

  /** The models a retry may use after `first`: higher classes alone when a reply was refused and one is available. */
  predicate MayRetry(registry: seq<Model>, r: Request, first: Model, refused: bool, open: Openings, m: Model) {
    if refused && HigherExists(registry, r, first, open) then
      m in registry && Usable(m, r, open.stricter) && m.cls.Rank() > first.cls.Rank()
    else
      m in registry && Usable(m, r, open.fallback) && m != first
  }

  predicate HigherExists(registry: seq<Model>, r: Request, first: Model, open: Openings) {
    exists m :: m in registry && Usable(m, r, open.stricter) && m.cls.Rank() > first.cls.Rank()
  }

  /** A retry prefers another provider, and then the order of the router. */
  predicate RetryLeq(task: Task, first: Model, m: Model, n: Model) {
    if (m.provider == first.provider) != (n.provider == first.provider) then n.provider == first.provider
    else ModelLeq(task, m, n)
  }

  ghost predicate IsRetryChoice(registry: seq<Model>, r: Request, first: Model, refused: bool, open: Openings, m: Model) {
    && MayRetry(registry, r, first, refused, open, m)
    && forall n :: MayRetry(registry, r, first, refused, open, n) ==> RetryLeq(r.task, first, m, n)
  }

  /** The earliest model of another provider, or else the earliest model. */
  function Preferred(provider: string, xs: seq<Model>): (m: Model)
    requires xs != []
    ensures m in xs
  {
    if xs[0].provider != provider || |xs| == 1 then xs[0]
    else
      var p := Preferred(provider, xs[1..]);
      if p.provider != provider then p else xs[0]
  }

  lemma {:induction false} SortPutsPreferredFirst(provider: string, xs: seq<Model>)
    requires xs != []
    ensures Sort((m: Model, n: Model) => OthersFirst(provider, m, n), xs)[0] == Preferred(provider, xs)
  {
    if |xs| > 1 {
      SortPutsPreferredFirst(provider, xs[1..]);
    }
  }

  lemma {:induction false} PreferredIsLeast(r: Request, first: Model, xs: seq<Model>, n: Model)
    requires Ascending((m: Model, n: Model) => ModelLeq(r.task, m, n), xs)
    requires n in xs
    ensures RetryLeq(r.task, first, Preferred(first.provider, xs), n)
  {
    var leq := (m: Model, n: Model) => ModelLeq(r.task, m, n);
    StringOrder(n.Action(), n.Action(), n.Action());
    var k :| 0 <= k < |xs| && xs[k] == n;
    assert k > 0 ==> leq(xs[0], xs[k]);
    if |xs| > 1 && k > 0 {
      assert xs[1..][k - 1] == n;
      assert Ascending(leq, xs[1..]) by {
        forall i, j | 0 <= i < j < |xs| - 1 ensures leq(xs[1..][i], xs[1..][j]) { assert leq(xs[i + 1], xs[j + 1]); }
      }
      PreferredIsLeast(r, first, xs[1..], n);
    }
  }

  lemma FirstIsChosen(registry: seq<Model>, r: Request, open: set<Model>)
    requires WellFormed(registry)
    ensures var pool := EligibleModels(registry, r, open, {}, None);
            && (pool == [] <==> forall m :: m in registry ==> !Usable(m, r, open))
            && (pool != [] ==> IsFirstChoice(registry, r, open, pool[0]))
  {
    EligibleModelsAre(registry, r, open, {}, None);
    var pool := EligibleModels(registry, r, open, {}, None);
    forall n | n in pool && pool != [] ensures ModelLeq(r.task, pool[0], n) {
      var i :| 0 <= i < |pool| && pool[i] == n;
      StringOrder(n.Action(), n.Action(), n.Action());
    }
    assert forall m :: m in pool <==> m in registry && Usable(m, r, open);
    assert pool != [] ==> pool[0] in pool;
  }

  lemma ActionsIdentifyIfEqual(registry: seq<Model>, m: Model, n: Model)
    requires WellFormed(registry) && m in registry && n in registry
    ensures m.Action() == n.Action() ==> m == n
  {
    if m.Action() == n.Action() {
      ActionsIdentify(registry, m, n);
    }
  }

  lemma OthersAre(registry: seq<Model>, r: Request, first: Model, open: set<Model>, minRank: Option<nat>)
    requires WellFormed(registry) && first in registry
    ensures var pool := EligibleModels(registry, r, open, {first.Action()}, minRank);
            && Ascending((m: Model, n: Model) => ModelLeq(r.task, m, n), pool)
            && forall m :: m in pool <==>
                 m in registry && Usable(m, r, open) && m != first && (minRank.Some? ==> m.cls.Rank() >= minRank.value)
  {
    EligibleModelsAre(registry, r, open, {first.Action()}, minRank);
    forall m | m in registry ensures m.Action() == first.Action() <==> m == first {
      ActionsIdentifyIfEqual(registry, m, first);
    }
  }

  lemma EitherPool(registry: seq<Model>, r: Request, first: Model, refused: bool, open: Openings,
                   stricter: seq<Model>, fallback: seq<Model>)
    requires forall m :: m in stricter <==>
               m in registry && Usable(m, r, open.stricter) && m.cls.Rank() > first.cls.Rank()
    requires forall m :: m in fallback <==> m in registry && Usable(m, r, open.fallback) && m != first
    ensures forall m :: m in (if refused && stricter != [] then stricter else fallback)
                   <==> MayRetry(registry, r, first, refused, open, m)
  {
    assert stricter != [] ==> stricter[0] in stricter;
    assert stricter != [] <==> HigherExists(registry, r, first, open);
  }

  lemma CandidatesAre(registry: seq<Model>, r: Request, first: Model, refused: bool, open: Openings)
    requires WellFormed(registry) && first in registry
    ensures forall m :: m in Candidates(registry, r, first, refused, open) <==> MayRetry(registry, r, first, refused, open, m)
    ensures Ascending((m: Model, n: Model) => ModelLeq(r.task, m, n), Candidates(registry, r, first, refused, open))
  {
    var stricter := EligibleModels(registry, r, open.stricter, {first.Action()}, Some(first.cls.Rank() + 1));
    var fallback := EligibleModels(registry, r, open.fallback, {first.Action()}, None);
    OthersAre(registry, r, first, open.stricter, Some(first.cls.Rank() + 1));
    OthersAre(registry, r, first, open.fallback, None);
    EitherPool(registry, r, first, refused, open, stricter, fallback);
    assert Candidates(registry, r, first, refused, open) == if refused && stricter != [] then stricter else fallback;
  }

  lemma SecondIsChosen(registry: seq<Model>, r: Request, first: Model, refused: bool, open: Openings)
    requires WellFormed(registry) && first in registry
    ensures var retry := RetryPool(registry, r, first, refused, open);
            && (retry == [] <==> forall m :: !MayRetry(registry, r, first, refused, open, m))
            && (retry != [] ==> IsRetryChoice(registry, r, first, refused, open, retry[0]))
  {
    var pool := Candidates(registry, r, first, refused, open);
    CandidatesAre(registry, r, first, refused, open);
    if pool != [] {
      assert pool[0] in pool;
      SortPutsPreferredFirst(first.provider, pool);
      forall n | n in pool ensures RetryLeq(r.task, first, Preferred(first.provider, pool), n) {
        PreferredIsLeast(r, first, pool, n);
      }
    }
  }

  // ---------- What a request guarantees ----------

  predicate Names(call: Call, m: Model) {
    call.provider == m.provider && call.modelId == m.modelId
  }

  /** The code points of white space in Python 3. */
  const SPACES := {0x09, 0x0a, 0x0b, 0x0c, 0x0d, 0x1c, 0x1d, 0x1e, 0x1f, 0x20, 0x85, 0xa0, 0x1680, 0x2000, 0x2001, 0x2002,
                   0x2003, 0x2004, 0x2005, 0x2006, 0x2007, 0x2008, 0x2009, 0x200a, 0x2028, 0x2029, 0x202f, 0x205f, 0x3000}

  lemma SpacesAre(c: char)
    ensures IsSpace(c) <==> c as int in SPACES
  {
  }

  predicate IsBlank(text: string) {
    forall c :: c in text ==> c as int in SPACES
  }

  predicate HasDevanagari(text: string) {
    exists c :: c in text && 0x900 <= c as int <= 0x97f
  }

  /** The refusal that a reply earns; blank replies come before filtered ones, and those before a wrong script. */
  predicate Earns(text: string, finish: Option<string>, task: Task, why: Rejection) {
    match why
    case EmptyReply => IsBlank(text)
    case ContentFiltered => !IsBlank(text) && finish == Some("content_filter")
    case WrongLanguage => !IsBlank(text) && finish != Some("content_filter") && task == Hindi && !HasDevanagari(text)
  }

  predicate IsAcceptable(text: string, finish: Option<string>, task: Task) {
    && !IsBlank(text) && finish != Some("content_filter")
    && (task == Hindi ==> HasDevanagari(text))
  }

  lemma OutputIsJudged(text: string, finish: Option<string>, task: Task)
    ensures ValidateOutput(text, finish, task).None? <==> IsAcceptable(text, finish, task)
    ensures ValidateOutput(text, finish, task).Some? ==> Earns(text, finish, task, ValidateOutput(text, finish, task).value)
  {
    assert IsBlank(text) <==> forall i :: 0 <= i < |text| ==> IsSpace(text[i]) by {
      forall c ensures IsSpace(c) <==> c as int in SPACES { SpacesAre(c); }
      forall i | 0 <= i < |text| && IsBlank(text) ensures IsSpace(text[i]) { assert text[i] in text; }
    }
    assert HasDevanagari(text) <==> exists i :: 0 <= i < |text| && 0x900 <= text[i] as int <= 0x97f by {
      if i :| 0 <= i < |text| && 0x900 <= text[i] as int <= 0x97f { assert text[i] in text; }
    }
  }

  /**
   The result is what the last model called made of it: its text unchanged when that is acceptable, and otherwise the
   refusal its text earns or the kind of error it raised; the action is that model's in every case.
   */
  predicate Delivers(result: Result, last: Model, answer: Answer, task: Task) {
    && result.action == Some(last.provider + "/" + last.modelId)
    && match answer
       case ProviderError(kind, _) => result.text == None && result.reason == Some(ProviderFailed(kind))
       case Replied(text, finish) =>
         if IsAcceptable(text, finish, task) then result.text == Some(text) && result.reason == None
         else
           && result.text == None && result.reason.Some? && result.reason.value.Refused?
           && Earns(text, finish, task, result.reason.value.why)
  }

  lemma AttemptsDeliver(r: Request, answer: Model -> Answer, first: Model, retry: seq<Model>)
    ensures var result := Attempts(r, answer, first, retry);
            && (result.attempts == 1 ==> Delivers(result, first, answer(first), r.task))
            && (result.attempts == 2 ==> retry != [] && Delivers(result, retry[0], answer(retry[0]), r.task))
  {
    if answer(first).Replied? { OutputIsJudged(answer(first).text, answer(first).finish, r.task); }
    if retry != [] && answer(retry[0]).Replied? { OutputIsJudged(answer(retry[0]).text, answer(retry[0]).finish, r.task); }
  }

  /** The reply each operation reports. */
  predicate Reports(call: Call, m: Model, answer: Answer, task: Task) {
    && Names(call, m)
    && (call.operation == GenerateFailed <==> answer.ProviderError?)
    && (call.operation == Generate <==> answer.Replied? && IsAcceptable(answer.text, answer.finish, task))
  }

  /**
   The whole contract of a request: one logged call for each attempt and at most two; success exactly when the last call
   was accepted; the first model is the router's first choice and the second its choice among those a retry may use;
   nothing usable is left untried when the gateway gives up early; and text, action and reason are those of the last model.
   */
  ghost predicate Honoured(registry: seq<Model>, r: Request, answer: Model -> Answer, open: Openings, result: Result) {
    && |result.calls| == result.attempts <= MAX_ATTEMPTS
    && (result.text.Some? <==> result.calls != [] && result.calls[|result.calls| - 1].operation == Generate)
    && result.failed == result.text.None? == result.reason.Some?
    && (forall i :: 0 <= i < |result.calls| - 1 ==> result.calls[i].operation != Generate)
    && (result.attempts == 0 <==> forall m :: m in registry ==> !Usable(m, r, open.first))
    && (result.attempts == 0 ==> result.action == None && result.reason == Some(NoEligibleModel))
    && (result.attempts > 0 ==> exists first :: HonouredBy(registry, r, answer, open, result, first))
  }

  /** `first` was the first choice; no second attempt was possible, or the second call went to the choice for a retry. */
  ghost predicate HonouredBy(registry: seq<Model>, r: Request, answer: Model -> Answer, open: Openings, result: Result,
                             first: Model)
    requires |result.calls| == result.attempts > 0
  {
    var refused := result.calls[0].operation == GenerateRejected;
    && IsFirstChoice(registry, r, open.first, first)
    && Reports(result.calls[0], first, answer(first), r.task)
    && (result.attempts == 1 && result.failed ==> forall m :: !MayRetry(registry, r, first, refused, open, m))
    && (result.attempts == 1 ==> Delivers(result, first, answer(first), r.task))
    && (result.attempts == 2 ==> exists second ::
          RetriedOn(registry, r, answer, open, result.calls, first, second) && Delivers(result, second, answer(second), r.task))
  }

  ghost predicate RetriedOn(registry: seq<Model>, r: Request, answer: Model -> Answer, open: Openings, calls: seq<Call>,
                            first: Model, second: Model)
    requires |calls| == 2
  {
    && IsRetryChoice(registry, r, first, calls[0].operation == GenerateRejected, open, second)
    && Reports(calls[1], second, answer(second), r.task)
  }

  lemma AttemptsReport(r: Request, answer: Model -> Answer, first: Model, retry: seq<Model>)
    ensures var result := Attempts(r, answer, first, retry);
            && 1 <= |result.calls| == result.attempts <= MAX_ATTEMPTS
            && result.failed == result.text.None? == result.reason.Some?
            && (result.text.Some? <==> result.calls[|result.calls| - 1].operation == Generate)
            && (result.attempts == 2 ==> result.calls[0].operation != Generate)
            && (result.attempts == 1 && result.failed ==> retry == [])
            && (result.attempts == 2 ==> retry != [] && Reports(result.calls[1], retry[0], answer(retry[0]), r.task))
            && Reports(result.calls[0], first, answer(first), r.task)
            && (result.calls[0].operation == GenerateRejected <==> WasRefused(Judge(first, answer(first), r.task)))
  {
    if answer(first).Replied? { OutputIsJudged(answer(first).text, answer(first).finish, r.task); }
    if retry != [] && answer(retry[0]).Replied? { OutputIsJudged(answer(retry[0]).text, answer(retry[0]).finish, r.task); }
  }

  /** At most two attempts, whatever the registry and the providers. */
  lemma RespondIsBounded(registry: seq<Model>, r: Request, answer: Model -> Answer, open: Openings)
    ensures |Respond(registry, r, answer, open).calls| == Respond(registry, r, answer, open).attempts <= MAX_ATTEMPTS
  {
    var pool := FirstPool(registry, r, open.first);
    if pool != [] {
      AttemptsReport(r, answer, pool[0],
                     RetryPool(registry, r, pool[0], WasRefused(Judge(pool[0], answer(pool[0]), r.task)), open));
    }
  }

  lemma HonouredFrom(registry: seq<Model>, r: Request, answer: Model -> Answer, open: Openings, first: Model,
                     retry: seq<Model>, result: Result, refused: bool)
    requires IsFirstChoice(registry, r, open.first, first)
    requires refused == WasRefused(Judge(first, answer(first), r.task))
    requires retry == [] <==> forall m :: !MayRetry(registry, r, first, refused, open, m)
    requires retry != [] ==> IsRetryChoice(registry, r, first, refused, open, retry[0])
    requires result == Attempts(r, answer, first, retry)
    ensures Honoured(registry, r, answer, open, result)
  {
    AttemptsReport(r, answer, first, retry);
    AttemptsDeliver(r, answer, first, retry);
    assert !forall m :: m in registry ==> !Usable(m, r, open.first);
    if result.attempts == 2 {
      assert RetriedOn(registry, r, answer, open, result.calls, first, retry[0]);
    }
    assert HonouredBy(registry, r, answer, open, result, first);
  }

  lemma GenerateHonours(registry: seq<Model>, r: Request, answer: Model -> Answer, open: Openings)
    requires WellFormed(registry)
    ensures Honoured(registry, r, answer, open, Respond(registry, r, answer, open))
  {
    FirstIsChosen(registry, r, open.first);
    var pool := FirstPool(registry, r, open.first);
    if pool != [] {
      var refused := WasRefused(Judge(pool[0], answer(pool[0]), r.task));
      var retry := RetryPool(registry, r, pool[0], refused, open);
      SecondIsChosen(registry, r, pool[0], refused, open);
      HonouredFrom(registry, r, answer, open, pool[0], retry, Respond(registry, r, answer, open), refused);
    }
  }

  /** The model that a call names is registered, of an allowed class at or above the start, and its context fits. */
  predicate InBounds(registry: seq<Model>, r: Request, call: Call, m: Model) {
    && m in registry && Names(call, m)
    && StartClass(r).Some? && m.cls in r.classes && m.cls.Rank() >= StartClass(r).value.Rank()
    && m.context >= r.promptTokens + r.maxOutputTokens
    && (r.structured ==> m.structured)
  }

  lemma HonouredCallsAreInBounds(registry: seq<Model>, r: Request, answer: Model -> Answer, open: Openings, result: Result,
                                 i: nat)
    requires Honoured(registry, r, answer, open, result) && i < |result.calls|
    ensures exists m :: InBounds(registry, r, result.calls[i], m)
  {
    var first :| HonouredBy(registry, r, answer, open, result, first);
    if i == 0 {
      assert InBounds(registry, r, result.calls[i], first);
    } else {
      var second :| RetriedOn(registry, r, answer, open, result.calls, first, second);
      assert InBounds(registry, r, result.calls[i], second);
    }
  }

  /** Every call, of any request to any registry. */
  lemma CallsStayInBounds(registry: seq<Model>, r: Request, answer: Model -> Answer, open: Openings, i: nat)
    requires WellFormed(registry)
    requires i < |Respond(registry, r, answer, open).calls|
    ensures exists m :: InBounds(registry, r, Respond(registry, r, answer, open).calls[i], m)
  {
    GenerateHonours(registry, r, answer, open);
    HonouredCallsAreInBounds(registry, r, answer, open, Respond(registry, r, answer, open), i);
  }

  lemma RetryFacts(registry: seq<Model>, r: Request, first: Model, refused: bool, open: Openings, second: Model)
    requires IsRetryChoice(registry, r, first, refused, open, second)
    ensures second in registry && second != first
    ensures refused && HigherExists(registry, r, first, open) ==> second.cls.Rank() > first.cls.Rank()
    ensures !refused && (exists m :: MayRetry(registry, r, first, refused, open, m) && m.provider != first.provider) ==>
              second.provider != first.provider
  {
  }

  /** What the second call adds to a first call on `first`. */
  ghost predicate Escalates(registry: seq<Model>, r: Request, open: Openings, calls: seq<Call>, first: Model)
    requires calls != []
  {
    && (|calls| == 2 ==> !Names(calls[1], first))
    && (calls[0].operation == GenerateRejected && HigherExists(registry, r, first, open) ==>
          |calls| == 2 && exists m :: m in registry && Names(calls[1], m) && m.cls.Rank() > first.cls.Rank())
    && (calls[0].operation == GenerateFailed
        && (exists m :: m in registry && Usable(m, r, open.fallback) && m.provider != first.provider) ==>
          |calls| == 2 && calls[1].provider != first.provider)
  }

  lemma HonouredEscalates(registry: seq<Model>, r: Request, answer: Model -> Answer, open: Openings, result: Result,
                          first: Model)
    requires WellFormed(registry) && first in registry
    requires Honoured(registry, r, answer, open, result) && result.attempts > 0 && Names(result.calls[0], first)
    ensures Escalates(registry, r, open, result.calls, first)
  {
    var refused := result.calls[0].operation == GenerateRejected;
    var one :| HonouredBy(registry, r, answer, open, result, one);
    assert one == first;
    if refused && HigherExists(registry, r, first, open) {
      var m :| m in registry && Usable(m, r, open.stricter) && m.cls.Rank() > first.cls.Rank();
      assert MayRetry(registry, r, first, refused, open, m);
    }
    if !refused {
      if m :| m in registry && Usable(m, r, open.fallback) && m.provider != first.provider {
        assert MayRetry(registry, r, first, refused, open, m);
      }
    }
    if result.attempts == 2 {
      var second :| RetriedOn(registry, r, answer, open, result.calls, first, second);
      RetryFacts(registry, r, first, refused, open, second);
    }
  }

  /** The same model is never called twice; a refused reply climbs a class whenever a higher usable model is available. */
  lemma RetriesEscalate(registry: seq<Model>, r: Request, answer: Model -> Answer, open: Openings, first: Model)
    requires WellFormed(registry) && first in registry
    requires Respond(registry, r, answer, open).calls != [] && Names(Respond(registry, r, answer, open).calls[0], first)
    ensures Escalates(registry, r, open, Respond(registry, r, answer, open).calls, first)
  {
    GenerateHonours(registry, r, answer, open);
    HonouredEscalates(registry, r, answer, open, Respond(registry, r, answer, open), first);
  }

  // ---------- What the tracker is told ----------

  /** One attempt in the tracker's log: the call began, and then it failed or was answered. */
  function Logged(m: Model, answer: Answer, at: real): seq<Event> {
    [Began(m.provider)] + match answer
                          case ProviderError(kind, retryAfter) => [Failed(m.provider, m.modelId, kind, retryAfter, at)]
                          case Replied(_, _) => [Succeeded(m.provider)]
  }

  lemma ReplayOne(g: Settings, log: seq<Event>, e: Event)
    ensures Replay(g, log + [e]) == Step(g, Replay(g, log), e)
  {
    assert (log + [e])[..|log|] == log;
  }

  lemma ReplayTwo(g: Settings, log: seq<Event>, e: Event, f: Event)
    ensures Replay(g, log + [e, f]) == Step(g, Step(g, Replay(g, log), e), f)
  {
    assert log + [e, f] == log + [e] + [f];
    ReplayOne(g, log, e);
    ReplayOne(g, log + [e], f);
  }

  lemma ReportedIsLogged(g: Settings, log: seq<Event>, m: Model, answer: Answer, at: real)
    ensures Reported(g, Replay(g, log), m, answer, at) == Replay(g, log + Logged(m, answer, at))
  {
    var events := Logged(m, answer, at);
    assert |events| == 2 && events == [events[0], events[1]];
    ReplayTwo(g, log, events[0], events[1]);
  }

  /** The events of a whole request: those of the first model called and, if there was one, of the second. */
  function LogOf(result: Result, first: Model, second: Model, answer: Model -> Answer, c: Clock): seq<Event> {
    (if result.attempts >= 1 then Logged(first, answer(first), c.firstFailed) else [])
    + (if result.attempts == 2 then Logged(second, answer(second), c.secondFailed) else [])
  }

  function AfterAttempts(r: Request, answer: Model -> Answer, g: Settings, s: State, c: Clock, first: Model,
                         retry: seq<Model>): State
  {
    var after := Reported(g, s, first, answer(first), c.firstFailed);
    if Judge(first, answer(first), r.task).reply.Some? || retry == [] then after
    else Reported(g, after, retry[0], answer(retry[0]), c.secondFailed)
  }

  lemma AttemptsAreLogged(r: Request, answer: Model -> Answer, g: Settings, log: seq<Event>, s: State, c: Clock,
                          first: Model, retry: seq<Model>)
    requires s == Replay(g, log)
    ensures AfterAttempts(r, answer, g, s, c, first, retry)
         == Replay(g, log + LogOf(Attempts(r, answer, first, retry), first, if retry == [] then first else retry[0], answer, c))
  {
    var result, second := Attempts(r, answer, first, retry), if retry == [] then first else retry[0];
    var logged := log + Logged(first, answer(first), c.firstFailed);
    ReportedIsLogged(g, log, first, answer(first), c.firstFailed);
    if result.attempts == 2 {
      ReportedIsLogged(g, logged, second, answer(second), c.secondFailed);
      assert log + LogOf(result, first, second, answer, c) == logged + Logged(second, answer(second), c.secondFailed);
    } else {
      assert log + LogOf(result, first, second, answer, c) == logged;
    }
  }

  lemma NamesIdentify(registry: seq<Model>, m: Model, n: Model)
    requires WellFormed(registry) && m in registry && n in registry
    ensures m.provider == n.provider && m.modelId == n.modelId ==> m == n
  {
  }

  lemma ToldIsAfterAttempts(registry: seq<Model>, r: Request, answer: Model -> Answer, g: Settings, s: State, c: Clock,
                            open: Openings)
    requires open == Seen(registry, r, answer, g, s, c) && FirstPool(registry, r, open.first) != []
    ensures var first := FirstPool(registry, r, open.first)[0];
            var retry := RetryPool(registry, r, first, WasRefused(Judge(first, answer(first), r.task)), open);
            && Told(registry, r, answer, g, s, c) == AfterAttempts(r, answer, g, s, c, first, retry)
            && Respond(registry, r, answer, open) == Attempts(r, answer, first, retry)
  {
  }

  lemma AttemptsName(registry: seq<Model>, r: Request, answer: Model -> Answer, first: Model, retry: seq<Model>,
                     one: Model, two: Model)
    requires WellFormed(registry) && first in registry && one in registry && two in registry
    requires retry != [] ==> retry[0] in registry
    requires Names(Attempts(r, answer, first, retry).calls[0], one)
    requires Attempts(r, answer, first, retry).attempts == 2 ==> Names(Attempts(r, answer, first, retry).calls[1], two)
    ensures one == first && (Attempts(r, answer, first, retry).attempts == 2 ==> two == retry[0])
  {
    AttemptsReport(r, answer, first, retry);
    NamesIdentify(registry, first, one);
    if retry != [] { NamesIdentify(registry, retry[0], two); }
  }

  /**
   Every attempt reaches the tracker as exactly two events, in the order of the calls; a refused reply counts as a success
   of its provider. The models are those of the calls.
   */
  lemma TrackerHearsEveryAttempt(registry: seq<Model>, r: Request, answer: Model -> Answer, g: Settings, log: seq<Event>,
                                 c: Clock, s: State, open: Openings, result: Result, first: Model, second: Model)
    requires WellFormed(registry) && first in registry && second in registry
    requires s == Replay(g, log) && open == Seen(registry, r, answer, g, s, c) && result == Respond(registry, r, answer, open)
    requires |result.calls| == result.attempts
    requires result.attempts >= 1 ==> Names(result.calls[0], first)
    requires result.attempts == 2 ==> Names(result.calls[1], second)
    ensures Told(registry, r, answer, g, s, c) == Replay(g, log + LogOf(result, first, second, answer, c))
  {
    var pool := FirstPool(registry, r, open.first);
    if pool == [] {
      assert log + [] == log;
    } else {
      FirstIsChosen(registry, r, open.first);
      var refused := WasRefused(Judge(pool[0], answer(pool[0]), r.task));
      var retry := RetryPool(registry, r, pool[0], refused, open);
      SecondIsChosen(registry, r, pool[0], refused, open);
      ToldIsAfterAttempts(registry, r, answer, g, s, c, open);
      AttemptsReport(r, answer, pool[0], retry);
      AttemptsName(registry, r, answer, pool[0], retry, first, second);
      AttemptsAreLogged(r, answer, g, log, s, c, pool[0], retry);
    }
  }

  /**
   What each look at the registry finds available is what the whole log says at that time: first the log as it was, and
   then, for a retry, the log with the events of the first attempt.
   */
  lemma LooksFollowTheLog(registry: seq<Model>, r: Request, answer: Model -> Answer, g: Settings, log: seq<Event>, c: Clock,
                          s: State, open: Openings, first: Model, m: Model)
    requires WellFormed(registry) && first in registry && m in registry
    requires s == Replay(g, log) && open == Seen(registry, r, answer, g, s, c)
    ensures m in open.first <==> AvailableByLog(g, log, m.provider, m.modelId, c.first)
    ensures IsFirstChoice(registry, r, open.first, first) ==>
              var later := log + Logged(first, answer(first), c.firstFailed);
              && (m in open.stricter <==> AvailableByLog(g, later, m.provider, m.modelId, c.stricter))
              && (m in open.fallback <==> AvailableByLog(g, later, m.provider, m.modelId, c.fallback))
  {
    AvailabilityIsTheLogs(g, log, m.provider, m.modelId, c.first);
    FirstIsChosen(registry, r, open.first);
    if IsFirstChoice(registry, r, open.first, first) {
      var pool := FirstPool(registry, r, open.first);
      assert pool != [];
      FirstChoiceIsUnique(registry, r, open.first, first, pool[0]);
      ReportedIsLogged(g, log, first, answer(first), c.firstFailed);
      var later := log + Logged(first, answer(first), c.firstFailed);
      AvailabilityIsTheLogs(g, later, m.provider, m.modelId, c.stricter);
      AvailabilityIsTheLogs(g, later, m.provider, m.modelId, c.fallback);
    }
  }

  /** The first choice is unique. */
  lemma FirstChoiceIsUnique(registry: seq<Model>, r: Request, open: set<Model>, m: Model, n: Model)
    requires WellFormed(registry)
    requires IsFirstChoice(registry, r, open, m) && IsFirstChoice(registry, r, open, n)
    ensures m == n
  {
    StringOrder(m.Action(), n.Action(), n.Action());
    ActionsIdentifyIfEqual(registry, m, n);
  }

  /** A model of another provider than the first goes before one of the same; otherwise the order is that of all models. */
  predicate GoesBeforeOnRetry(task: Task, first: Model, m: Model, n: Model) {
    || (m.provider != first.provider && n.provider == first.provider)
    || ((m.provider == first.provider <==> n.provider == first.provider) && GoesBefore(task, m, n))
  }

  /** The first model called goes before every other usable one, and the second before every other a retry may use. */
  lemma ChoicesGoBefore(registry: seq<Model>, r: Request, open: Openings, first: Model, refused: bool, second: Model, n: Model)
    ensures IsFirstChoice(registry, r, open.first, first) && n in registry && Usable(n, r, open.first)
            ==> GoesBefore(r.task, first, n)
    ensures IsRetryChoice(registry, r, first, refused, open, second) && MayRetry(registry, r, first, refused, open, n)
            ==> GoesBeforeOnRetry(r.task, first, second, n)
  {
    ModelLeqIsGoingBefore(r.task, first, n);
    ModelLeqIsGoingBefore(r.task, second, n);
  }

  lemma CandidatesIgnoreOrder(one: seq<Model>, two: seq<Model>, r: Request, first: Model, refused: bool, open: Openings)
    requires WellFormed(one) && multiset(one) == multiset(two)
    ensures Candidates(one, r, first, refused, open) == Candidates(two, r, first, refused, open)
  {
    OrderOfRegistryIsIrrelevant(one, two, r, open.stricter, {first.Action()}, Some(first.cls.Rank() + 1));
    OrderOfRegistryIsIrrelevant(one, two, r, open.fallback, {first.Action()}, None);
  }

  /** The order in which the registry lists its models changes nothing. */
  lemma RegistryOrderIsIrrelevant(one: seq<Model>, two: seq<Model>, r: Request, answer: Model -> Answer, open: Openings)
    requires WellFormed(one) && multiset(one) == multiset(two)
    ensures Respond(one, r, answer, open) == Respond(two, r, answer, open)
  {
    OrderOfRegistryIsIrrelevant(one, two, r, open.first, {}, None);
    var pool := FirstPool(one, r, open.first);
    if pool != [] {
      var refused := WasRefused(Judge(pool[0], answer(pool[0]), r.task));
      CandidatesIgnoreOrder(one, two, r, pool[0], refused, open);
    }
  }
}
