/**
 Shared provider-request slots (src/daily_agent/services.py): every live message holds slots of its day before it calls a
 provider and hands back what it did not use. Free plans stop short of the limit, so that paid plans keep a share.
 */
module Slots {
  import opened Options
  import Router
  import Gateway

  datatype Quota = Quota(limit: nat, paidReserve: nat)

  /** Requests used, for each day that has a row. */
  type Usage = map<nat, int>

  function Ceiling(q: Quota, paid: bool): int {
    if paid then q.limit else q.limit - q.paidReserve
  }

  function WithDay(usage: Usage, day: nat): Usage {
    if day in usage then usage else usage[day := 0]
  }

  function UsedOn(usage: Usage, day: nat): int {
    if day in usage then usage[day] else 0
  }

  /** The guarded UPDATE of `admit_gateway_requests`. */
  function Admit(usage: Usage, q: Quota, day: nat, paid: bool, slots: nat): Option<Usage> {
    if UsedOn(usage, day) + slots <= Ceiling(q, paid) then Some(usage[day := UsedOn(usage, day) + slots]) else None
  }

  function Unused(slots: nat, counted: int): nat {
    slots - (if counted < 0 then 0 else if counted < slots then counted else slots)
  }

  /** The guarded UPDATE of `return_gateway_requests`. */
  function Returned(usage: Usage, day: nat, slots: nat, counted: int): Usage {
    if Unused(slots, counted) > 0 && day in usage && usage[day] >= Unused(slots, counted)
    then usage[day := usage[day] - Unused(slots, counted)] else usage
  }

  class RequestDays {
    const quota: Quota
    var usage: Usage

    constructor (quota: Quota)
      ensures this.quota == quota && usage == map[]
    {
      this.quota, usage := quota, map[];
    }

    /** A refusal leaves today's row behind; the caller rolls back. */
    method AdmitGatewayRequests(day: nat, paid: bool, slots: nat) returns (full: bool)
      modifies this
      ensures full <==> Admit(old(usage), quota, day, paid, slots).None?
      ensures usage == if full then WithDay(old(usage), day) else Admit(old(usage), quota, day, paid, slots).value
    {
      if day !in usage {
        usage := usage[day := 0];
      }
      var ceiling: int := quota.limit;
      if !paid {
        ceiling := ceiling - quota.paidReserve;
      }
      if usage[day] + slots > ceiling {
        return true;
      }
      usage := usage[day := usage[day] + slots];
      return false;
    }

    method ReturnGatewayRequests(day: nat, slots: nat, counted: int)
      modifies this
      ensures usage == Returned(old(usage), day, slots, counted)
    {
      var used := counted;
      if used > slots { used := slots; }
      if used < 0 { used := 0; }
      var unused := slots - used;
      if unused <= 0 {
        return;
      }
      if day in usage && usage[day] >= unused {
        usage := usage[day := usage[day] - unused];
      }
    }
  }

  // ---------- The requests of one reply ----------

  const KNOWN_PROVIDERS := {"openrouter", "opencode"}

  /** What a live message asks the gateway, and how the providers would answer. */
  datatype Question = Question(registry: seq<Router.Model>, request: Router.Request,
                               answer: Router.Model -> Gateway.Answer, open: Gateway.Openings)
  {
    function Calls(): seq<Gateway.Call> { Gateway.Respond(registry, request, answer, open).calls }
  }

  /** A registry loads only if its entries are distinct and of known providers. */
  ghost predicate FromLoadedRegistry(q: Question) {
    Router.NoDuplicates(q.registry) && forall m :: m in q.registry ==> m.provider in KNOWN_PROVIDERS
  }

  /** `gateway_requests_made`: the calls to known providers. */
  function RequestsMade(calls: seq<Gateway.Call>): nat {
    if calls == [] then 0 else (if calls[0].provider in KNOWN_PROVIDERS then 1 else 0) + RequestsMade(calls[1..])
  }

  lemma {:induction false} AllAreCounted(calls: seq<Gateway.Call>)
    requires forall i :: 0 <= i < |calls| ==> calls[i].provider in KNOWN_PROVIDERS
    ensures RequestsMade(calls) == |calls|
  {
    if calls != [] {
      AllAreCounted(calls[1..]);
    }
  }

  lemma LoadedIsWellFormed(q: Question)
    requires FromLoadedRegistry(q)
    ensures Router.WellFormed(q.registry)
  {
    assert forall p :: p in KNOWN_PROVIDERS ==> '/' !in p;
  }

  lemma CallIsKnown(q: Question, calls: seq<Gateway.Call>, i: nat)
    requires FromLoadedRegistry(q) && calls == q.Calls() && i < |calls|
    ensures calls[i].provider in KNOWN_PROVIDERS
  {
    LoadedIsWellFormed(q);
    Gateway.CallsStayInBounds(q.registry, q.request, q.answer, q.open, i);
    var m :| Gateway.InBounds(q.registry, q.request, calls[i], m);
  }

  /** A reply makes no more requests than the slots its message holds, and every one of them is counted. */
  lemma EveryRequestIsCounted(q: Question)
    requires FromLoadedRegistry(q)
    ensures RequestsMade(q.Calls()) == |q.Calls()| <= Gateway.MAX_ATTEMPTS
  {
    var calls := q.Calls();
    Gateway.RespondIsBounded(q.registry, q.request, q.answer, q.open);
    forall i | 0 <= i < |calls| ensures calls[i].provider in KNOWN_PROVIDERS {
      CallIsKnown(q, calls, i);
    }
    AllAreCounted(calls);
  }

  // ---------- Whole runs ----------

  /** One admission: the calls its reply makes, how many were made so far, and the slots still held for it. */
  datatype Admission = Admission(day: nat, calls: seq<Gateway.Call>, made: nat, kept: nat, open: bool)

  datatype State = State(usage: Usage, admissions: seq<Admission>)

  const INITIAL := State(map[], [])

  /**
   Messages are admitted with a slot for every attempt, make the calls of their reply one by one, and leave once it is
   there. One whose generation raises, during any of its calls, leaves without returning slots.
   */
  datatype Step =
    | Enter(day: nat, paid: bool, question: Question)
    | CallProvider(i: nat)
    | Leave(i: nat)
    | Abandon(i: nat)

  predicate Enabled(s: State, step: Step) {
    match step
    case Enter(_, _, _) => true
    case CallProvider(i) => IsOpen(s, i) && s.admissions[i].made < |s.admissions[i].calls|
    case Leave(i) => IsOpen(s, i) && s.admissions[i].made == |s.admissions[i].calls|
    case Abandon(i) => IsOpen(s, i)
  }

  predicate IsOpen(s: State, i: nat) {
    i < |s.admissions| && s.admissions[i].open
  }

  function Effect(s: State, q: Quota, step: Step): State
    requires Enabled(s, step)
  {
    match step
    case Enter(day, paid, question) =>
      var admitted := Admit(s.usage, q, day, paid, Gateway.MAX_ATTEMPTS);
      if admitted.None? then s
      else State(admitted.value, s.admissions + [Admission(day, question.Calls(), 0, Gateway.MAX_ATTEMPTS, true)])
    case CallProvider(i) =>
      s.(admissions := s.admissions[i := s.admissions[i].(made := s.admissions[i].made + 1)])
    case Leave(i) =>
      var a := s.admissions[i];
      var counted := RequestsMade(a.calls);
      State(Returned(s.usage, a.day, Gateway.MAX_ATTEMPTS, counted),
            s.admissions[i := a.(kept := Gateway.MAX_ATTEMPTS - Unused(Gateway.MAX_ATTEMPTS, counted), open := false)])
    case Abandon(i) =>
      s.(admissions := s.admissions[i := s.admissions[i].(open := false)])
  }

  function Next(s: State, q: Quota, step: Step): State {
    if Enabled(s, step) then Effect(s, q, step) else s
  }

  function After(q: Quota, run: seq<Step>): State {
    if run == [] then INITIAL else Next(After(q, run[..|run| - 1]), q, run[|run| - 1])
  }

  ghost predicate LoadedRegistries(run: seq<Step>) {
    forall k :: 0 <= k < |run| ==> run[k].Enter? ==> FromLoadedRegistry(run[k].question)
  }

  function KeptOn(admissions: seq<Admission>, day: nat): nat {
    if admissions == [] then 0
    else (if admissions[0].day == day then admissions[0].kept else 0) + KeptOn(admissions[1..], day)
  }

  function MadeOn(admissions: seq<Admission>, day: nat): nat {
    if admissions == [] then 0
    else (if admissions[0].day == day then admissions[0].made else 0) + MadeOn(admissions[1..], day)
  }

  lemma {:induction false} SumsGrow(admissions: seq<Admission>, a: Admission, day: nat)
    ensures KeptOn(admissions + [a], day) == KeptOn(admissions, day) + (if a.day == day then a.kept else 0)
    ensures MadeOn(admissions + [a], day) == MadeOn(admissions, day) + (if a.day == day then a.made else 0)
  {
    if admissions != [] {
      SumsGrow(admissions[1..], a, day);
      assert (admissions + [a])[1..] == admissions[1..] + [a];
    }
  }

  lemma {:induction false} SumsUpdate(admissions: seq<Admission>, i: nat, a: Admission, day: nat)
    requires i < |admissions| && a.day == admissions[i].day
    ensures KeptOn(admissions[i := a], day)
         == KeptOn(admissions, day) + (if a.day == day then a.kept - admissions[i].kept else 0)
    ensures MadeOn(admissions[i := a], day)
         == MadeOn(admissions, day) + (if a.day == day then a.made - admissions[i].made else 0)
    ensures admissions[i].day == day ==> KeptOn(admissions, day) >= admissions[i].kept
  {
    if i > 0 {
      SumsUpdate(admissions[1..], i - 1, a, day);
      assert admissions[i := a][1..] == admissions[1..][i - 1 := a];
    }
  }

  predicate AdmissionSound(a: Admission) {
    && a.made <= |a.calls| == RequestsMade(a.calls) <= Gateway.MAX_ATTEMPTS
    && a.made <= a.kept <= Gateway.MAX_ATTEMPTS
    && (a.open ==> a.kept == Gateway.MAX_ATTEMPTS)
  }

  ghost predicate Sound(s: State, q: Quota) {
    && (forall i :: 0 <= i < |s.admissions| ==> AdmissionSound(s.admissions[i]))
    && (forall d :: UsedOn(s.usage, d) == KeptOn(s.admissions, d))
    && (forall d :: UsedOn(s.usage, d) <= q.limit)
  }

  lemma AdmittingKeepsSound(s: State, q: Quota, a: Admission, usage: Usage, paid: bool)
    requires Sound(s, q) && AdmissionSound(a) && a.kept == Gateway.MAX_ATTEMPTS
    requires Admit(s.usage, q, a.day, paid, Gateway.MAX_ATTEMPTS) == Some(usage)
    ensures Sound(State(usage, s.admissions + [a]), q)
  {
    forall d { SumsGrow(s.admissions, a, d); }
  }

  lemma EnteringKeepsSound(s: State, q: Quota, step: Step)
    requires Sound(s, q) && step.Enter? && FromLoadedRegistry(step.question)
    ensures Sound(Next(s, q, step), q)
  {
    EveryRequestIsCounted(step.question);
    var a := Admission(step.day, step.question.Calls(), 0, Gateway.MAX_ATTEMPTS, true);
    var admitted := Admit(s.usage, q, step.day, step.paid, Gateway.MAX_ATTEMPTS);
    if admitted.Some? {
      AdmittingKeepsSound(s, q, a, admitted.value, step.paid);
    }
  }

  lemma OthersKeepSound(s: State, q: Quota, step: Step)
    requires Sound(s, q) && !step.Enter?
    ensures Sound(Next(s, q, step), q)
  {
    var s' := Next(s, q, step);
    if Enabled(s, step) {
      var a, a' := s.admissions[step.i], s'.admissions[step.i];
      assert AdmissionSound(a);
      forall d ensures UsedOn(s'.usage, d) == KeptOn(s'.admissions, d) && UsedOn(s'.usage, d) <= UsedOn(s.usage, d) {
        SumsUpdate(s.admissions, step.i, a', d);
        SumsUpdate(s.admissions, step.i, a', a.day);
      }
    }
  }

  lemma {:induction false} RunsAreSound(q: Quota, run: seq<Step>)
    requires LoadedRegistries(run)
    ensures Sound(After(q, run), q)
  {
    if run != [] {
      var before, step := run[..|run| - 1], run[|run| - 1];
      RunsAreSound(q, before);
      if step.Enter? {
        EnteringKeepsSound(After(q, before), q, step);
      } else {
        OthersKeepSound(After(q, before), q, step);
      }
    }
  }

  lemma {:induction false} MadeIsKept(admissions: seq<Admission>, day: nat)
    requires forall i :: 0 <= i < |admissions| ==> AdmissionSound(admissions[i])
    ensures MadeOn(admissions, day) <= KeptOn(admissions, day)
  {
    if admissions != [] {
      assert AdmissionSound(admissions[0]);
      MadeIsKept(admissions[1..], day);
    }
  }

  /** On every run: provider requests made never exceed the slots used, and slots used never exceed the daily limit. */
  lemma AttemptsStayWithinTheLimit(q: Quota, run: seq<Step>, day: nat)
    requires LoadedRegistries(run)
    ensures MadeOn(After(q, run).admissions, day) <= UsedOn(After(q, run).usage, day) <= q.limit
  {
    RunsAreSound(q, run);
    MadeIsKept(After(q, run).admissions, day);
  }

  /** A free admission leaves the paid share untouched; an admission is refused exactly when it would pass its ceiling. */
  lemma FreeAdmissionsSpareTheReserve(q: Quota, run: seq<Step>, day: nat, question: Question)
    ensures var before, after := After(q, run), After(q, run + [Enter(day, false, question)]);
            && (after != before ==> UsedOn(after.usage, day) <= q.limit - q.paidReserve)
            && (after == before <==> UsedOn(before.usage, day) + Gateway.MAX_ATTEMPTS > q.limit - q.paidReserve)
  {
    assert (run + [Enter(day, false, question)])[..|run|] == run;
    var before, after := After(q, run), After(q, run + [Enter(day, false, question)]);
    if UsedOn(before.usage, day) + Gateway.MAX_ATTEMPTS <= q.limit - q.paidReserve {
      assert |after.admissions| == |before.admissions| + 1;
    }
  }

  /**
   A message is admitted exactly when two more requests fit its plan's share of the day: all of it for a paid plan, all but
   the reserve for a free one. It then counts for two.
   */
  lemma AdmittedIff(q: Quota, run: seq<Step>, day: nat, paid: bool, question: Question)
    ensures var before, after := After(q, run), After(q, run + [Enter(day, paid, question)]);
            var share := if paid then q.limit else q.limit - q.paidReserve;
            && (|after.admissions| == |before.admissions| + 1 <==> UsedOn(before.usage, day) + 2 <= share)
            && (after != before ==> UsedOn(after.usage, day) == UsedOn(before.usage, day) + 2)
            && forall other :: other != day ==> UsedOn(after.usage, other) == UsedOn(before.usage, other)
  {
    assert (run + [Enter(day, paid, question)])[..|run|] == run;
  }

  /** Returning unused slots always takes effect, and leaves exactly the requests made. */
  lemma LeavingKeepsWhatWasMade(q: Quota, run: seq<Step>, i: nat)
    requires LoadedRegistries(run) && Enabled(After(q, run), Leave(i))
    ensures var before, after := After(q, run), After(q, run + [Leave(i)]);
            var a := before.admissions[i];
            && after.admissions[i].kept == a.made
            && UsedOn(after.usage, a.day) == UsedOn(before.usage, a.day) - (Gateway.MAX_ATTEMPTS - a.made)
  {
    assert (run + [Leave(i)])[..|run|] == run;
    RunsAreSound(q, run);
    var before := After(q, run);
    assert AdmissionSound(before.admissions[i]);
    SumsUpdate(before.admissions, i, before.admissions[i], before.admissions[i].day);
  }
}
