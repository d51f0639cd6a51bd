/**
 Routing rules (src/daily_agent/gateway/router.py): which models may answer a request, and in what order they are tried.
 */
module Router {
  import opened Options
  import opened Sorting

  datatype ModelClass = Economy | Balanced | Advanced {
    function Rank(): nat {
      match this
      case Economy => 0
      case Balanced => 1
      case Advanced => 2
    }
  }

  datatype Task = Code | Maths | Study | Hindi | Mixed | Summary

  /** A registry entry. `mean` is the mean of its measured scores, 0 when nothing was measured. */
  datatype Model = Model(provider: string, modelId: string, cls: ModelClass, context: nat, structured: bool,
                         scores: map<Task, real>, mean: real)
  {
    function Action(): string { provider + "/" + modelId }

    function Score(task: Task): real { if task in scores then scores[task] else mean }
  }

  datatype Request = Request(classes: seq<ModelClass>, floor: ModelClass, task: Task, promptTokens: nat,
                             maxOutputTokens: nat, structured: bool, escalate: bool)

  // ---------- Classes ----------

  predicate ClassLeq(a: ModelClass, b: ModelClass) { a.Rank() <= b.Rank() }

  function AllowedClasses(r: Request): seq<ModelClass> {
    Sort(ClassLeq, r.classes)
  }

  function Ladder(r: Request): seq<ModelClass> {
    Filter((c: ModelClass) => c.Rank() >= r.floor.Rank(), AllowedClasses(r))
  }

  function Steps(r: Request): nat {
    (if r.task in {Code, Maths, Summary} then 1 else 0) + (if r.escalate then 1 else 0)
  }

  function StartClass(r: Request): Option<ModelClass> {
    var ladder := Ladder(r);
    if ladder == [] then None
    else Some(ladder[if Steps(r) <= |ladder| - 1 then Steps(r) else |ladder| - 1])
  }

  // ---------- Eligible models ----------

  /** What a model must be to answer the request, whatever else the registry holds. */
  predicate Usable(m: Model, r: Request, open: set<Model>) {
    && StartClass(r).Some?
    && m.cls in r.classes && m.cls.Rank() >= StartClass(r).value.Rank()
    && m.context >= r.promptTokens + r.maxOutputTokens
    && (!r.structured || m.structured)
    && m in open
  }

  predicate Chosen(m: Model, r: Request, open: set<Model>, exclude: set<string>, minRank: Option<nat>) {
    && StartClass(r).Some?
    && var floor := StartClass(r).value;
    && m.cls in AllowedClasses(r)
    && m.cls.Rank() >= (if minRank.None? || minRank.value <= floor.Rank() then floor.Rank() else minRank.value)
    && m.context >= r.promptTokens + r.maxOutputTokens
    && (!r.structured || m.structured)
    && m.Action() !in exclude
    && m in open
  }

  /** Cheapest class first, then best score for the task, then action name. */
  predicate ModelLeq(task: Task, m: Model, n: Model) {
    if m.cls.Rank() != n.cls.Rank() then m.cls.Rank() < n.cls.Rank()
    else if m.Score(task) != n.Score(task) then m.Score(task) > n.Score(task)
    else StringLeq(m.Action(), n.Action())
  }

  function EligibleModels(registry: seq<Model>, r: Request, open: set<Model>, exclude: set<string>,
                          minRank: Option<nat>): seq<Model>
  {
    if StartClass(r).None? then []
    else Sort((m: Model, n: Model) => ModelLeq(r.task, m, n),
              Filter((m: Model) => Chosen(m, r, open, exclude, minRank), registry))
  }

  /** No two registry entries share a provider and a model id. */
  predicate NoDuplicates(registry: seq<Model>) {
    forall m, n :: m in registry && n in registry && m.provider == n.provider && m.modelId == n.modelId ==> m == n
  }

  /** Provider names are short names without a slash. */
  predicate PlainProviders(registry: seq<Model>) {
    forall m :: m in registry ==> '/' !in m.provider
  }

  ghost predicate WellFormed(registry: seq<Model>) {
    NoDuplicates(registry) && PlainProviders(registry)
  }

  // ---------- The ladder ----------

  lemma ClassOrder(r: Request)
    ensures OrdersMembers(ClassLeq, multiset(r.classes))
    ensures Ascending(ClassLeq, AllowedClasses(r))
    ensures forall c :: c in AllowedClasses(r) <==> c in r.classes
  {
    forall x: ModelClass, y: ModelClass ensures ClassLeq(x, y) && ClassLeq(y, x) ==> x == y { }
    forall c | c in r.classes ensures c in multiset(r.classes) { }
    SortAscends(ClassLeq, r.classes, multiset(r.classes));
    forall c ensures c in AllowedClasses(r) <==> c in r.classes { SameMembers(AllowedClasses(r), r.classes, c); }
  }

  lemma {:induction false} FilterAscends<T(!new)>(leq: (T, T) -> bool, keep: T -> bool, xs: seq<T>)
    requires Ascending(leq, xs)
    ensures Ascending(leq, Filter(keep, xs))
  {
    if xs != [] {
      FilterAscends(leq, keep, xs[1..]);
      var rest := Filter(keep, xs[1..]);
      forall k | 0 <= k < |rest| ensures leq(xs[0], rest[k]) {
        assert rest[k] in xs[1..];
        var m :| 0 <= m < |xs| - 1 && xs[1..][m] == rest[k];
        assert leq(xs[0], xs[m + 1]);
      }
    }
  }

  lemma {:induction false} FilterDistinct<T(!new)>(keep: T -> bool, xs: seq<T>)
    requires Distinct(xs)
    ensures Distinct(Filter(keep, xs))
  {
    if xs != [] {
      FilterDistinct(keep, xs[1..]);
      assert xs[0] !in xs[1..];
    }
  }

  lemma {:induction false} DistinctCounts<T>(xs: seq<T>)
    ensures Distinct(xs) <==> forall x :: multiset(xs)[x] <= 1
  {
    if xs != [] {
      assert xs == [xs[0]] + xs[1..];
      DistinctCounts(xs[1..]);
      if Distinct(xs) {
        forall x ensures multiset(xs)[x] <= 1 {
          assert xs[0] !in xs[1..];
          assert xs[0] !in multiset(xs[1..]);
        }
      }
      if forall x :: multiset(xs)[x] <= 1 {
        forall x ensures multiset(xs[1..])[x] <= 1 { assert multiset(xs)[x] <= 1; }
        assert multiset(xs)[xs[0]] <= 1;
        assert xs[0] !in multiset(xs[1..]);
        assert xs[0] !in xs[1..];
      }
    }
  }

  lemma LadderOrder(r: Request)
    ensures Ascending(ClassLeq, Ladder(r))
    ensures forall c :: c in Ladder(r) <==> c in r.classes && c.Rank() >= r.floor.Rank()
  {
    ClassOrder(r);
    FilterAscends(ClassLeq, (c: ModelClass) => c.Rank() >= r.floor.Rank(), AllowedClasses(r));
  }

  lemma LadderDistinct(r: Request)
    requires Distinct(r.classes)
    ensures Distinct(Ladder(r))
  {
    DistinctCounts(r.classes);
    DistinctCounts(AllowedClasses(r));
    FilterDistinct((c: ModelClass) => c.Rank() >= r.floor.Rank(), AllowedClasses(r));
  }

  /** The ladder climbs strictly when the plan lists no class twice, and its top is the highest allowed class. */
  lemma LadderClimbs(r: Request)
    requires Distinct(r.classes)
    ensures var ladder := Ladder(r);
            && (forall i, j :: 0 <= i < j < |ladder| ==> ladder[i].Rank() < ladder[j].Rank())
            && (ladder != [] ==> forall c :: c in r.classes ==> c.Rank() <= ladder[|ladder| - 1].Rank())
  {
    LadderOrder(r);
    LadderDistinct(r);
    var ladder := Ladder(r);
    forall i, j | 0 <= i < j < |ladder| ensures ladder[i].Rank() < ladder[j].Rank() {
      assert ClassLeq(ladder[i], ladder[j]) && ladder[i] != ladder[j];
    }
    if ladder != [] {
      var top := ladder[|ladder| - 1];
      assert top in ladder;
      forall c | c in r.classes ensures c.Rank() <= top.Rank() {
        if c.Rank() >= r.floor.Rank() {
          var i :| 0 <= i < |ladder| && ladder[i] == c;
          assert i == |ladder| - 1 || ladder[i].Rank() < top.Rank();
        }
      }
    }
  }

  /** Requests start at an allowed class no lower than the plan's floor; some class is found exactly when one is allowed. */
  lemma StartIsAllowed(r: Request)
    ensures StartClass(r).Some? <==> exists c :: c in r.classes && c.Rank() >= r.floor.Rank()
    ensures StartClass(r).Some? ==> StartClass(r).value in r.classes && StartClass(r).value.Rank() >= r.floor.Rank()
  {
    LadderOrder(r);
    if c :| c in r.classes && c.Rank() >= r.floor.Rank() {
      assert c in Ladder(r);
    }
    if Ladder(r) != [] {
      assert Ladder(r)[0] in Ladder(r);
      assert StartClass(r).value in Ladder(r);
    }
  }

  /** Asking to escalate never lowers the start, and raises it strictly unless it is already the highest allowed class. */
  lemma EscalationRaisesStart(r: Request)
    requires Distinct(r.classes) && !r.escalate && StartClass(r).Some?
    ensures var start, higher := StartClass(r).value, StartClass(r.(escalate := true));
            && higher.Some? && start.Rank() <= higher.value.Rank()
            && (higher.value == start <==> forall c :: c in r.classes ==> c.Rank() <= start.Rank())
  {
    assert Ladder(r) == Ladder(r.(escalate := true));
    LadderClimbs(r);
    var ladder := Ladder(r);
    assert forall i :: 0 <= i < |ladder| ==> ladder[i] in r.classes by {
      LadderOrder(r);
      assert forall i :: 0 <= i < |ladder| ==> ladder[i] in ladder;
    }
  }

  // ---------- One step up ----------

  /** Economy is cheaper than balanced, and both are cheaper than advanced. */
  predicate Cheaper(a: ModelClass, b: ModelClass) {
    (a.Economy? && !b.Economy?) || (a.Balanced? && b.Advanced?)
  }

  /** An allowed class that is not below the plan's floor. */
  predicate IsAllowed(r: Request, c: ModelClass) {
    c in r.classes && !Cheaper(c, r.floor)
  }

  predicate IsCheapest(r: Request, c: ModelClass) {
    IsAllowed(r, c) && forall d :: IsAllowed(r, d) ==> !Cheaper(d, c)
  }

  /** `high` is the next allowed class above `low`, or `low` itself when there is none above it. */
  predicate IsOneStepUp(r: Request, low: ModelClass, high: ModelClass) {
    if exists d :: IsAllowed(r, d) && Cheaper(low, d) then
      && IsAllowed(r, high) && Cheaper(low, high)
      && forall d :: IsAllowed(r, d) && Cheaper(low, d) ==> !Cheaper(d, high)
    else high == low
  }

  predicate IsHard(task: Task) {
    task == Code || task == Maths || task == Summary
  }

  lemma CheaperIsLowerRank(a: ModelClass, b: ModelClass)
    ensures Cheaper(a, b) <==> a.Rank() < b.Rank()
  {
  }

  lemma RungsAre(r: Request)
    requires Distinct(r.classes)
    ensures var ladder := Ladder(r);
            && (forall c :: c in ladder <==> IsAllowed(r, c))
            && forall i, j :: 0 <= i < j < |ladder| ==> Cheaper(ladder[i], ladder[j])
  {
    LadderOrder(r);
    LadderClimbs(r);
    forall c ensures Cheaper(c, r.floor) <==> c.Rank() < r.floor.Rank() { CheaperIsLowerRank(c, r.floor); }
    var ladder := Ladder(r);
    forall i, j | 0 <= i < j < |ladder| ensures Cheaper(ladder[i], ladder[j]) {
      CheaperIsLowerRank(ladder[i], ladder[j]);
    }
  }

  /** On a climbing list, nothing lies between neighbours. */
  lemma NothingBetween(ladder: seq<ModelClass>, i: nat, d: ModelClass)
    requires forall i, j :: 0 <= i < j < |ladder| ==> Cheaper(ladder[i], ladder[j])
    requires i < |ladder| && d in ladder && Cheaper(ladder[i], d)
    ensures i + 1 < |ladder| && !Cheaper(d, ladder[i + 1])
  {
    var j :| 0 <= j < |ladder| && ladder[j] == d;
    assert j > i + 1 ==> Cheaper(ladder[i + 1], ladder[j]);
  }

  /** Neighbouring rungs of a ladder are one step apart. */
  lemma NextRung(r: Request, i: nat)
    requires Distinct(r.classes) && i < |Ladder(r)|
    ensures var ladder := Ladder(r); IsOneStepUp(r, ladder[i], ladder[if i + 1 < |ladder| then i + 1 else i])
  {
    RungsAre(r);
    var ladder := Ladder(r);
    forall d | IsAllowed(r, d) && Cheaper(ladder[i], d) ensures i + 1 < |ladder| && !Cheaper(d, ladder[i + 1]) {
      NothingBetween(ladder, i, d);
    }
    assert i + 1 < |ladder| ==> ladder[i + 1] in ladder;
  }

  /** The rung a request starts on. */
  function Rung(r: Request, steps: nat): ModelClass
    requires Ladder(r) != []
  {
    Ladder(r)[if steps < |Ladder(r)| then steps else |Ladder(r)| - 1]
  }

  lemma RungsAreStepsUp(r: Request, steps: nat)
    requires Distinct(r.classes) && Ladder(r) != []
    ensures IsOneStepUp(r, Rung(r, steps), Rung(r, steps + 1))
  {
    NextRung(r, if steps < |Ladder(r)| then steps else |Ladder(r)| - 1);
  }

  lemma FirstRungIsCheapest(r: Request)
    requires Distinct(r.classes) && Ladder(r) != []
    ensures IsCheapest(r, Rung(r, 0))
  {
    RungsAre(r);
    var ladder := Ladder(r);
    assert ladder[0] in ladder;
    forall d | IsAllowed(r, d) ensures !Cheaper(d, ladder[0]) {
      var j :| 0 <= j < |ladder| && ladder[j] == d;
    }
  }

  lemma StartIsARung(r: Request)
    ensures StartClass(r).Some? <==> Ladder(r) != []
    ensures Ladder(r) != [] ==> StartClass(r).value == Rung(r, Steps(r))
  {
  }

  /** An easy task that nobody asked to escalate starts at the cheapest allowed class. */
  lemma PlainStartIsCheapest(r: Request)
    requires Distinct(r.classes) && StartClass(r).Some? && !IsHard(r.task) && !r.escalate
    ensures IsCheapest(r, StartClass(r).value)
  {
    StartIsARung(r);
    FirstRungIsCheapest(r);
  }

  /** A hard task starts one step above an easy one. */
  lemma HardTasksStartHigher(r: Request, easy: Task)
    requires Distinct(r.classes) && StartClass(r).Some? && IsHard(r.task) && !IsHard(easy)
    ensures var plain := StartClass(r.(task := easy));
            plain.Some? && IsOneStepUp(r, plain.value, StartClass(r).value)
  {
    assert Ladder(r.(task := easy)) == Ladder(r);
    StartIsARung(r);
    StartIsARung(r.(task := easy));
    RungsAreStepsUp(r, Steps(r.(task := easy)));
  }

  /** An escalated request starts one step above the same request unescalated. */
  lemma EscalatingStartsHigher(r: Request)
    requires Distinct(r.classes) && StartClass(r).Some? && r.escalate
    ensures var calm := StartClass(r.(escalate := false));
            calm.Some? && IsOneStepUp(r, calm.value, StartClass(r).value)
  {
    assert Ladder(r.(escalate := false)) == Ladder(r);
    StartIsARung(r);
    StartIsARung(r.(escalate := false));
    RungsAreStepsUp(r, Steps(r.(escalate := false)));
  }

  // ---------- The order of eligible models ----------

  lemma {:induction false} SlashSplits(p: string, q: string, a: string, b: string)
    requires '/' !in p && '/' !in q
    requires p + "/" + a == q + "/" + b
    ensures p == q && a == b
  {
    var s, t := p + "/" + a, q + "/" + b;
    assert s[|p|] == '/' && forall k :: 0 <= k < |p| ==> s[k] == p[k] != '/';
    assert t[|q|] == '/' && forall k :: 0 <= k < |q| ==> t[k] == q[k] != '/';
    assert s[..|p|] == p && t[..|q|] == q;
    assert s[|p| + 1..] == a && t[|q| + 1..] == b;
  }

  /** An action name determines its registry entry. */
  lemma ActionsIdentify(registry: seq<Model>, m: Model, n: Model)
    requires WellFormed(registry) && m in registry && n in registry
    requires m.Action() == n.Action()
    ensures m == n
  {
    SlashSplits(m.provider, n.provider, m.modelId, n.modelId);
  }

  lemma ModelsCompare(task: Task, x: Model, y: Model, z: Model)
    ensures ModelLeq(task, x, y) || ModelLeq(task, y, x)
    ensures ModelLeq(task, x, y) && ModelLeq(task, y, z) ==> ModelLeq(task, x, z)
    ensures ModelLeq(task, x, y) && ModelLeq(task, y, x) ==> x.Action() == y.Action()
  {
    StringOrder(x.Action(), y.Action(), z.Action());
  }

  /** Cheaper class first, then the higher score measured for the task or else on average, then the earlier name. */
  predicate GoesBefore(task: Task, m: Model, n: Model) {
    var mine := if task in m.scores then m.scores[task] else m.mean;
    var other := if task in n.scores then n.scores[task] else n.mean;
    || Cheaper(m.cls, n.cls)
    || (m.cls == n.cls && mine > other)
    || (m.cls == n.cls && mine == other && Precedes(m.provider + "/" + m.modelId, n.provider + "/" + n.modelId))
  }

  lemma ModelLeqIsGoingBefore(task: Task, m: Model, n: Model)
    ensures ModelLeq(task, m, n) <==> GoesBefore(task, m, n)
  {
    StringLeqIsLexicographic(m.Action(), n.Action());
  }

  lemma ModelOrder(registry: seq<Model>, task: Task, ms: multiset<Model>)
    requires WellFormed(registry) && forall m :: m in ms ==> m in registry
    ensures OrdersMembers((m: Model, n: Model) => ModelLeq(task, m, n), ms)
  {
    var leq := (m: Model, n: Model) => ModelLeq(task, m, n);
    forall x, y | x in ms && y in ms ensures leq(x, y) || leq(y, x) {
      ModelsCompare(task, x, y, y);
    }
    forall x, y, z | x in ms && y in ms && z in ms && leq(x, y) && leq(y, z) ensures leq(x, z) {
      ModelsCompare(task, x, y, z);
    }
    forall x, y | x in ms && y in ms && leq(x, y) && leq(y, x) ensures x == y {
      ModelsCompare(task, x, y, y);
      ActionsIdentify(registry, x, y);
    }
  }

  lemma ChosenIsUsable(m: Model, r: Request, open: set<Model>, exclude: set<string>, minRank: Option<nat>)
    ensures Chosen(m, r, open, exclude, minRank)
       <==> Usable(m, r, open) && m.Action() !in exclude && (minRank.Some? ==> m.cls.Rank() >= minRank.value)
  {
    ClassOrder(r);
  }

  /** A usable model is available, of an allowed class not cheaper than the start, and large enough; a tie is enough. */
  lemma UsableMeans(m: Model, r: Request, open: set<Model>)
    ensures Usable(m, r, open) <==>
              && m in open && m.cls in r.classes
              && StartClass(r).Some? && !Cheaper(m.cls, StartClass(r).value)
              && r.promptTokens + r.maxOutputTokens <= m.context
              && (r.structured ==> m.structured)
  {
    if StartClass(r).Some? { CheaperIsLowerRank(m.cls, StartClass(r).value); }
  }

  lemma SortedByRouter(registry: seq<Model>, task: Task, chosen: seq<Model>)
    requires WellFormed(registry) && forall m :: m in chosen ==> m in registry
    ensures var leq := (m: Model, n: Model) => ModelLeq(task, m, n);
            && Ascending(leq, Sort(leq, chosen))
            && forall m :: m in Sort(leq, chosen) <==> m in chosen
  {
    var leq := (m: Model, n: Model) => ModelLeq(task, m, n);
    forall m | m in multiset(chosen) ensures m in registry { assert m in chosen; }
    ModelOrder(registry, task, multiset(chosen));
    forall m | m in chosen ensures m in multiset(chosen) { }
    SortAscends(leq, chosen, multiset(chosen));
    forall m ensures m in Sort(leq, chosen) <==> m in chosen { SameMembers(Sort(leq, chosen), chosen, m); }
  }

  /** The eligible list holds exactly the usable models that are not excluded, in ascending order. */
  lemma EligibleModelsAre(registry: seq<Model>, r: Request, open: set<Model>, exclude: set<string>, minRank: Option<nat>)
    requires WellFormed(registry)
    ensures var pool := EligibleModels(registry, r, open, exclude, minRank);
            && Ascending((m: Model, n: Model) => ModelLeq(r.task, m, n), pool)
            && forall m :: m in pool <==>
                 && m in registry && Usable(m, r, open) && m.Action() !in exclude
                 && (minRank.Some? ==> m.cls.Rank() >= minRank.value)
  {
    if StartClass(r).Some? {
      SortedByRouter(registry, r.task, Filter((m: Model) => Chosen(m, r, open, exclude, minRank), registry));
    }
    forall m { ChosenIsUsable(m, r, open, exclude, minRank); }
  }

  /** The list does not depend on the order the registry lists its models in. */
  lemma OrderOfRegistryIsIrrelevant(one: seq<Model>, two: seq<Model>, r: Request, open: set<Model>,
                                    exclude: set<string>, minRank: Option<nat>)
    requires WellFormed(one) && multiset(one) == multiset(two)
    ensures EligibleModels(one, r, open, exclude, minRank) == EligibleModels(two, r, open, exclude, minRank)
  {
    var keep := (m: Model) => Chosen(m, r, open, exclude, minRank);
    var leq := (m: Model, n: Model) => ModelLeq(r.task, m, n);
    forall m ensures multiset(Filter(keep, one))[m] == multiset(Filter(keep, two))[m] {
      FilterCounts(keep, one, m);
      FilterCounts(keep, two, m);
    }
    assert multiset(Filter(keep, one)) == multiset(Filter(keep, two));
    forall m | m in multiset(Filter(keep, one)) ensures m in one { assert m in Filter(keep, one); }
    ModelOrder(one, r.task, multiset(Filter(keep, one)));
    SortIsCanonical(leq, Filter(keep, one), Filter(keep, two));
  }
}
