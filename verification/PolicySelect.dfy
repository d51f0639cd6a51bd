/**
 Choosing an action from a loaded routing policy (`LoadedPolicy` in src/daily_agent/parakh/bundle.py:94-155), over the
 real numbers. The square root is an arbitrary function.
 */
module PolicySelect {
  import opened Options
  import opened Sorting

  datatype Params = Params(theta: seq<real>, aInv: seq<seq<real>>)

  /** A verified policy: parameters of one dimension for every action it knows, and an epsilon between 0 and 1. */
  datatype Policy = Policy(dimension: nat, params: map<string, Params>, alpha: real, epsilonGreedy: bool, epsilon: real) {
    predicate Valid() {
      && 0.0 <= epsilon <= 1.0
      && forall a :: a in params ==>
           && |params[a].theta| == dimension && |params[a].aInv| == dimension
           && forall i :: 0 <= i < dimension ==> |params[a].aInv[i]| == dimension
    }
  }

  // ---------- Scores ----------

  function Dot(u: seq<real>, v: seq<real>): real
    requires |u| == |v|
  {
    if u == [] then 0.0 else u[0] * v[0] + Dot(u[1..], v[1..])
  }

  function Products(rows: seq<seq<real>>, x: seq<real>): seq<real>
    requires forall i :: 0 <= i < |rows| ==> |rows[i]| == |x|
  {
    seq(|rows|, i requires 0 <= i < |rows| => Dot(rows[i], x))
  }

  /** A mean and an allowance for its uncertainty; a negative variance counts as none. */
  function UpperBound(alpha: real, sqrt: real -> real, mean: real, variance: real): real {
    mean + alpha * sqrt(if variance > 0.0 then variance else 0.0)
  }

  function Score(policy: Policy, sqrt: real -> real, x: seq<real>, action: string): real
    requires policy.Valid() && |x| == policy.dimension && action in policy.params
  {
    var p := policy.params[action];
    UpperBound(policy.alpha, sqrt, Dot(p.theta, x), Dot(x, Products(p.aInv, x)))
  }

  /** The sum of the first `n` products of two lists. */
  function SumOfProducts(u: seq<real>, v: seq<real>, n: nat): real
    requires n <= |u| && n <= |v|
  {
    if n == 0 then 0.0 else SumOfProducts(u, v, n - 1) + u[n - 1] * v[n - 1]
  }

  /** The sum of x[i] m[i][j] x[j] over the first `i` rows and, of the row after them, the first `j` columns. */
  function QuadraticForm(m: seq<seq<real>>, x: seq<real>, i: nat, j: nat): real
    requires i <= |m| && (j > 0 ==> i < |m|) && j <= |x| && |m| <= |x| && forall k :: 0 <= k < |m| ==> |m[k]| == |x|
    decreases i, j
  {
    if j > 0 then QuadraticForm(m, x, i, j - 1) + x[i] * m[i][j - 1] * x[j - 1]
    else if i > 0 then QuadraticForm(m, x, i - 1, |x|)
    else 0.0
  }

  lemma {:induction false} DotOfPrefix(u: seq<real>, v: seq<real>)
    requires |u| == |v| > 0
    ensures Dot(u, v) == Dot(u[..|u| - 1], v[..|v| - 1]) + u[|u| - 1] * v[|v| - 1]
  {
    if |u| > 1 {
      DotOfPrefix(u[1..], v[1..]);
      assert u[..|u| - 1][1..] == u[1..][..|u| - 2] && v[..|v| - 1][1..] == v[1..][..|v| - 2];
    }
  }

  lemma {:induction false} DotIsSum(u: seq<real>, v: seq<real>, n: nat)
    requires n <= |u| == |v|
    ensures Dot(u[..n], v[..n]) == SumOfProducts(u, v, n)
  {
    if n > 0 {
      DotOfPrefix(u[..n], v[..n]);
      assert u[..n][..n - 1] == u[..n - 1] && v[..n][..n - 1] == v[..n - 1];
      DotIsSum(u, v, n - 1);
    }
  }

  /** One row of the form is its multiplier times a dot product. */
  lemma {:induction false} RowOfForm(m: seq<seq<real>>, x: seq<real>, i: nat, j: nat)
    requires i < |m| <= |x| && j <= |x| && forall k :: 0 <= k < |m| ==> |m[k]| == |x|
    ensures QuadraticForm(m, x, i, j) == QuadraticForm(m, x, i, 0) + x[i] * SumOfProducts(m[i], x, j)
  {
    if j > 0 {
      RowOfForm(m, x, i, j - 1);
      assert x[i] * (SumOfProducts(m[i], x, j - 1) + m[i][j - 1] * x[j - 1])
          == x[i] * SumOfProducts(m[i], x, j - 1) + x[i] * m[i][j - 1] * x[j - 1];
    }
  }

  lemma {:induction false} VarianceIsForm(m: seq<seq<real>>, x: seq<real>, rows: seq<real>, i: nat)
    requires i <= |m| == |x| == |rows| && forall k :: 0 <= k < |m| ==> |m[k]| == |x|
    requires forall k :: 0 <= k < |m| ==> rows[k] == SumOfProducts(m[k], x, |x|)
    ensures SumOfProducts(x, rows, i) == QuadraticForm(m, x, i, 0)
  {
    if i > 0 {
      VarianceIsForm(m, x, rows, i - 1);
      RowOfForm(m, x, i - 1, |x|);
    }
  }

  lemma WholeDot(u: seq<real>, v: seq<real>)
    requires |u| == |v|
    ensures Dot(u, v) == SumOfProducts(u, v, |u|)
  {
    DotIsSum(u, v, |u|);
    assert u[..|u|] == u && v[..|v|] == v;
  }

  lemma ProductsAre(m: seq<seq<real>>, x: seq<real>)
    requires |m| == |x| && forall k :: 0 <= k < |m| ==> |m[k]| == |x|
    ensures |Products(m, x)| == |m|
    ensures forall k :: 0 <= k < |m| ==> Products(m, x)[k] == SumOfProducts(m[k], x, |x|)
  {
    forall k | 0 <= k < |m| ensures Products(m, x)[k] == SumOfProducts(m[k], x, |x|) {
      WholeDot(m[k], x);
    }
  }

  lemma FormOf(m: seq<seq<real>>, x: seq<real>)
    requires |m| == |x| && forall k :: 0 <= k < |m| ==> |m[k]| == |x|
    ensures Dot(x, Products(m, x)) == QuadraticForm(m, x, |x|, 0)
  {
    ProductsAre(m, x);
    WholeDot(x, Products(m, x));
    VarianceIsForm(m, x, Products(m, x), |x|);
  }

  /** The allowance is alpha times the root of the variance, and a variance below zero counts as zero. */
  lemma UpperBoundIs(alpha: real, sqrt: real -> real, mean: real, variance: real)
    ensures variance >= 0.0 ==> UpperBound(alpha, sqrt, mean, variance) - mean == alpha * sqrt(variance)
    ensures variance <= 0.0 ==> UpperBound(alpha, sqrt, mean, variance) - mean == alpha * sqrt(0.0)
  {
  }

  /**
   The mean of an action's score is the inner product of its theta with the features, and the variance is the quadratic
   form of its matrix at the features, both summed entry by entry.
   */
  lemma ScoreIsABound(policy: Policy, sqrt: real -> real, x: seq<real>, action: string, mean: real, form: real)
    requires policy.Valid() && |x| == policy.dimension && action in policy.params
    requires mean == SumOfProducts(policy.params[action].theta, x, |x|)
    requires form == QuadraticForm(policy.params[action].aInv, x, |x|, 0)
    ensures Score(policy, sqrt, x, action) == UpperBound(policy.alpha, sqrt, mean, form)
  {
    WholeDot(policy.params[action].theta, x);
    FormOf(policy.params[action].aInv, x);
  }

  function Candidates(policy: Policy, eligible: seq<string>): set<string> {
    set a | a in eligible && a in policy.params
  }

  function Scores(policy: Policy, sqrt: real -> real, x: seq<real>, eligible: seq<string>): map<string, real>
    requires policy.Valid() && |x| == policy.dimension
  {
    map a | a in Candidates(policy, eligible) :: Score(policy, sqrt, x, a)
  }

  /** `_scores` fills its dictionary one candidate at a time, in the given order. */
  method FillScores(policy: Policy, sqrt: real -> real, x: seq<real>, eligible: seq<string>, names: seq<string>)
    returns (scores: map<string, real>)
    requires policy.Valid() && |x| == policy.dimension
    requires forall a :: a in names <==> a in Candidates(policy, eligible)
    ensures scores == Scores(policy, sqrt, x, eligible)
  {
    scores := map[];
    for i := 0 to |names|
      invariant forall a :: a in scores <==> a in names[..i]
      invariant forall a :: a in scores ==> a in policy.params && scores[a] == Score(policy, sqrt, x, a)
    {
      assert names[i] in names;
      scores := scores[names[i] := Score(policy, sqrt, x, names[i])];
    }
    assert names[..|names|] == names;
  }

  // ---------- Names in order ----------

  predicate Strictly(names: seq<string>) {
    forall i, j :: 0 <= i < j < |names| ==> StringLess(names[i], names[j])
  }

  /** `names` is `sorted(scores)`: every key once, in order. */
  ghost predicate IsListing(names: seq<string>, scores: map<string, real>) {
    Strictly(names) && forall a :: a in names <==> a in scores
  }

  lemma {:induction false} LeastName(names: set<string>) returns (least: string)
    requires names != {}
    ensures least in names && forall b :: b in names ==> StringLeq(least, b)
  {
    var a :| a in names;
    if names == {a} {
      StringOrder(a, a, a);
      return a;
    }
    var rest := LeastName(names - {a});
    StringOrder(a, rest, rest);
    least := if StringLeq(a, rest) then a else rest;
    forall b | b in names ensures StringLeq(least, b) {
      StringOrder(a, rest, b);
      StringOrder(a, a, a);
      assert b == a || b in names - {a};
    }
  }

  lemma {:induction false} ListingExists(scores: map<string, real>) returns (names: seq<string>)
    ensures IsListing(names, scores)
    decreases |scores|
  {
    if scores == map[] {
      return [];
    }
    var least := LeastName(scores.Keys);
    var rest := ListingExists(scores - {least});
    names := [least] + rest;
    forall j | 0 < j < |names| ensures StringLess(names[0], names[j]) {
      assert names[j] in rest;
    }
  }

  lemma {:induction false} ListingCounts(names: seq<string>, scores: map<string, real>)
    requires IsListing(names, scores)
    ensures |names| == |scores| && Distinct(names)
  {
    if names == [] {
      assert scores == map[] by { assert forall a :: a in scores ==> a in names; }
    } else {
      assert names[0] in scores && names[0] !in names[1..];
      ListingCounts(names[1..], scores - {names[0]});
    }
  }

  lemma {:induction false} ListingIsUnique(one: seq<string>, two: seq<string>, scores: map<string, real>)
    requires IsListing(one, scores) && IsListing(two, scores)
    ensures one == two
  {
    ListingCounts(one, scores);
    ListingCounts(two, scores);
    if one != [] {
      assert one[0] in two && two[0] in one;
      StringOrder(one[0], two[0], one[0]);
      assert one[0] == two[0];
      assert IsListing(one[1..], scores - {one[0]}) && IsListing(two[1..], scores - {one[0]});
      ListingIsUnique(one[1..], two[1..], scores - {one[0]});
    }
  }

  // ---------- The distribution ----------

  /** a scores more than b, or as much under a name that comes first. */
  predicate Beats(scores: map<string, real>, a: string, b: string)
    requires a in scores && b in scores
  {
    scores[b] < scores[a] || (scores[b] == scores[a] && StringLeq(a, b))
  }

  /** The greedy action: among the best scores, the least name. */
  ghost predicate IsGreedy(scores: map<string, real>, a: string) {
    a in scores && forall b :: b in scores ==> Beats(scores, a, b)
  }

  lemma {:induction false} GreedyAmong(scores: map<string, real>, names: seq<string>) returns (best: string)
    requires names != [] && forall a :: a in names ==> a in scores
    ensures best in names && forall b :: b in names ==> Beats(scores, best, b)
  {
    var first := names[0];
    StringOrder(first, first, first);
    if |names| == 1 {
      return first;
    }
    var a := GreedyAmong(scores, names[1..]);
    StringOrder(first, a, a);
    best := if Beats(scores, first, a) then first else a;
    forall b | b in names ensures Beats(scores, best, b) {
      StringOrder(first, a, b);
      assert b == first || b in names[1..];
    }
  }

  /** There is exactly one greedy action as soon as anything is scored. */
  lemma OneIsGreedy(scores: map<string, real>)
    requires scores != map[]
    ensures exists a :: IsGreedy(scores, a) && forall b :: IsGreedy(scores, b) ==> b == a
  {
    var names := ListingExists(scores);
    assert names != [] by { var a :| a in scores; assert a in names; }
    var best := GreedyAmong(scores, names);
    assert IsGreedy(scores, best);
    forall b | IsGreedy(scores, b) ensures b == best {
      StringOrder(best, b, b);
    }
  }

  function Spread(scores: map<string, real>, epsilon: real, greedy: string, each: real): map<string, real> {
    map a | a in scores :: if a == greedy then 1.0 - epsilon + each else each
  }

  function Distribution(scores: map<string, real>, epsilon: real, greedy: string): map<string, real> {
    if scores == map[] then map[] else Spread(scores, epsilon, greedy, epsilon / |scores| as real)
  }

  /** `probabilities`: empty when nothing can be scored, and exploring only when asked to and when the policy does. */
  method Probabilities(policy: Policy, scores: map<string, real>, names: seq<string>, explore: bool)
    returns (dist: map<string, real>, ghost greedy: string)
    requires IsListing(names, scores)
    ensures dist == Distribution(scores, if explore && policy.epsilonGreedy then policy.epsilon else 0.0, greedy)
    ensures scores != map[] ==> IsGreedy(scores, greedy)
    ensures dist.Keys == scores.Keys
  {
    greedy := "";
    if names == [] {
      assert scores == map[] by { assert forall a :: a in scores ==> a in names; }
      return map[], greedy;
    }
    assert names[0] in scores;
    var best := names[0];
    StringOrder(best, best, best);
    for i := 1 to |names|
      invariant best in names[..i]
      invariant forall j :: 0 <= j < i ==> Beats(scores, best, names[j])
    {
      assert StringLess(best, names[i]);
      StringOrder(names[i], names[i], names[i]);
      if scores[names[i]] > scores[best] {
        best := names[i];
      }
    }
    greedy := best;
    forall b | b in scores ensures Beats(scores, best, b) {
      assert b in names;
    }
    var epsilon := if explore && policy.epsilonGreedy then policy.epsilon else 0.0;
    dist := Distribution(scores, epsilon, best);
  }

  function Total(dist: map<string, real>, names: seq<string>): real
    requires forall a :: a in names ==> a in dist
  {
    if names == [] then 0.0 else Total(dist, names[..|names| - 1]) + dist[names[|names| - 1]]
  }

  lemma {:induction false} TotalByParts(dist: map<string, real>, names: seq<string>, greedy: string, each: real, extra: real)
    requires Distinct(names) && forall a :: a in names ==> a in dist
    requires forall a :: a in names ==> dist[a] == if a == greedy then extra + each else each
    ensures Total(dist, names) == |names| as real * each + (if greedy in names then extra else 0.0)
  {
    if names != [] {
      var before, last := names[..|names| - 1], names[|names| - 1];
      TotalByParts(dist, before, greedy, each, extra);
      assert last !in before;
      assert |names| as real * each == |before| as real * each + each;
    }
  }

  lemma ProductIsNonnegative(a: real, b: real)
    requires a >= 0.0 && b >= 0.0
    ensures a * b >= 0.0
  {
  }

  lemma ShareIsBounded(epsilon: real, k: nat)
    requires 0.0 <= epsilon <= 1.0 && k > 0
    ensures 0.0 <= epsilon / k as real <= epsilon
    ensures epsilon > 0.0 ==> epsilon / k as real > 0.0
    ensures k as real * (epsilon / k as real) == epsilon
  {
    var share, n := epsilon / k as real, k as real;
    assert share * n == epsilon;
    assert share >= 0.0;
    ProductIsNonnegative(share, n - 1.0);
    assert share * n == share * (n - 1.0) + share;
  }

  /** Every name gets an equal share, and the greedy one what exploration leaves as well. */
  predicate SharedOut(dist: map<string, real>, names: seq<string>, greedy: string, epsilon: real, each: real) {
    forall a :: a in names ==> a in dist && dist[a] == if a == greedy then 1.0 - epsilon + each else each
  }

  lemma SharesSumToOne(dist: map<string, real>, names: seq<string>, greedy: string, epsilon: real, each: real)
    requires Distinct(names) && greedy in names && SharedOut(dist, names, greedy, epsilon, each)
    requires |names| as real * each == epsilon
    ensures Total(dist, names) == 1.0
  {
    TotalByParts(dist, names, greedy, each, 1.0 - epsilon);
  }

  lemma DistributionIsShared(scores: map<string, real>, epsilon: real, greedy: string, names: seq<string>)
    returns (each: real)
    requires |names| == |scores| > 0 && (forall a :: a in names ==> a in scores) && 0.0 <= epsilon <= 1.0
    ensures SharedOut(Distribution(scores, epsilon, greedy), names, greedy, epsilon, each)
    ensures |names| as real * each == epsilon
  {
    ShareIsBounded(epsilon, |names|);
    each := epsilon / |names| as real;
    assert Distribution(scores, epsilon, greedy) == Spread(scores, epsilon, greedy, each);
  }

  /** The probabilities sum to one, whatever the scores. */
  lemma DistributionSumsToOne(scores: map<string, real>, epsilon: real, greedy: string, names: seq<string>)
    requires greedy in scores && IsListing(names, scores) && 0.0 <= epsilon <= 1.0
    ensures Total(Distribution(scores, epsilon, greedy), names) == 1.0
  {
    ListingCounts(names, scores);
    var each := DistributionIsShared(scores, epsilon, greedy, names);
    SharesSumToOne(Distribution(scores, epsilon, greedy), names, greedy, epsilon, each);
  }

  /** A probability is positive exactly when there is exploration or the action is the greedy one. */
  lemma ProbabilityBounds(scores: map<string, real>, epsilon: real, greedy: string, a: string)
    requires a in scores && 0.0 <= epsilon <= 1.0
    ensures 0.0 <= Distribution(scores, epsilon, greedy)[a] <= 1.0
    ensures Distribution(scores, epsilon, greedy)[a] > 0.0 <==> epsilon > 0.0 || a == greedy
  {
    assert |scores| > 0;
    ShareIsBounded(epsilon, |scores|);
  }

  // ---------- Drawing ----------

  /** The interval of draws that belongs to the i-th action. */
  predicate Selects(dist: map<string, real>, names: seq<string>, draw: real, i: int)
    requires forall a :: a in names ==> a in dist
  {
    0 <= i < |names| && Total(dist, names[..i]) <= draw < Total(dist, names[..i + 1])
  }

  /** The first action whose cumulative probability exceeds the draw; the last action if none does. */
  method Choose(dist: map<string, real>, names: seq<string>, draw: real) returns (chosen: string)
    requires names != [] && (forall a :: a in names ==> a in dist && dist[a] >= 0.0) && draw >= 0.0
    ensures if draw < Total(dist, names) then exists i :: Selects(dist, names, draw, i) && chosen == names[i]
            else chosen == names[|names| - 1]
  {
    var cumulative := 0.0;
    chosen := names[|names| - 1];
    var i := 0;
    while i < |names|
      invariant 0 <= i <= |names| && chosen == names[|names| - 1]
      invariant cumulative == Total(dist, names[..i]) <= draw
    {
      assert names[..i + 1][..i] == names[..i];
      cumulative := cumulative + dist[names[i]];
      if draw < cumulative {
        TotalsGrow(dist, names, i + 1, |names|);
        assert names[..|names|] == names;
        assert Selects(dist, names, draw, i);
        return names[i];
      }
      i := i + 1;
    }
    assert names[..|names|] == names;
  }

  lemma {:induction false} TotalsGrow(dist: map<string, real>, names: seq<string>, i: nat, j: nat)
    requires i <= j <= |names| && forall a :: a in names ==> a in dist && dist[a] >= 0.0
    ensures Total(dist, names[..i]) <= Total(dist, names[..j])
    decreases j
  {
    if i < j {
      assert names[..j][..j - 1] == names[..j - 1];
      TotalsGrow(dist, names, i, j - 1);
    }
  }

  /** Each action's draws form one interval, of length exactly its probability; no draw belongs to two actions. */
  lemma IntervalsAreExact(dist: map<string, real>, names: seq<string>, i: nat)
    requires i < |names| && forall a :: a in names ==> a in dist && dist[a] >= 0.0
    ensures Total(dist, names[..i + 1]) - Total(dist, names[..i]) == dist[names[i]]
    ensures forall draw, j :: Selects(dist, names, draw, i) && Selects(dist, names, draw, j) ==> i == j
  {
    assert names[..i + 1][..i] == names[..i];
    forall draw, j | Selects(dist, names, draw, i) && Selects(dist, names, draw, j) ensures i == j {
      if i < j { TotalsGrow(dist, names, i + 1, j); }
      if j < i { TotalsGrow(dist, names, j + 1, i); }
    }
  }

  // ---------- A whole decision ----------

  datatype Decision = Decision(action: string, probability: real, exploration: bool)

  /** `max(actions, key=...)`: the first of the most probable actions. */
  predicate IsMostProbable(dist: map<string, real>, names: seq<string>, a: string)
    requires forall b :: b in names ==> b in dist
  {
    exists i :: && 0 <= i < |names| && names[i] == a
                && (forall j :: 0 <= j < |names| ==> dist[names[j]] <= dist[a])
                && (forall j :: 0 <= j < i ==> dist[names[j]] < dist[a])
  }

  method MostProbable(dist: map<string, real>, names: seq<string>) returns (a: string)
    requires names != [] && forall b :: b in names ==> b in dist
    ensures IsMostProbable(dist, names, a)
  {
    var best := 0;
    for i := 1 to |names|
      invariant 0 <= best < i
      invariant forall j :: 0 <= j < i ==> dist[names[j]] <= dist[names[best]]
      invariant forall j :: 0 <= j < best ==> dist[names[j]] < dist[names[best]]
    {
      if dist[names[i]] > dist[names[best]] {
        best := i;
      }
    }
    a := names[best];
  }

  /** `names` is `sorted(dist)`, and `dist` what `probabilities` returned; `None` when there is nothing to score. */
  method Select(dist: map<string, real>, names: seq<string>, draw: real) returns (r: Option<Decision>)
    requires forall a :: a in names <==> a in dist
    requires (forall a :: a in dist ==> dist[a] >= 0.0) && draw >= 0.0
    ensures r.None? <==> dist == map[]
    ensures r.Some? && draw < Total(dist, names) ==>
              exists i :: Selects(dist, names, draw, i) && r.value.action == names[i]
    ensures r.Some? && draw >= Total(dist, names) ==> r.value.action == names[|names| - 1]
    ensures r.Some? ==> r.value.action in dist && r.value.probability == dist[r.value.action]
    ensures r.Some? ==> exists g :: IsMostProbable(dist, names, g) && (r.value.exploration <==> r.value.action != g)
  {
    if names == [] {
      assert dist == map[] by { assert forall a :: a in dist ==> a in names; }
      return None;
    }
    assert names[0] in dist;
    var chosen := Choose(dist, names, draw);
    var greedy := MostProbable(dist, names);
    return Some(Decision(chosen, dist[chosen], chosen != greedy));
  }

  /** What the evidence table demands of a logged probability always holds, for every draw in [0, 1). */
  lemma LoggedProbabilityIsLegal(scores: map<string, real>, epsilon: real, greedy: string, names: seq<string>, draw: real, i: int)
    requires greedy in scores && IsListing(names, scores) && 0.0 <= epsilon <= 1.0
    requires Selects(Distribution(scores, epsilon, greedy), names, draw, i)
    ensures 0.0 < Distribution(scores, epsilon, greedy)[names[i]] <= 1.0
  {
    var dist := Distribution(scores, epsilon, greedy);
    forall a | a in names ensures dist[a] >= 0.0 { ProbabilityBounds(scores, epsilon, greedy, a); }
    assert names[i] in names;
    ProbabilityBounds(scores, epsilon, greedy, names[i]);
    IntervalsAreExact(dist, names, i);
  }

  /** Every draw in [0, 1) lies in some action's interval, so the fallback after the loop is never taken. */
  lemma {:induction false} EveryDrawSelects(dist: map<string, real>, names: seq<string>, draw: real)
    requires (forall a :: a in names ==> a in dist) && 0.0 <= draw < Total(dist, names)
    ensures exists i :: Selects(dist, names, draw, i)
    decreases |names|
  {
    var before := names[..|names| - 1];
    assert names[..|before| + 1] == names;
    if draw < Total(dist, before) {
      EveryDrawSelects(dist, before, draw);
      var i :| Selects(dist, before, draw, i);
      assert names[..i] == before[..i] && names[..i + 1] == before[..i + 1];
      assert Selects(dist, names, draw, i);
    } else {
      assert Selects(dist, names, draw, |before|);
    }
  }

  lemma MostProbableOfShares(dist: map<string, real>, names: seq<string>, greedy: string, epsilon: real, each: real, a: string)
    requires Distinct(names) && greedy in names && epsilon <= 1.0
    requires SharedOut(dist, names, greedy, epsilon, each) && IsMostProbable(dist, names, a)
    ensures a == greedy <==> epsilon < 1.0 || greedy == names[0]
  {
    var i :| 0 <= i < |names| && names[i] == a
             && (forall j :: 0 <= j < |names| ==> dist[names[j]] <= dist[a])
             && (forall j :: 0 <= j < i ==> dist[names[j]] < dist[a]);
    var g :| 0 <= g < |names| && names[g] == greedy;
    assert dist[names[g]] <= dist[a];
    assert names[0] in names && names[i] in names;
  }

  /**
   A decision is flagged as exploration by comparing it with the most probable action. That is the greedy action unless
   epsilon is 1, when all actions are equally probable and the first name is taken instead.
   */
  lemma ExplorationFlag(scores: map<string, real>, epsilon: real, greedy: string, names: seq<string>, a: string)
    requires greedy in scores && IsListing(names, scores) && 0.0 <= epsilon <= 1.0
    requires IsMostProbable(Distribution(scores, epsilon, greedy), names, a)
    ensures a == greedy <==> epsilon < 1.0 || greedy == names[0]
  {
    ListingCounts(names, scores);
    var each := DistributionIsShared(scores, epsilon, greedy, names);
    MostProbableOfShares(Distribution(scores, epsilon, greedy), names, greedy, epsilon, each, a);
  }

  /** Neither the order nor the repetition of the eligible actions matters. */
  lemma EligibleIsASet(policy: Policy, sqrt: real -> real, x: seq<real>, one: seq<string>, two: seq<string>)
    requires policy.Valid() && |x| == policy.dimension
    requires forall a :: a in one <==> a in two
    ensures Scores(policy, sqrt, x, one) == Scores(policy, sqrt, x, two)
  {
    assert Candidates(policy, one) == Candidates(policy, two);
  }

  // ---------- A whole selection ----------

  /** What a decision must be, given the scores it was made from. */
  ghost predicate IsLegalDecision(scores: map<string, real>, epsilon: real, d: Decision) {
    && d.action in scores && 0.0 < d.probability <= 1.0
    && forall greedy :: IsGreedy(scores, greedy) ==>
         && d.probability == Distribution(scores, epsilon, greedy)[d.action]
         && (epsilon < 1.0 ==> (d.exploration <==> d.action != greedy))
  }

  lemma SelectionIsLegal(scores: map<string, real>, names: seq<string>, epsilon: real, greedy: string, draw: real,
                         d: Decision, i: int)
    requires IsListing(names, scores) && IsGreedy(scores, greedy) && 0.0 <= epsilon <= 1.0
    requires var dist := Distribution(scores, epsilon, greedy);
             && Selects(dist, names, draw, i) && d.action == names[i] && d.probability == dist[d.action]
             && exists g :: IsMostProbable(dist, names, g) && (d.exploration <==> d.action != g)
    ensures IsLegalDecision(scores, epsilon, d)
  {
    LoggedProbabilityIsLegal(scores, epsilon, greedy, names, draw, i);
    var g :| IsMostProbable(Distribution(scores, epsilon, greedy), names, g) && (d.exploration <==> d.action != g);
    ExplorationFlag(scores, epsilon, greedy, names, g);
    OneIsGreedy(scores);
    assert names[i] in names;
  }

  lemma DistributionIsReady(scores: map<string, real>, names: seq<string>, epsilon: real, greedy: string)
    requires IsListing(names, scores) && (scores != map[] ==> IsGreedy(scores, greedy)) && 0.0 <= epsilon <= 1.0
    ensures var dist := Distribution(scores, epsilon, greedy);
            && (forall a :: a in names <==> a in dist) && (forall a :: a in dist ==> dist[a] >= 0.0)
            && (scores != map[] ==> Total(dist, names) == 1.0)
  {
    forall a | a in scores { ProbabilityBounds(scores, epsilon, greedy, a); }
    if scores != map[] {
      DistributionSumsToOne(scores, epsilon, greedy, names);
    }
  }

  /**
   `select`, from the eligible actions and a draw in [0, 1). `features` is `None` when a feature cannot be computed, and
   `names` are the candidates in order.
   */
  method Decide(policy: Policy, sqrt: real -> real, features: Option<seq<real>>, eligible: seq<string>, names: seq<string>,
                draw: real, explore: bool) returns (r: Option<Decision>)
    requires policy.Valid() && 0.0 <= draw < 1.0
    requires features.Some? ==> |features.value| == policy.dimension
                                && IsListing(names, Scores(policy, sqrt, features.value, eligible))
    ensures r.None? <==> features.None? || Candidates(policy, eligible) == {}
    ensures r.Some? ==> r.value.action in eligible
    ensures r.Some? ==> IsLegalDecision(Scores(policy, sqrt, features.value, eligible),
                                        if explore && policy.epsilonGreedy then policy.epsilon else 0.0, r.value)
  {
    if features.None? {
      return None;
    }
    var scores := FillScores(policy, sqrt, features.value, eligible, names);
    var dist, greedy := Probabilities(policy, scores, names, explore);
    ghost var epsilon := if explore && policy.epsilonGreedy then policy.epsilon else 0.0;
    DistributionIsReady(scores, names, epsilon, greedy);
    r := Select(dist, names, draw);
    assert scores.Keys == Candidates(policy, eligible);
    if r.Some? {
      ghost var i :| Selects(dist, names, draw, i) && r.value.action == names[i];
      SelectionIsLegal(scores, names, epsilon, greedy, draw, r.value, i);
    }
  }
}
