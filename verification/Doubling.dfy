/** Double-and-add over any operation that is associative and has a neutral element up to an equivalence. */
module Doubling {

  /** What a double-and-add loop computes from `q` with `s` bits to go and `p` doubled so far. */
  function DoubleAndAdd<P>(add: (P, P) -> P, q: P, s: int, p: P): P
    decreases s
  {
    if s <= 0 then q else DoubleAndAdd(add, if s % 2 == 1 then add(q, p) else q, s / 2, add(p, p))
  }

  /** Adding `p` to `zero`, `s` times. */
  function Fold<P>(add: (P, P) -> P, zero: P, s: nat, p: P): P {
    if s == 0 then zero else add(Fold(add, zero, s - 1, p), p)
  }

  /** Names the elements at which a law is used; the laws below are instantiated nowhere else. */
  predicate At<P>(p: P, q: P, r: P) {
    true
  }

  ghost predicate IsClosed<P(!new)>(add: (P, P) -> P, good: iset<P>) {
    forall p, q {:trigger At(p, q, q)} :: p in good && q in good ==> add(p, q) in good
  }

  ghost predicate HasNeutral<P(!new)>(add: (P, P) -> P, equal: (P, P) -> bool, zero: P, good: iset<P>) {
    forall p {:trigger At(p, p, p)} :: p in good ==> equal(p, p) && equal(add(zero, p), p) && equal(add(p, zero), p)
  }

  ghost predicate IsEquivalence<P(!new)>(equal: (P, P) -> bool, good: iset<P>) {
    && (forall p, q {:trigger At(p, q, q)} :: p in good && q in good && equal(p, q) ==> equal(q, p))
    && (forall p, q, r {:trigger At(p, q, r)} ::
          p in good && q in good && r in good && equal(p, q) && equal(q, r) ==> equal(p, r))
  }

  ghost predicate IsRespected<P(!new)>(add: (P, P) -> P, equal: (P, P) -> bool, good: iset<P>) {
    forall p, q, r {:trigger At(p, q, r)} ::
      p in good && q in good && r in good && equal(p, q) ==> equal(add(p, r), add(q, r)) && equal(add(r, p), add(r, q))
  }

  ghost predicate IsAssociative<P(!new)>(add: (P, P) -> P, equal: (P, P) -> bool, good: iset<P>) {
    forall p, q, r {:trigger At(p, q, r)} ::
      p in good && q in good && r in good ==> equal(add(add(p, q), r), add(p, add(q, r)))
  }

  /** On `good`, `add` is associative with neutral element `zero`, up to the equivalence `equal`, which it respects. */
  ghost predicate ActsAsMonoid<P(!new)>(add: (P, P) -> P, equal: (P, P) -> bool, zero: P, good: iset<P>) {
    && zero in good
    && IsClosed(add, good) && HasNeutral(add, equal, zero, good)
    && IsEquivalence(equal, good) && IsRespected(add, equal, good) && IsAssociative(add, equal, good)
  }

  // ---------- The laws, one at a time ----------

  lemma SumIsGood<P(!new)>(add: (P, P) -> P, equal: (P, P) -> bool, zero: P, good: iset<P>, p: P, q: P)
    requires ActsAsMonoid(add, equal, zero, good) && p in good && q in good
    ensures add(p, q) in good
  {
    assert At(p, q, q);
  }

  lemma Neutral<P(!new)>(add: (P, P) -> P, equal: (P, P) -> bool, zero: P, good: iset<P>, p: P)
    requires ActsAsMonoid(add, equal, zero, good) && p in good
    ensures equal(p, p) && equal(add(zero, p), p) && equal(p, add(zero, p)) && equal(add(p, zero), p) && equal(p, add(p, zero))
  {
    assert At(p, p, p) && At(zero, p, p) && At(p, zero, zero);
    assert At(add(zero, p), p, p) && At(add(p, zero), p, p);
  }

  lemma Symmetric<P(!new)>(add: (P, P) -> P, equal: (P, P) -> bool, zero: P, good: iset<P>, p: P, q: P)
    requires ActsAsMonoid(add, equal, zero, good) && p in good && q in good && equal(p, q)
    ensures equal(q, p)
  {
    assert At(p, q, q);
  }

  lemma Transitive<P(!new)>(add: (P, P) -> P, equal: (P, P) -> bool, zero: P, good: iset<P>, p: P, q: P, r: P)
    requires ActsAsMonoid(add, equal, zero, good) && p in good && q in good && r in good
    requires equal(p, q) && equal(q, r)
    ensures equal(p, r)
  {
    assert At(p, q, r);
  }

  lemma Respected<P(!new)>(add: (P, P) -> P, equal: (P, P) -> bool, zero: P, good: iset<P>, p: P, q: P, r: P)
    requires ActsAsMonoid(add, equal, zero, good) && p in good && q in good && r in good && equal(p, q)
    ensures equal(add(p, r), add(q, r)) && equal(add(r, p), add(r, q))
  {
    assert At(p, q, r);
  }

  lemma Associative<P(!new)>(add: (P, P) -> P, equal: (P, P) -> bool, zero: P, good: iset<P>, p: P, q: P, r: P)
    requires ActsAsMonoid(add, equal, zero, good) && p in good && q in good && r in good
    ensures equal(add(add(p, q), r), add(p, add(q, r))) && equal(add(p, add(q, r)), add(add(p, q), r))
  {
    assert At(p, q, r);
    SumIsGood(add, equal, zero, good, p, q);
    SumIsGood(add, equal, zero, good, q, r);
    SumIsGood(add, equal, zero, good, add(p, q), r);
    SumIsGood(add, equal, zero, good, p, add(q, r));
    Symmetric(add, equal, zero, good, add(add(p, q), r), add(p, add(q, r)));
  }

  // ---------- Multiples ----------

  lemma {:induction false} FoldIsGood<P(!new)>(add: (P, P) -> P, equal: (P, P) -> bool, zero: P, good: iset<P>, s: nat, p: P)
    requires ActsAsMonoid(add, equal, zero, good) && p in good
    ensures Fold(add, zero, s, p) in good
  {
    if s > 0 {
      FoldIsGood(add, equal, zero, good, s - 1, p);
      SumIsGood(add, equal, zero, good, Fold(add, zero, s - 1, p), p);
    }
  }

  /** An element commutes with its own multiples. */
  lemma {:induction false} FoldFromTheLeft<P(!new)>(add: (P, P) -> P, equal: (P, P) -> bool, zero: P, good: iset<P>, s: nat, p: P)
    requires ActsAsMonoid(add, equal, zero, good) && p in good
    ensures equal(add(p, Fold(add, zero, s, p)), Fold(add, zero, s + 1, p))
  {
    Neutral(add, equal, zero, good, p);
    SumIsGood(add, equal, zero, good, zero, p);
    SumIsGood(add, equal, zero, good, p, zero);
    if s == 0 {
      Transitive(add, equal, zero, good, add(p, zero), p, add(zero, p));
    } else {
      var f, g := Fold(add, zero, s - 1, p), Fold(add, zero, s, p);
      FoldIsGood(add, equal, zero, good, s - 1, p);
      FoldIsGood(add, equal, zero, good, s, p);
      FoldFromTheLeft(add, equal, zero, good, s - 1, p);
      SumIsGood(add, equal, zero, good, p, f);
      SumIsGood(add, equal, zero, good, p, g);
      SumIsGood(add, equal, zero, good, add(p, f), p);
      SumIsGood(add, equal, zero, good, g, p);
      Associative(add, equal, zero, good, p, f, p);
      Respected(add, equal, zero, good, add(p, f), g, p);
      Transitive(add, equal, zero, good, add(p, g), add(add(p, f), p), add(g, p));
    }
  }

  /** Folding the double is folding twice as often. */
  lemma {:induction false} FoldOfDouble<P(!new)>(add: (P, P) -> P, equal: (P, P) -> bool, zero: P, good: iset<P>, s: nat, p: P)
    requires ActsAsMonoid(add, equal, zero, good) && p in good
    ensures equal(Fold(add, zero, s, add(p, p)), Fold(add, zero, 2 * s, p))
  {
    if s == 0 {
      Neutral(add, equal, zero, good, zero);
    } else {
      var two := add(p, p);
      var f, g := Fold(add, zero, s - 1, two), Fold(add, zero, 2 * s - 2, p);
      SumIsGood(add, equal, zero, good, p, p);
      FoldIsGood(add, equal, zero, good, s - 1, two);
      FoldIsGood(add, equal, zero, good, 2 * s - 2, p);
      FoldOfDouble(add, equal, zero, good, s - 1, p);
      SumIsGood(add, equal, zero, good, f, two);
      SumIsGood(add, equal, zero, good, g, two);
      SumIsGood(add, equal, zero, good, g, p);
      SumIsGood(add, equal, zero, good, add(g, p), p);
      Respected(add, equal, zero, good, f, g, two);
      Associative(add, equal, zero, good, g, p, p);
      Transitive(add, equal, zero, good, add(f, two), add(g, two), add(add(g, p), p));
      assert Fold(add, zero, 2 * s, p) == add(Fold(add, zero, 2 * s - 1, p), p);
    }
  }

  // ---------- The loop ----------

  lemma ReplaceSummand<P(!new)>(add: (P, P) -> P, equal: (P, P) -> bool, zero: P, good: iset<P>, r: P, q: P, x: P, y: P)
    requires ActsAsMonoid(add, equal, zero, good) && r in good && q in good && x in good && y in good
    requires equal(r, add(q, x)) && equal(x, y)
    ensures equal(r, add(q, y))
  {
    SumIsGood(add, equal, zero, good, q, x);
    SumIsGood(add, equal, zero, good, q, y);
    Respected(add, equal, zero, good, x, y, q);
    Transitive(add, equal, zero, good, r, add(q, x), add(q, y));
  }

  lemma OddStep<P(!new)>(add: (P, P) -> P, equal: (P, P) -> bool, zero: P, good: iset<P>, r: P, q: P, s: nat, p: P)
    requires ActsAsMonoid(add, equal, zero, good) && r in good && q in good && p in good
    requires equal(r, add(add(q, p), Fold(add, zero, s, p)))
    ensures equal(r, add(q, Fold(add, zero, s + 1, p)))
  {
    var f := Fold(add, zero, s, p);
    FoldIsGood(add, equal, zero, good, s, p);
    FoldIsGood(add, equal, zero, good, s + 1, p);
    FoldFromTheLeft(add, equal, zero, good, s, p);
    SumIsGood(add, equal, zero, good, q, p);
    SumIsGood(add, equal, zero, good, p, f);
    SumIsGood(add, equal, zero, good, add(q, p), f);
    SumIsGood(add, equal, zero, good, q, add(p, f));
    Associative(add, equal, zero, good, q, p, f);
    Transitive(add, equal, zero, good, r, add(add(q, p), f), add(q, add(p, f)));
    ReplaceSummand(add, equal, zero, good, r, q, add(p, f), Fold(add, zero, s + 1, p));
  }

  /** The loop's meaning: what has been accumulated, plus the element folded as often as the remaining bits say. */
  lemma {:induction false} LoopMeaning<P(!new)>(add: (P, P) -> P, equal: (P, P) -> bool, zero: P, good: iset<P>,
                                                q: P, s: nat, p: P)
    requires ActsAsMonoid(add, equal, zero, good) && q in good && p in good
    ensures DoubleAndAdd(add, q, s, p) in good
    ensures equal(DoubleAndAdd(add, q, s, p), add(q, Fold(add, zero, s, p)))
    decreases s
  {
    if s == 0 {
      Neutral(add, equal, zero, good, q);
    } else {
      var half := s / 2;
      var q' := if s % 2 == 1 then add(q, p) else q;
      SumIsGood(add, equal, zero, good, q, p);
      SumIsGood(add, equal, zero, good, p, p);
      FoldIsGood(add, equal, zero, good, half, add(p, p));
      FoldIsGood(add, equal, zero, good, 2 * half, p);
      LoopMeaning(add, equal, zero, good, q', half, add(p, p));
      FoldOfDouble(add, equal, zero, good, half, p);
      var r := DoubleAndAdd(add, q, s, p);
      ReplaceSummand(add, equal, zero, good, r, q', Fold(add, zero, half, add(p, p)), Fold(add, zero, 2 * half, p));
      if s % 2 == 1 { OddStep(add, equal, zero, good, r, q, 2 * half, p); }
    }
  }

  /** Double-and-add from `zero` is repeated addition. */
  lemma DoublingIsRepetition<P(!new)>(add: (P, P) -> P, equal: (P, P) -> bool, zero: P, good: iset<P>, s: nat, p: P)
    requires ActsAsMonoid(add, equal, zero, good) && p in good
    ensures equal(DoubleAndAdd(add, zero, s, p), Fold(add, zero, s, p))
  {
    LoopMeaning(add, equal, zero, good, zero, s, p);
    FoldIsGood(add, equal, zero, good, s, p);
    SumIsGood(add, equal, zero, good, zero, Fold(add, zero, s, p));
    Neutral(add, equal, zero, good, Fold(add, zero, s, p));
    Transitive(add, equal, zero, good, DoubleAndAdd(add, zero, s, p), add(zero, Fold(add, zero, s, p)), Fold(add, zero, s, p));
  }

  // ---------- Arithmetic of multiples ----------

  lemma {:induction false} FoldAdds<P(!new)>(add: (P, P) -> P, equal: (P, P) -> bool, zero: P, good: iset<P>, m: nat, n: nat, p: P)
    requires ActsAsMonoid(add, equal, zero, good) && p in good
    ensures equal(Fold(add, zero, m + n, p), add(Fold(add, zero, m, p), Fold(add, zero, n, p)))
  {
    var f := Fold(add, zero, m, p);
    FoldIsGood(add, equal, zero, good, m, p);
    Neutral(add, equal, zero, good, f);
    if n > 0 {
      var g, sum := Fold(add, zero, n - 1, p), Fold(add, zero, m + n - 1, p);
      FoldIsGood(add, equal, zero, good, n - 1, p);
      FoldIsGood(add, equal, zero, good, n, p);
      FoldIsGood(add, equal, zero, good, m + n - 1, p);
      SumIsGood(add, equal, zero, good, f, g);
      SumIsGood(add, equal, zero, good, sum, p);
      SumIsGood(add, equal, zero, good, add(f, g), p);
      SumIsGood(add, equal, zero, good, f, add(g, p));
      FoldAdds(add, equal, zero, good, m, n - 1, p);
      Respected(add, equal, zero, good, sum, add(f, g), p);
      Associative(add, equal, zero, good, f, g, p);
      Transitive(add, equal, zero, good, add(sum, p), add(add(f, g), p), add(f, add(g, p)));
    }
  }

  lemma {:induction false} FoldRespects<P(!new)>(add: (P, P) -> P, equal: (P, P) -> bool, zero: P, good: iset<P>, n: nat, p: P, q: P)
    requires ActsAsMonoid(add, equal, zero, good) && p in good && q in good && equal(p, q)
    ensures equal(Fold(add, zero, n, p), Fold(add, zero, n, q))
  {
    if n == 0 {
      Neutral(add, equal, zero, good, zero);
    } else {
      FoldIsGood(add, equal, zero, good, n - 1, p);
      FoldIsGood(add, equal, zero, good, n - 1, q);
      FoldRespects(add, equal, zero, good, n - 1, p, q);
      SumsAgree(add, equal, zero, good, Fold(add, zero, n - 1, p), Fold(add, zero, n - 1, q), p, q);
    }
  }

  /** Equal summands give equal sums. */
  lemma SumsAgree<P(!new)>(add: (P, P) -> P, equal: (P, P) -> bool, zero: P, good: iset<P>, p: P, p': P, q: P, q': P)
    requires ActsAsMonoid(add, equal, zero, good) && p in good && p' in good && q in good && q' in good
    requires equal(p, p') && equal(q, q')
    ensures equal(add(p, q), add(p', q'))
  {
    SumIsGood(add, equal, zero, good, p, q);
    SumIsGood(add, equal, zero, good, p', q);
    SumIsGood(add, equal, zero, good, p', q');
    Respected(add, equal, zero, good, p, p', q);
    Respected(add, equal, zero, good, q, q', p');
    Transitive(add, equal, zero, good, add(p, q), add(p', q), add(p', q'));
  }

  lemma {:induction false} FoldOfZero<P(!new)>(add: (P, P) -> P, equal: (P, P) -> bool, zero: P, good: iset<P>, n: nat)
    requires ActsAsMonoid(add, equal, zero, good)
    ensures equal(Fold(add, zero, n, zero), zero)
  {
    Neutral(add, equal, zero, good, zero);
    if n > 0 {
      var f := Fold(add, zero, n - 1, zero);
      FoldIsGood(add, equal, zero, good, n - 1, zero);
      FoldOfZero(add, equal, zero, good, n - 1);
      Neutral(add, equal, zero, good, f);
      SumIsGood(add, equal, zero, good, f, zero);
      Transitive(add, equal, zero, good, add(f, zero), f, zero);
    }
  }

  /** A multiple of a multiple is the multiple of the product. */
  lemma {:induction false} FoldMultiplies<P(!new)>(add: (P, P) -> P, equal: (P, P) -> bool, zero: P, good: iset<P>, m: nat, n: nat, p: P)
    requires ActsAsMonoid(add, equal, zero, good) && p in good
    ensures equal(Fold(add, zero, m, Fold(add, zero, n, p)), Fold(add, zero, m * n, p))
  {
    var q := Fold(add, zero, n, p);
    FoldIsGood(add, equal, zero, good, n, p);
    if m == 0 {
      Neutral(add, equal, zero, good, zero);
    } else {
      var k := (m - 1) * n;
      assert m * n == k + n;
      var f, g := Fold(add, zero, m - 1, q), Fold(add, zero, k, p);
      FoldIsGood(add, equal, zero, good, m - 1, q);
      FoldIsGood(add, equal, zero, good, k, p);
      FoldIsGood(add, equal, zero, good, k + n, p);
      FoldMultiplies(add, equal, zero, good, m - 1, n, p);
      Neutral(add, equal, zero, good, q);
      SumsAgree(add, equal, zero, good, f, g, q, q);
      FoldAdds(add, equal, zero, good, k, n, p);
      SumIsGood(add, equal, zero, good, f, q);
      SumIsGood(add, equal, zero, good, g, q);
      Symmetric(add, equal, zero, good, Fold(add, zero, k + n, p), add(g, q));
      Transitive(add, equal, zero, good, add(f, q), add(g, q), Fold(add, zero, k + n, p));
    }
  }

  /** Multiples of an element that `order` annihilates depend on the multiplier modulo `order` alone. */
  lemma FoldModulo<P(!new)>(add: (P, P) -> P, equal: (P, P) -> bool, zero: P, good: iset<P>, order: nat, n: nat, p: P)
    requires ActsAsMonoid(add, equal, zero, good) && p in good && order > 0 && equal(Fold(add, zero, order, p), zero)
    ensures equal(Fold(add, zero, n, p), Fold(add, zero, n % order, p))
  {
    var k, r := n / order, n % order;
    assert n == k * order + r;
    var all, rest := Fold(add, zero, k * order, p), Fold(add, zero, r, p);
    FoldIsGood(add, equal, zero, good, k * order, p);
    FoldIsGood(add, equal, zero, good, r, p);
    FoldIsGood(add, equal, zero, good, n, p);
    MultiplesOfOrder(add, equal, zero, good, order, k, p);
    FoldAdds(add, equal, zero, good, k * order, r, p);
    Neutral(add, equal, zero, good, rest);
    SumsAgree(add, equal, zero, good, all, zero, rest, rest);
    SumIsGood(add, equal, zero, good, all, rest);
    SumIsGood(add, equal, zero, good, zero, rest);
    Transitive(add, equal, zero, good, Fold(add, zero, n, p), add(all, rest), add(zero, rest));
    Transitive(add, equal, zero, good, Fold(add, zero, n, p), add(zero, rest), rest);
  }

  lemma MultiplesOfOrder<P(!new)>(add: (P, P) -> P, equal: (P, P) -> bool, zero: P, good: iset<P>, order: nat, k: nat, p: P)
    requires ActsAsMonoid(add, equal, zero, good) && p in good && equal(Fold(add, zero, order, p), zero)
    ensures equal(Fold(add, zero, k * order, p), zero)
  {
    var q := Fold(add, zero, order, p);
    FoldIsGood(add, equal, zero, good, order, p);
    FoldIsGood(add, equal, zero, good, k, q);
    FoldIsGood(add, equal, zero, good, k, zero);
    FoldIsGood(add, equal, zero, good, k * order, p);
    FoldMultiplies(add, equal, zero, good, k, order, p);
    FoldRespects(add, equal, zero, good, k, q, zero);
    FoldOfZero(add, equal, zero, good, k);
    Symmetric(add, equal, zero, good, Fold(add, zero, k, q), Fold(add, zero, k * order, p));
    Transitive(add, equal, zero, good, Fold(add, zero, k * order, p), Fold(add, zero, k, q), Fold(add, zero, k, zero));
    Transitive(add, equal, zero, good, Fold(add, zero, k * order, p), Fold(add, zero, k, zero), zero);
  }

  /** If two multiples below the order agree, a smaller multiple vanishes. */
  lemma EqualMultiples<P(!new)>(add: (P, P) -> P, equal: (P, P) -> bool, zero: P, good: iset<P>, order: nat, m: nat, n: nat, p: P)
    requires ActsAsMonoid(add, equal, zero, good) && p in good && equal(Fold(add, zero, order, p), zero)
    requires m < n < order && equal(Fold(add, zero, m, p), Fold(add, zero, n, p))
    ensures equal(Fold(add, zero, n - m, p), zero)
  {
    var f, g := Fold(add, zero, m, p), Fold(add, zero, n, p);
    var d, rest := Fold(add, zero, n - m, p), Fold(add, zero, order - m, p);
    forall k: nat ensures Fold(add, zero, k, p) in good { FoldIsGood(add, equal, zero, good, k, p); }
    // d + order = n + (order - m), so d ~ d + zero ~ g + rest ~ f + rest ~ zero
    FoldAdds(add, equal, zero, good, n - m, order, p);
    FoldAdds(add, equal, zero, good, n, order - m, p);
    FoldAdds(add, equal, zero, good, m, order - m, p);
    var whole, total := Fold(add, zero, order, p), Fold(add, zero, n - m + order, p);
    Neutral(add, equal, zero, good, d);
    Neutral(add, equal, zero, good, rest);
    SumsAgree(add, equal, zero, good, d, d, whole, zero);
    SumsAgree(add, equal, zero, good, f, g, rest, rest);
    forall a, b | a in good && b in good ensures add(a, b) in good { SumIsGood(add, equal, zero, good, a, b); }
    Transitive(add, equal, zero, good, total, add(d, whole), add(d, zero));
    Transitive(add, equal, zero, good, total, add(d, zero), d);
    Symmetric(add, equal, zero, good, total, d);
    Symmetric(add, equal, zero, good, add(f, rest), add(g, rest));
    Transitive(add, equal, zero, good, d, total, add(g, rest));
    Transitive(add, equal, zero, good, d, add(g, rest), add(f, rest));
    Symmetric(add, equal, zero, good, whole, add(f, rest));
    Transitive(add, equal, zero, good, d, add(f, rest), whole);
    Transitive(add, equal, zero, good, d, whole, zero);
  }
}
