/** Arithmetic modulo a prime: inverses, powers and Fermat's little theorem. */
module Primes {
  import opened Congruence

  /** Euclid's lemma, which holds exactly for prime moduli. */
  ghost predicate IsPrime(p: int)
    requires p > 1
  {
    forall a, b {:trigger Times(a, b)} :: Times(a, b) % p == 0 ==> a % p == 0 || b % p == 0
  }

  lemma PrimeDivides(p: int, a: int, b: int)
    requires p > 1 && IsPrime(p) && a * b % p == 0
    ensures a % p == 0 || b % p == 0
  {
    assert Times(a, b) % p == 0;
  }

  // ---------- Inverses ----------

  /** A common divisor of `a` and `p` that is a combination of them. */
  lemma {:induction false} Bezout(a: nat, p: nat) returns (g: nat, x: int, y: int, i: int, j: int)
    requires p > 0
    ensures g > 0 && g == x * a + y * p && a == i * g && p == j * g
    decreases a
  {
    if a == 0 {
      g, x, y, i, j := p, 0, 1, 0, 1;
    } else {
      var q, r := p / a, p % a;
      assert p == q * a + r;
      var x', y', i', j';
      g, x', y', i', j' := Bezout(r, a);
      // g = x'r + y'a = x'(p - qa) + y'a
      x, y, i, j := y' - x' * q, x', j', i' + q * j';
      assert x' * r == x' * p - (x' * q) * a by { assert x' * (q * a) == (x' * q) * a; }
      assert (y' - x' * q) * a == y' * a - (x' * q) * a;
      assert (q * j') * g == q * (j' * g);
      assert (i' + q * j') * g == i' * g + (q * j') * g;
    }
  }

  /** What is not divisible by a prime has an inverse modulo it. */
  lemma Inverse(p: int, a: int) returns (b: int)
    requires p > 1 && IsPrime(p) && a % p != 0
    ensures Cong(p, a * b, 1) && b % p != 0
  {
    var r := a % p;
    var g, x, y, i, j := Bezout(r, p);
    DivisorIsOne(p, r, g, i, j);
    b := x;
    CongBy(p, x * r, 1, -y);
    CongMod(p, a);
    CongScale(p, x, r, a);
    CongSym(p, x * r, x * a);
    CongTrans(p, x * a, x * r, 1);
    assert x * a == a * x;
    if x % p == 0 {
      ZeroTimes(p, x, a);
      CongIffMod(p, x * a, 1);
    }
  }

  lemma DivisorIsOne(p: int, r: int, g: nat, i: int, j: int)
    requires p > 1 && IsPrime(p) && 0 < r < p && g > 0 && r == i * g && p == j * g
    ensures g == 1
  {
    MultipleHasNoRemainder(p, j * g, 1);
    PrimeDivides(p, j, g);
    DivisorIsSmall(r, g, i);
    if j % p == 0 {
      var m := j / p;
      assert j == m * p;
      assert p == (m * g) * p by { assert (m * p) * g == (m * g) * p; }
      OneFactor(p, m * g);
      FactorsOfOne(m, g);
    }
  }

  lemma DivisorIsSmall(r: int, g: nat, i: int)
    requires r > 0 && g > 0 && r == i * g
    ensures g <= r
  {
    assert i <= 0 ==> i * g <= 0;
    assert i >= 1 ==> i * g >= g;
  }

  lemma OneFactor(p: int, n: int)
    requires p > 0 && p == n * p
    ensures n == 1
  {
    assert n >= 2 ==> n * p >= 2 * p;
    assert n <= 0 ==> n * p <= 0;
  }

  lemma FactorsOfOne(m: int, g: nat)
    requires m * g == 1
    ensures g == 1
  {
    assert m >= 1 ==> m * g >= g;
    assert m <= 0 ==> m * g <= 0;
  }

  lemma ZeroTimes(p: int, a: int, b: int)
    requires p > 0 && a % p == 0
    ensures a * b % p == 0 && b * a % p == 0
  {
    var k := a / p;
    assert a == k * p;
    assert a * b == (k * b) * p by { assert (k * p) * b == (k * b) * p; }
    MultipleHasNoRemainder(p, a * b, k * b);
    assert a * b == b * a;
  }

  lemma NonZeroProduct(p: int, a: int, b: int)
    requires p > 1 && IsPrime(p) && a % p != 0 && b % p != 0
    ensures a * b % p != 0
  {
    if a * b % p == 0 { PrimeDivides(p, a, b); }
  }

  /** A factor that does not vanish can be cancelled. */
  lemma Cancel(p: int, k: int, a: int, b: int)
    requires p > 1 && IsPrime(p) && k % p != 0 && Cong(p, k * a, k * b)
    ensures Cong(p, a, b)
  {
    CongIffDifference(p, k * a, k * b);
    assert k * a - k * b == k * (a - b);
    PrimeDivides(p, k, a - b);
    CongIffDifference(p, a, b);
  }

  /** Only congruent numbers vanish together. */
  lemma CongVanishes(p: int, a: int, b: int)
    requires p > 0 && Cong(p, a, b)
    ensures a % p == 0 <==> b % p == 0
  {
    CongIffMod(p, a, b);
  }

  // ---------- Powers ----------

  /** Python's three-argument `pow`. */
  function Pow(base: int, e: nat, m: int): (r: int)
    requires m > 0
    ensures 0 <= r < m
  {
    if e == 0 then 1 % m else base * Pow(base, e - 1, m) % m
  }

  function Power(base: int, e: nat): int {
    if e == 0 then 1 else base * Power(base, e - 1)
  }

  /** Reducing at every step gives the residue of the power. */
  lemma {:induction false} PowIsPower(base: int, e: nat, m: int)
    requires m > 0
    ensures Cong(m, Pow(base, e, m), Power(base, e))
  {
    if e == 0 {
      CongMod(m, 1);
    } else {
      PowIsPower(base, e - 1, m);
      CongScale(m, base, Pow(base, e - 1, m), Power(base, e - 1));
      CongMod(m, base * Pow(base, e - 1, m));
      CongTrans(m, Pow(base, e, m), base * Pow(base, e - 1, m), Power(base, e));
    }
  }

  lemma {:induction false} PowerAdds(base: int, e: nat, f: nat)
    ensures Power(base, e + f) == Power(base, e) * Power(base, f)
  {
    if e > 0 {
      PowerAdds(base, e - 1, f);
      assert Power(base, e + f) == base * Power(base, e - 1 + f);
    }
  }

  lemma {:induction false} PowerOfSquare(base: int, e: nat)
    ensures Power(base * base, e) == Power(base, e) * Power(base, e) == Power(base, 2 * e)
  {
    PowerAdds(base, e, e);
    if e > 0 {
      PowerOfSquare(base, e - 1);
      var s := Power(base, e - 1);
      assert (base * base) * (s * s) == (base * s) * (base * s);
    }
  }

  lemma {:induction false} PowerCong(m: int, a: int, b: int, e: nat)
    requires Cong(m, a, b)
    ensures Cong(m, Power(a, e), Power(b, e))
  {
    if e == 0 {
      CongRefl(m, 1);
    } else {
      PowerCong(m, a, b, e - 1);
      CongRing(m, a, b, Power(a, e - 1), Power(b, e - 1));
    }
  }

  // ---------- Fermat's little theorem ----------

  /** The product of the members of `s` from 1 to `n`. */
  function Product(s: set<int>, n: nat): int {
    if n == 0 then 1 else (if n in s then n else 1) * Product(s, n - 1)
  }

  lemma {:induction false} ProductOf(s: set<int>, n: nat, y: int)
    requires y in s
    ensures Product(s, n) == (if 0 < y <= n then y else 1) * Product(s - {y}, n)
  {
    if n > 0 {
      var rest := Product(s - {y}, n - 1);
      ProductOf(s, n - 1, y);
      if n == y {
        assert Product(s - {y}, n) == rest;
      } else if 0 < y < n {
        SwapFactors(if n in s then n else 1, y, rest);
      }
    }
  }

  lemma SwapFactors(n: int, y: int, rest: int)
    ensures n * (y * rest) == y * (n * rest)
  {
  }

  function Residues(p: nat): (r: set<int>)
    ensures forall x :: x in r <==> 0 < x < p
    ensures p > 0 ==> |r| == p - 1
  {
    if p <= 1 then {} else Residues(p - 1) + {p - 1}
  }

  function Image(f: int -> int, s: set<int>): set<int> {
    set x | x in s :: f(x)
  }

  /** `f` multiplies by `a` modulo `p`, as a permutation of residues. */
  ghost predicate Scales(p: int, a: int, f: int -> int) {
    && (forall x :: 0 < x < p ==> Cong(p, f(x), Times(a, x)) && 0 < f(x) < p)
    && forall x, y :: 0 < x < p && 0 < y < p && f(x) == f(y) ==> x == y
  }

  lemma ImageOfOneMore(p: int, a: int, f: int -> int, s: set<int>, y: int)
    requires p > 1 && Scales(p, a, f) && s <= Residues(p) && y in s
    ensures Image(f, s) == Image(f, s - {y}) + {f(y)} && f(y) !in Image(f, s - {y})
  {
  }

  /** Multiplying every member of a set of residues multiplies the product by a power. */
  lemma {:induction false} ProductOfImage(p: int, a: int, f: int -> int, s: set<int>)
    requires p > 1 && Scales(p, a, f) && s <= Residues(p)
    ensures |Image(f, s)| == |s|
    ensures Cong(p, Product(Image(f, s), p - 1), Power(a, |s|) * Product(s, p - 1))
    decreases |s|
  {
    if s == {} {
      assert Image(f, s) == {};
      CongRefl(p, Product({}, p - 1));
    } else {
      var y :| y in s;
      ProductOfImage(p, a, f, s - {y});
      ImageOfOneMore(p, a, f, s, y);
      OneMoreResidue(p, a, f, s, y, Image(f, s - {y}));
    }
  }

  lemma OneMoreResidue(p: int, a: int, f: int -> int, s: set<int>, y: int, image: set<int>)
    requires p > 1 && y in s && 0 < y < p && 0 < f(y) < p && f(y) !in image && Cong(p, f(y), Times(a, y))
    requires Cong(p, Product(image, p - 1), Power(a, |s - {y}|) * Product(s - {y}, p - 1))
    ensures Cong(p, Product(image + {f(y)}, p - 1), Power(a, |s|) * Product(s, p - 1))
  {
    var z, rest := f(y), s - {y};
    assert image + {z} - {z} == image;
    ProductOf(image + {z}, p - 1, z);
    ProductOf(s, p - 1, y);
    assert |s| == |rest| + 1;
    PowerStep(a, |s|);
    OneMoreFactor(p, a, y, z, Product(image, p - 1), Power(a, |rest|), Product(rest, p - 1));
  }

  lemma PowerStep(a: int, n: nat)
    requires n > 0
    ensures Power(a, n) == a * Power(a, n - 1)
  {
  }

  lemma OneMoreFactor(p: int, a: int, y: int, z: int, image: int, power: int, product: int)
    requires Cong(p, z, Times(a, y)) && Cong(p, image, power * product)
    ensures Cong(p, z * image, (a * power) * (y * product))
  {
    CongRing(p, z, a * y, image, power * product);
    assert (a * y) * (power * product) == (a * power) * (y * product);
  }

  lemma {:induction false} ProductIsPrimeToIt(p: int, s: set<int>, n: nat)
    requires p > 1 && IsPrime(p) && n < p
    ensures Product(s, n) % p != 0
  {
    if n > 0 {
      ProductIsPrimeToIt(p, s, n - 1);
      SmallMod(p, if n in s then n else 1);
      NonZeroProduct(p, if n in s then n else 1, Product(s, n - 1));
    } else {
      SmallMod(p, 1);
    }
  }

  lemma SmallMod(p: int, x: int)
    requires 0 <= x < p
    ensures x % p == x
  {
  }

  lemma SubsetOfSameSize<T>(s: set<T>, t: set<T>)
    requires s <= t && |s| == |t|
    ensures s == t
  {
    if x :| x in t && x !in s {
      FewerMembers(s, t - {x});
    }
    assert t <= s;
  }

  lemma {:induction false} FewerMembers<T>(s: set<T>, t: set<T>)
    requires s <= t
    ensures |s| <= |t|
  {
    if x :| x in s {
      FewerMembers(s - {x}, t - {x});
    } else {
      assert s == {};
    }
  }

  lemma ScalingPermutes(p: int, a: int, f: int -> int)
    requires p > 1 && IsPrime(p) && a % p != 0 && forall x :: f(x) == Times(a, x) % p
    ensures Scales(p, a, f)
  {
    forall x | 0 < x < p ensures Cong(p, f(x), Times(a, x)) && 0 < f(x) < p {
      CongMod(p, Times(a, x));
      SmallMod(p, x);
      NonZeroProduct(p, a, x);
    }
    forall x, y | 0 < x < p && 0 < y < p && f(x) == f(y) ensures x == y {
      CongIffMod(p, Times(a, x), Times(a, y));
      Cancel(p, a, x, y);
      CongIffMod(p, x, y);
      SmallMod(p, x);
      SmallMod(p, y);
    }
  }

  /** The power p - 1 of what is not divisible by a prime p is congruent to one. */
  lemma Fermat(p: int, a: int)
    requires p > 1 && IsPrime(p) && a % p != 0
    ensures Cong(p, Power(a, p - 1), 1)
  {
    var f := (x: int) => Times(a, x) % p;
    ScalingPermutes(p, a, f);
    FermatBy(p, a, f, Residues(p));
  }

  lemma FermatBy(p: int, a: int, f: int -> int, all: set<int>)
    requires p > 1 && IsPrime(p) && Scales(p, a, f) && all == Residues(p)
    ensures Cong(p, Power(a, p - 1), 1)
  {
    ImageIsAll(p, a, f);
    ProductOfImage(p, a, f, all);
    ProductIsPrimeToIt(p, all, p - 1);
    CancelProduct(p, Power(a, p - 1), Product(all, p - 1));
  }

  lemma ImageIsAll(p: int, a: int, f: int -> int)
    requires p > 1 && Scales(p, a, f)
    ensures Image(f, Residues(p)) == Residues(p)
  {
    ProductOfImage(p, a, f, Residues(p));
    SubsetOfSameSize(Image(f, Residues(p)), Residues(p));
  }

  lemma CancelProduct(p: int, power: int, product: int)
    requires p > 1 && IsPrime(p) && product % p != 0 && Cong(p, product, power * product)
    ensures Cong(p, power, 1)
  {
    assert power * product == product * power && product * 1 == product;
    CongSym(p, product * 1, product * power);
    Cancel(p, product, power, 1);
  }
}
