/**
 Points of Ed25519 as projective points: what `Equal` means, that addition respects it, and that on the curve of RFC 8032
 (section 5.1) addition has a neutral element, inverses, and never leaves the points whose z does not vanish.
 */
module Projective {
  import opened Congruence
  import opened Primes
  import opened Ed25519
  import opened Doubling

  /** `k`, which does not vanish, carries the coordinates of one point to those of the other. */
  ghost predicate Carries(c: Curve, k: int, p: Point, q: Point) {
    k % c.p != 0 && Cong(c.p, k * p.x, q.x) && Cong(c.p, k * p.y, q.y) && Cong(c.p, k * p.z, q.z)
  }

  ghost predicate SameProjectively(c: Curve, p: Point, q: Point) {
    exists k :: Carries(c, k, p, q)
  }

  /** A point with affine coordinates. */
  predicate IsFinite(c: Curve, p: Point) {
    p.z % c.p != 0
  }

  // ---------- What equality means ----------

  lemma EqualIsCong(c: Curve, p: Point, q: Point)
    ensures Equal(c, p, q) <==> Cong(c.p, p.x * q.z, q.x * p.z) && Cong(c.p, p.y * q.z, q.y * p.z)
  {
    CongIffDifference(c.p, p.x * q.z, q.x * p.z);
    CongIffDifference(c.p, p.y * q.z, q.y * p.z);
  }

  /** Carried coordinates are crosswise equal. */
  lemma CarriedCoordinate(m: int, k: int, x1: int, z1: int, x2: int, z2: int)
    requires Cong(m, k * x1, x2) && Cong(m, k * z1, z2)
    ensures Cong(m, x1 * z2, x2 * z1)
  {
    CongScale(m, x1, k * z1, z2);
    CongSym(m, x1 * (k * z1), x1 * z2);
    CongScale(m, z1, k * x1, x2);
    assert x1 * (k * z1) == z1 * (k * x1);
    CongTrans(m, x1 * z2, x1 * (k * z1), z1 * x2);
    assert z1 * x2 == x2 * z1;
  }

  /** Crosswise equal coordinates are carried by the quotient of the z's. */
  lemma CrosswiseCoordinate(m: int, w: int, x1: int, z1: int, x2: int, z2: int)
    requires Cong(m, x1 * z2, x2 * z1) && Cong(m, z1 * w, 1)
    ensures Cong(m, (z2 * w) * x1, x2)
  {
    CongScale(m, w, x1 * z2, x2 * z1);
    assert w * (x1 * z2) == (z2 * w) * x1;
    CongScale(m, x2, z1 * w, 1);
    assert w * (x2 * z1) == x2 * (z1 * w);
    CongTrans(m, (z2 * w) * x1, x2 * (z1 * w), x2 * 1);
  }

  lemma CarriedIsEqual(c: Curve, k: int, p: Point, q: Point)
    requires Carries(c, k, p, q)
    ensures Equal(c, p, q)
  {
    EqualIsCong(c, p, q);
    CarriedCoordinate(c.p, k, p.x, p.z, q.x, q.z);
    CarriedCoordinate(c.p, k, p.y, p.z, q.y, q.z);
  }

  lemma EqualIsCarried(c: Curve, p: Point, q: Point) returns (k: int)
    requires c.p > 1 && IsPrime(c.p) && IsFinite(c, p) && IsFinite(c, q) && Equal(c, p, q)
    ensures Carries(c, k, p, q)
  {
    var w := Inverse(c.p, p.z);
    EqualIsCong(c, p, q);
    CrosswiseCoordinate(c.p, w, p.x, p.z, q.x, q.z);
    CrosswiseCoordinate(c.p, w, p.y, p.z, q.y, q.z);
    CongRefl(c.p, q.z * p.z);
    assert p.z * q.z == q.z * p.z;
    CrosswiseCoordinate(c.p, w, p.z, p.z, q.z, q.z);
    k := q.z * w;
    NonZeroProduct(c.p, q.z, w);
  }

  /** Two points with affine coordinates are equal exactly when one is a multiple of the other. */
  lemma EqualIffSameProjectively(c: Curve, p: Point, q: Point)
    requires c.p > 1 && IsPrime(c.p) && IsFinite(c, p) && IsFinite(c, q)
    ensures Equal(c, p, q) <==> SameProjectively(c, p, q)
  {
    if Equal(c, p, q) {
      var k := EqualIsCarried(c, p, q);
    }
    if k :| Carries(c, k, p, q) {
      CarriedIsEqual(c, k, p, q);
    }
  }

  /** On affine points, whatever the modulus, equality is equality of both coordinates modulo it. */
  lemma AffineEquality(c: Curve, p: Point, q: Point)
    requires p.z == 1 && q.z == 1
    ensures Equal(c, p, q) <==> p.x % c.p == q.x % c.p && p.y % c.p == q.y % c.p
  {
    EqualIsCong(c, p, q);
    CongIffMod(c.p, p.x, q.x);
    CongIffMod(c.p, p.y, q.y);
  }

  /** Equality is an equivalence on points with affine coordinates. */
  lemma EqualIsAnEquivalence(c: Curve, p: Point, q: Point, r: Point)
    requires c.p > 1 && IsPrime(c.p) && IsFinite(c, q)
    ensures Equal(c, p, p)
    ensures Equal(c, p, q) ==> Equal(c, q, p)
    ensures Equal(c, p, q) && Equal(c, q, r) ==> Equal(c, p, r)
  {
    var m := c.p;
    EqualIsCong(c, p, p);
    CongRefl(m, p.x * p.z);
    CongRefl(m, p.y * p.z);
    EqualIsCong(c, p, q);
    EqualIsCong(c, q, p);
    EqualIsCong(c, q, r);
    EqualIsCong(c, p, r);
    if Equal(c, p, q) {
      CongSym(m, p.x * q.z, q.x * p.z);
      CongSym(m, p.y * q.z, q.y * p.z);
      if Equal(c, q, r) {
        CrosswiseChain(m, p.x, p.z, q.x, q.z, r.x, r.z);
        CrosswiseChain(m, p.y, p.z, q.y, q.z, r.y, r.z);
      }
    }
  }

  lemma CrosswiseChain(m: int, x1: int, z1: int, x2: int, z2: int, x3: int, z3: int)
    requires m > 1 && IsPrime(m) && z2 % m != 0
    requires Cong(m, x1 * z2, x2 * z1) && Cong(m, x2 * z3, x3 * z2)
    ensures Cong(m, x1 * z3, x3 * z1)
  {
    CongScale(m, z3, x1 * z2, x2 * z1);
    CongScale(m, z1, x2 * z3, x3 * z2);
    assert z3 * (x1 * z2) == z2 * (x1 * z3);
    assert z3 * (x2 * z1) == z1 * (x2 * z3);
    assert z1 * (x3 * z2) == z2 * (x3 * z1);
    CongTrans(m, z2 * (x1 * z3), z1 * (x2 * z3), z2 * (x3 * z1));
    Cancel(m, z2, x1 * z3, x3 * z1);
  }

  // ---------- Addition respects equality ----------

  /** All four coordinates are carried. */
  ghost predicate CarriesAll(m: int, k: int, p: Point, q: Point) {
    Cong(m, k * p.x, q.x) && Cong(m, k * p.y, q.y) && Cong(m, k * p.z, q.z) && Cong(m, k * p.t, q.t)
  }

  lemma ScaledRelation(m: int, k: int, p: Point)
    requires Cong(m, p.x * p.y, p.z * p.t)
    ensures Cong(m, (k * p.x) * (k * p.y), (k * p.z) * (k * p.t))
  {
    CongScale(m, k * k, p.x * p.y, p.z * p.t);
    assert (k * p.x) * (k * p.y) == (k * k) * (p.x * p.y);
    assert (k * p.z) * (k * p.t) == (k * k) * (p.z * p.t);
  }

  /** From xy = zt on both sides, congruent x, y and z give congruent t. */
  lemma FourthFollows(m: int, x: int, y: int, z: int, t: int, x': int, y': int, z': int, t': int)
    requires m > 1 && IsPrime(m) && z' % m != 0
    requires Cong(m, x * y, z * t) && Cong(m, x' * y', z' * t')
    requires Cong(m, x, x') && Cong(m, y, y') && Cong(m, z, z')
    ensures Cong(m, t, t')
  {
    CongRefl(m, t);
    CongRing(m, z, z', t, t);
    CongSym(m, z * t, z' * t);
    CongSym(m, x * y, z * t);
    CongTrans(m, z' * t, z * t, x * y);
    CongRing(m, x, x', y, y');
    CongTrans(m, z' * t, x * y, x' * y');
    CongTrans(m, z' * t, x' * y', z' * t');
    Cancel(m, z', t, t');
  }

  /** On the curve the fourth coordinate follows the other three. */
  lemma FourthIsCarried(c: Curve, k: int, p: Point, q: Point)
    requires c.p > 1 && IsPrime(c.p) && IsFinite(c, q) && OnCurve(c, p) && OnCurve(c, q) && Carries(c, k, p, q)
    ensures CarriesAll(c.p, k, p, q)
  {
    ScaledRelation(c.p, k, p);
    FourthFollows(c.p, k * p.x, k * p.y, k * p.z, k * p.t, q.x, q.y, q.z, q.t);
  }

  lemma CarriedProduct(m: int, k: int, l: int, a: int, a': int, b: int, b': int)
    requires Cong(m, k * a, a') && Cong(m, l * b, b')
    ensures Cong(m, (k * l) * (a * b), a' * b')
  {
    CongRing(m, k * a, a', l * b, b');
    assert (k * a) * (l * b) == (k * l) * (a * b);
  }

  lemma CarriedSum(m: int, n: int, x: int, x': int, y: int, y': int, d: int)
    requires Cong(m, n * x, x') && Cong(m, n * y, y')
    ensures Cong(m, n * (x + d * y), x' + d * y')
  {
    CongScale(m, d, n * y, y');
    CongRing(m, n * x, x', d * (n * y), d * y');
    assert n * (x + d * y) == n * x + d * (n * y);
  }

  /** A sum of two products, each of one coordinate of either point, is carried by the product. */
  lemma CarriedProducts(m: int, k: int, l: int, a: int, a': int, b: int, b': int, u: int, u': int, v: int, v': int)
    requires Cong(m, k * a, a') && Cong(m, l * b, b') && Cong(m, k * u, u') && Cong(m, l * v, v')
    ensures Cong(m, (k * l) * (a * b + u * v), a' * b' + u' * v')
  {
    CarriedProduct(m, k, l, a, a', b, b');
    CarriedProduct(m, k, l, u, u', v, v');
    CarriedSum(m, k * l, a * b, a' * b', u * v, u' * v', 1);
  }

  /** So are a sum and a difference with one of them scaled. */
  lemma CarriedShifts(m: int, k: int, l: int, a: int, a': int, b: int, b': int, u: int, u': int, v: int, v': int, d: int)
    requires Cong(m, k * a, a') && Cong(m, l * b, b') && Cong(m, k * u, u') && Cong(m, l * v, v')
    ensures Cong(m, (k * l) * (a * b + d * (u * v)), a' * b' + d * (u' * v'))
    ensures Cong(m, (k * l) * (a * b - d * (u * v)), a' * b' - d * (u' * v'))
  {
    CarriedProduct(m, k, l, a, a', b, b');
    CarriedProduct(m, k, l, u, u', v, v');
    CarriedSum(m, k * l, a * b, a' * b', u * v, u' * v', d);
    CarriedSum(m, k * l, a * b, a' * b', u * v, u' * v', -d);
    MinusTimes(d, u * v);
    MinusTimes(d, u' * v');
  }

  lemma MinusTimes(d: int, x: int)
    ensures (-d) * x == -(d * x)
  {
  }

  lemma CarriedFactors(m: int, n: int, e: int, e': int, f: int, f': int)
    requires Cong(m, n * e, e') && Cong(m, n * f, f')
    ensures Cong(m, (n * n) * (4 * (e * f)), 4 * (e' * f'))
  {
    CongRing(m, n * e, e', n * f, f');
    CongScale(m, 4, (n * e) * (n * f), e' * f');
    assert 4 * ((n * e) * (n * f)) == (n * n) * (4 * (e * f));
  }

  lemma RawSumIsCarried(c: Curve, k: int, l: int, p: Point, p': Point, q: Point, q': Point)
    requires CarriesAll(c.p, k, p, p') && CarriesAll(c.p, l, q, q')
    ensures CarriesAll(c.p, (k * l) * (k * l), RawSum(c, p, q), RawSum(c, p', q'))
  {
    var m := c.p;
    CarriedProducts(m, k, l, p.x, p'.x, q.y, q'.y, p.y, p'.y, q.x, q'.x);
    CarriedProducts(m, k, l, p.y, p'.y, q.y, q'.y, p.x, p'.x, q.x, q'.x);
    CarriedShifts(m, k, l, p.z, p'.z, q.z, q'.z, p.t, p'.t, q.t, q'.t, c.d);
    CarriedRawSum(m, k * l, p.x * q.y + p.y * q.x, p'.x * q'.y + p'.y * q'.x,
                  p.z * q.z - c.d * (p.t * q.t), p'.z * q'.z - c.d * (p'.t * q'.t),
                  p.z * q.z + c.d * (p.t * q.t), p'.z * q'.z + c.d * (p'.t * q'.t),
                  p.y * q.y + p.x * q.x, p'.y * q'.y + p'.x * q'.x);
  }

  lemma CarriedRawSum(m: int, n: int, e: int, e': int, f: int, f': int, g: int, g': int, h: int, h': int)
    requires Cong(m, n * e, e') && Cong(m, n * f, f') && Cong(m, n * g, g') && Cong(m, n * h, h')
    ensures CarriesAll(m, n * n, Point(4 * (e * f), 4 * (g * h), 4 * (f * g), 4 * (e * h)),
                       Point(4 * (e' * f'), 4 * (g' * h'), 4 * (f' * g'), 4 * (e' * h')))
  {
    CarriedFactors(m, n, e, e', f, f');
    CarriedFactors(m, n, g, g', h, h');
    CarriedFactors(m, n, f, f', g, g');
    CarriedFactors(m, n, e, e', h, h');
  }

  // ---------- The sum never loses its affine coordinates ----------

  /** `d` is not a square, and the given root squares to minus one: what section 5.1 of RFC 8032 says of its constants. */
  ghost predicate IsComplete(c: Curve) {
    && c.p > 2 && IsPrime(c.p) && Cong(c.p, c.sqrtM1 * c.sqrtM1, -1)
    && forall s {:trigger Times(s, s)} :: !Cong(c.p, Times(s, s), c.d)
  }

  /** A finite point of the curve. */
  ghost predicate IsPoint(c: Curve, p: Point) {
    OnCurve(c, p) && IsFinite(c, p)
  }

  /** The square of y + ix, where ii = -1, on a curve point: zz + dtt + 2izt. */
  lemma SquareOfTilted(m: int, d: int, i: int, p: Point)
    requires m > 0 && OnCurve(Constants(m, d, 0), p) && Cong(m, i * i, -1)
    ensures Cong(m, (p.y + i * p.x) * (p.y + i * p.x), p.z * p.z + d * (p.t * p.t) + 2 * i * (p.z * p.t))
  {
    var x, y, zt := p.x, p.y, p.z * p.t;
    SquareOfShift(i, y, x);
    CongScale(m, x * x, i * i, -1);
    assert i * i * (x * x) == x * x * (i * i);
    CongRefl(m, y * y);
    CongRing(m, y * y, y * y, i * i * (x * x), x * x * (-1));
    CongTrans(m, y * y + i * i * (x * x), y * y - x * x, p.z * p.z + d * (p.t * p.t));
    CongScale(m, 2 * i, x * y, zt);
    assert x * y == y * x;
    CongRing(m, y * y + i * i * (x * x), p.z * p.z + d * (p.t * p.t), 2 * i * (y * x), 2 * i * zt);
  }

  /**
   If the denominators of a sum vanished, d would be a quotient of two squares: with zw = e dts for a sign e, the square of
   w(y + eix) is d times the square of t(y' + ix').
   */
  lemma VanishingMakesSquares(m: int, d: int, i: int, e: int, p: Point, q: Point)
    requires m > 0 && OnCurve(Constants(m, d, 0), p) && OnCurve(Constants(m, d, 0), q) && Cong(m, i * i, -1)
    requires e * e == 1 && Cong(m, p.z * q.z, e * (d * (p.t * q.t)))
    ensures var r, s := q.z * (p.y + e * i * p.x), p.t * (q.y + i * q.x);
            Cong(m, r * r, d * (s * s))
  {
    var u, v, w, x := p.z, p.t, q.z, q.t;
    assert (e * i) * (e * i) == (e * e) * (i * i);
    SquareOfTilted(m, d, e * i, p);
    SquareOfTilted(m, d, i, q);
    ScaledSquare(m, w, p.y + e * i * p.x, u * u + d * (v * v) + 2 * (e * i) * (u * v));
    ScaledSquare(m, v, q.y + i * q.x, w * w + d * (x * x) + 2 * i * (w * x));
    var right := v * (q.y + i * q.x);
    CongScale(m, d, right * right, (v * v) * (w * w + d * (x * x) + 2 * i * (w * x)));
    BothSides(m, d, i, e, u, v, w, x);
    CongSym(m, d * (right * right), d * ((v * v) * (w * w + d * (x * x) + 2 * i * (w * x))));
    var left := w * (p.y + e * i * p.x);
    CongTrans(m, left * left, (w * w) * (u * u + d * (v * v) + 2 * (e * i) * (u * v)),
              d * ((v * v) * (w * w + d * (x * x) + 2 * i * (w * x))));
    CongTrans(m, left * left, d * ((v * v) * (w * w + d * (x * x) + 2 * i * (w * x))), d * (right * right));
  }

  lemma ScaledSquare(m: int, k: int, a: int, b: int)
    requires Cong(m, a * a, b)
    ensures Cong(m, (k * a) * (k * a), (k * k) * b)
  {
    CongScale(m, k * k, a * a, b);
    assert (k * a) * (k * a) == (k * k) * (a * a);
  }

  /** Both sides are dvvww + (uw)^2 + 2ivw(euw), once uw replaces edvx. */
  lemma BothSides(m: int, d: int, i: int, e: int, u: int, v: int, w: int, x: int)
    requires e * e == 1 && Cong(m, u * w, e * (d * (v * x)))
    ensures Cong(m, (w * w) * (u * u + d * (v * v) + 2 * (e * i) * (u * v)),
                    d * ((v * v) * (w * w + d * (x * x) + 2 * i * (w * x))))
  {
    var a, b := u * w, d * (v * x);
    // a = eb, so ea = b
    SignMoves(m, e, a, b);
    CongSquare(m, e * a, b);
    assert (e * a) * (e * a) == a * a by { assert (e * a) * (e * a) == (e * e) * (a * a); }
    CongScale(m, 2 * i * (v * w), e * a, b);
    CongRing(m, a * a, b * b, 2 * i * (v * w) * (e * a), 2 * i * (v * w) * b);
    CongRefl(m, d * (v * v) * (w * w));
    CongRing(m, d * (v * v) * (w * w), d * (v * v) * (w * w), a * a + 2 * i * (v * w) * (e * a), b * b + 2 * i * (v * w) * b);
    LeftExpands(d, i, e, u, v, w);
    RightExpands(d, i, v, w, x);
  }

  lemma SignMoves(m: int, e: int, a: int, b: int)
    requires e * e == 1 && Cong(m, a, e * b)
    ensures Cong(m, e * a, b)
  {
    CongScale(m, e, a, e * b);
    assert e * (e * b) == (e * e) * b;
  }

  lemma LeftExpands(d: int, i: int, e: int, u: int, v: int, w: int)
    ensures (w * w) * (u * u + d * (v * v) + 2 * (e * i) * (u * v))
         == d * (v * v) * (w * w) + ((u * w) * (u * w) + 2 * i * (v * w) * (e * (u * w)))
  {
    assert (w * w) * (u * u + d * (v * v) + 2 * (e * i) * (u * v))
        == (w * w) * (u * u) + (w * w) * (d * (v * v)) + (w * w) * (2 * (e * i) * (u * v));
    assert (w * w) * (u * u) == (u * w) * (u * w);
    assert (w * w) * (d * (v * v)) == d * (v * v) * (w * w);
    assert (w * w) * (2 * (e * i) * (u * v)) == 2 * i * (v * w) * (e * (u * w)) by {
      assert (w * w) * (u * v) == (v * w) * (u * w);
      assert (w * w) * (2 * (e * i) * (u * v)) == 2 * (e * i) * ((w * w) * (u * v));
      assert 2 * (e * i) * ((v * w) * (u * w)) == 2 * i * (v * w) * (e * (u * w));
    }
  }

  lemma RightExpands(d: int, i: int, v: int, w: int, x: int)
    ensures d * ((v * v) * (w * w + d * (x * x) + 2 * i * (w * x)))
         == d * (v * v) * (w * w) + ((d * (v * x)) * (d * (v * x)) + 2 * i * (v * w) * (d * (v * x)))
  {
    assert (v * v) * (w * w + d * (x * x) + 2 * i * (w * x))
        == (v * v) * (w * w) + (v * v) * (d * (x * x)) + (v * v) * (2 * i * (w * x));
    assert (v * v) * (d * (x * x)) == d * ((v * x) * (v * x));
    assert (v * v) * (2 * i * (w * x)) == 2 * i * (v * w) * (v * x) by {
      assert (v * v) * (w * x) == (v * w) * (v * x);
      assert (v * v) * (2 * i * (w * x)) == 2 * i * ((v * v) * (w * x));
      assert 2 * i * ((v * w) * (v * x)) == 2 * i * (v * w) * (v * x);
    }
    var n, a, b := v * x, (v * v) * (w * w), 2 * i * (v * w);
    assert d * (a + d * (n * n) + b * n) == d * a + d * (d * (n * n)) + d * (b * n);
    assert d * (d * (n * n)) == (d * n) * (d * n);
    assert d * (b * n) == b * (d * n);
    assert d * a == d * (v * v) * (w * w);
  }

  /** Not both tilts of a point with a fourth coordinate vanish. */
  lemma SomeTiltStands(c: Curve, i: int, q: Point)
    requires IsComplete(c) && IsPoint(c, q) && q.t % c.p != 0
    ensures (q.y + i * q.x) % c.p != 0 || (q.y + (-i) * q.x) % c.p != 0
  {
    var m := c.p;
    if (q.y + i * q.x) % m == 0 && (q.y + (-i) * q.x) % m == 0 {
      CongIffDifference(m, q.y + i * q.x, 0);
      CongIffDifference(m, q.y + (-i) * q.x, 0);
      CongRing(m, q.y + i * q.x, 0, q.y + (-i) * q.x, 0);
      assert q.y + i * q.x + (q.y + (-i) * q.x) == 2 * q.y by { assert (-i) * q.x == -(i * q.x); }
      CongVanishes(m, 2 * q.y, 0);
      SmallMod(m, 2);
      PrimeDivides(m, 2, q.y);
      ZeroTimes(m, q.y, q.x);
      CongVanishes(m, q.x * q.y, q.z * q.t);
      NonZeroProduct(m, q.z, q.t);
    }
  }

  /** A quotient of squares is a square. */
  lemma QuotientOfSquares(m: int, d: int, r: int, s: int)
    requires m > 1 && IsPrime(m) && s % m != 0 && Cong(m, r * r, d * (s * s))
    ensures exists x {:trigger Times(x, x)} :: Cong(m, Times(x, x), d)
  {
    var w := Inverse(m, s);
    CongScale(m, w * w, r * r, d * (s * s));
    assert (w * w) * (r * r) == (r * w) * (r * w);
    assert (w * w) * (d * (s * s)) == d * ((s * w) * (s * w));
    CongSquare(m, s * w, 1);
    CongScale(m, d, (s * w) * (s * w), 1 * 1);
    CongTrans(m, (r * w) * (r * w), d * ((s * w) * (s * w)), d * (1 * 1));
    assert Cong(m, Times(r * w, r * w), d);
  }

  lemma FactorsStand(m: int, e: int, d: int, t1: int, t2: int)
    requires m > 0 && e * (d * (t1 * t2)) % m != 0
    ensures t1 % m != 0 && t2 % m != 0
  {
    if t1 % m == 0 { ZeroTimes(m, t1, t2); }
    if t2 % m == 0 { ZeroTimes(m, t2, t1); }
    if t1 * t2 % m == 0 {
      ZeroTimes(m, t1 * t2, d);
      ZeroTimes(m, d * (t1 * t2), e);
    }
  }

  /** The denominators z1z2 - dt1t2 and z1z2 + dt1t2 of a sum never vanish. */
  lemma DenominatorStands(c: Curve, e: int, p: Point, q: Point)
    requires IsComplete(c) && IsPoint(c, p) && IsPoint(c, q) && e * e == 1
    ensures !Cong(c.p, p.z * q.z, e * (c.d * (p.t * q.t)))
  {
    var m := c.p;
    if Cong(m, p.z * q.z, e * (c.d * (p.t * q.t))) {
      NonZeroProduct(m, p.z, q.z);
      CongVanishes(m, p.z * q.z, e * (c.d * (p.t * q.t)));
      FactorsStand(m, e, c.d, p.t, q.t);
      SomeTiltStands(c, c.sqrtM1, q);
      var i := if (q.y + c.sqrtM1 * q.x) % m != 0 then c.sqrtM1 else -c.sqrtM1;
      assert i * i == c.sqrtM1 * c.sqrtM1;
      VanishingMakesSquares(m, c.d, i, e, p, q);
      NonZeroProduct(m, p.t, q.y + i * q.x);
      QuotientOfSquares(m, c.d, q.z * (p.y + e * i * p.x), p.t * (q.y + i * q.x));
    }
  }

  lemma FourTimes(m: int, f: int, g: int)
    requires m > 2 && IsPrime(m) && f % m != 0 && g % m != 0
    ensures 4 * (f * g) % m != 0
  {
    SmallMod(m, 2);
    NonZeroProduct(m, 2, 2);
    NonZeroProduct(m, f, g);
    NonZeroProduct(m, 4, f * g);
  }

  /** Addition is complete: the sum of two finite points of the curve is one, whichever they are. */
  lemma AdditionIsComplete(c: Curve, p: Point, q: Point)
    requires IsComplete(c) && IsPoint(c, p) && IsPoint(c, q)
    ensures IsPoint(c, Add(c, p, q)) && IsPoint(c, RawSum(c, p, q))
  {
    var m, t := c.p, c.d * (p.t * q.t);
    AddOnCurve(c, p, q);
    RawSumOnCurve(c, p, q);
    DenominatorStands(c, 1, p, q);
    DenominatorStands(c, -1, p, q);
    CongIffDifference(m, p.z * q.z, 1 * t);
    CongIffDifference(m, p.z * q.z, -1 * t);
    FourTimes(m, p.z * q.z - t, p.z * q.z + t);
    AddIsRawSum(c, p, q);
    CongVanishes(m, RawSum(c, p, q).z, Add(c, p, q).z);
  }

  // ---------- The laws of addition ----------

  lemma ResiduesAreCarried(c: Curve, r: Point, s: Point)
    requires c.p > 1 && Cong(c.p, r.x, s.x) && Cong(c.p, r.y, s.y) && Cong(c.p, r.z, s.z)
    ensures Carries(c, 1, r, s)
  {
    SmallMod(c.p, 1);
  }

  lemma CarryingComposes(c: Curve, k: int, l: int, p: Point, q: Point, r: Point)
    requires c.p > 1 && IsPrime(c.p) && Carries(c, k, p, q) && Carries(c, l, q, r)
    ensures Carries(c, l * k, p, r)
  {
    NonZeroProduct(c.p, l, k);
    CarryTwice(c.p, k, l, p.x, q.x, r.x);
    CarryTwice(c.p, k, l, p.y, q.y, r.y);
    CarryTwice(c.p, k, l, p.z, q.z, r.z);
  }

  lemma CarryTwice(m: int, k: int, l: int, x: int, y: int, z: int)
    requires Cong(m, k * x, y) && Cong(m, l * y, z)
    ensures Cong(m, (l * k) * x, z)
  {
    CongScale(m, l, k * x, y);
    assert l * (k * x) == (l * k) * x;
    CongTrans(m, (l * k) * x, l * y, z);
  }

  lemma SumIsRaw(c: Curve, p: Point, q: Point)
    requires c.p > 1
    ensures Equal(c, RawSum(c, p, q), Add(c, p, q))
  {
    AddIsRawSum(c, p, q);
    ResiduesAreCarried(c, RawSum(c, p, q), Add(c, p, q));
    CarriedIsEqual(c, 1, RawSum(c, p, q), Add(c, p, q));
  }

  /** Equal points have equal sums, in either argument. */
  lemma AddRespectsEqual(c: Curve, p: Point, p': Point, q: Point, q': Point)
    requires IsComplete(c) && IsPoint(c, p) && IsPoint(c, p') && IsPoint(c, q) && IsPoint(c, q')
    requires Equal(c, p, p') && Equal(c, q, q')
    ensures Equal(c, Add(c, p, q), Add(c, p', q'))
  {
    var k := EqualIsCarried(c, p, p');
    var l := EqualIsCarried(c, q, q');
    FourthIsCarried(c, k, p, p');
    FourthIsCarried(c, l, q, q');
    RawSumIsCarried(c, k, l, p, p', q, q');
    NonZeroProduct(c.p, k, l);
    NonZeroProduct(c.p, k * l, k * l);
    var r, r' := RawSum(c, p, q), RawSum(c, p', q');
    CarriedIsEqual(c, (k * l) * (k * l), r, r');
    AdditionIsComplete(c, p, q);
    AdditionIsComplete(c, p', q');
    SumIsRaw(c, p, q);
    SumIsRaw(c, p', q');
    EqualIsAnEquivalence(c, r, Add(c, p, q), r);
    EqualIsAnEquivalence(c, Add(c, p, q), r, r');
    EqualIsAnEquivalence(c, Add(c, p, q), r', Add(c, p', q'));
  }

  /** Addition does not depend on the order of its arguments. */
  lemma AddCommutes(c: Curve, p: Point, q: Point)
    ensures Add(c, p, q) == Add(c, q, p)
  {
    assert (p.y - p.x) * (q.y - q.x) == (q.y - q.x) * (p.y - p.x);
    assert (p.y + p.x) * (q.y + q.x) == (q.y + q.x) * (p.y + p.x);
    assert 2 * p.t * q.t * c.d == 2 * q.t * p.t * c.d by { assert p.t * q.t == q.t * p.t; }
    assert 2 * p.z * q.z == 2 * q.z * p.z by { assert p.z * q.z == q.z * p.z; }
  }

  lemma RawSumWithNeutral(c: Curve, p: Point)
    ensures var r, k := RawSum(c, p, NEUTRAL), 4 * p.z; r.x == k * p.x && r.y == k * p.y && r.z == k * p.z
  {
  }

  lemma NeutralCarries(c: Curve, p: Point)
    requires c.p > 2 && IsPrime(c.p) && IsPoint(c, p)
    ensures Equal(c, p, RawSum(c, p, NEUTRAL)) && IsFinite(c, RawSum(c, p, NEUTRAL))
  {
    var r, k := RawSum(c, p, NEUTRAL), 4 * p.z;
    RawSumWithNeutral(c, p);
    SmallMod(c.p, 2);
    NonZeroProduct(c.p, 2, 2);
    NonZeroProduct(c.p, 4, p.z);
    NonZeroProduct(c.p, k, p.z);
    CongRefl(c.p, k * p.x);
    CongRefl(c.p, k * p.y);
    CongRefl(c.p, k * p.z);
    CarriedIsEqual(c, k, p, r);
  }

  /** The neutral point is neutral. */
  lemma NeutralIsNeutral(c: Curve, p: Point)
    requires c.p > 2 && IsPrime(c.p) && IsPoint(c, p)
    ensures Equal(c, Add(c, p, NEUTRAL), p) && Equal(c, Add(c, NEUTRAL, p), p)
  {
    var r, sum := RawSum(c, p, NEUTRAL), Add(c, p, NEUTRAL);
    NeutralCarries(c, p);
    SumIsRaw(c, p, NEUTRAL);
    EqualIsAnEquivalence(c, p, r, sum);
    AddIsRawSum(c, p, NEUTRAL);
    CongVanishes(c.p, r.z, sum.z);
    EqualIsAnEquivalence(c, p, sum, p);
    AddCommutes(c, p, NEUTRAL);
  }

  lemma RawSumIsTheLaw(c: Curve, p: Point, q: Point)
    ensures var r := RawSum(c, p, q);
            && r.x * (p.z * q.z + c.d * (p.t * q.t)) == r.z * (p.x * q.y + p.y * q.x)
            && r.y * (p.z * q.z - c.d * (p.t * q.t)) == r.z * (p.y * q.y + p.x * q.x)
  {
    var e, h := p.x * q.y + p.y * q.x, p.y * q.y + p.x * q.x;
    var f, g := p.z * q.z - c.d * (p.t * q.t), p.z * q.z + c.d * (p.t * q.t);
    FourFactors(e, f, g);
    FourFactors(h, g, f);
    assert f * g == g * f;
  }

  lemma FourFactors(e: int, f: int, g: int)
    ensures 4 * (e * f) * g == 4 * (f * g) * e && 4 * (f * e) * g == 4 * (f * g) * e
  {
    assert (e * f) * g == (f * g) * e;
  }

  /**
   The Edwards addition law in extended coordinates: in affine ones it says x(1 + dx1x2y1y2) = x1y2 + y1x2 and
   y(1 - dx1x2y1y2) = y1y2 + x1x2.
   */
  lemma AddIsTheEdwardsLaw(c: Curve, p: Point, q: Point)
    ensures var s := Add(c, p, q);
            && Cong(c.p, s.x * (p.z * q.z + c.d * (p.t * q.t)), s.z * (p.x * q.y + p.y * q.x))
            && Cong(c.p, s.y * (p.z * q.z - c.d * (p.t * q.t)), s.z * (p.y * q.y + p.x * q.x))
  {
    var r, s := RawSum(c, p, q), Add(c, p, q);
    AddIsRawSum(c, p, q);
    RawSumIsTheLaw(c, p, q);
    SameQuotient(c.p, r.x, r.z, s.x, s.z, p.z * q.z + c.d * (p.t * q.t), p.x * q.y + p.y * q.x);
    SameQuotient(c.p, r.y, r.z, s.y, s.z, p.z * q.z - c.d * (p.t * q.t), p.y * q.y + p.x * q.x);
  }

  lemma SameQuotient(m: int, x: int, z: int, x': int, z': int, g: int, e: int)
    requires Cong(m, x, x') && Cong(m, z, z') && x * g == z * e
    ensures Cong(m, x' * g, z' * e)
  {
    CongRefl(m, g);
    CongRefl(m, e);
    CongRing(m, x, x', g, g);
    CongRing(m, z, z', e, e);
    CongSym(m, x * g, x' * g);
    CongTrans(m, x' * g, x * g, z' * e);
  }

  // ---------- Scalar multiplication ----------

  ghost function Points(c: Curve): iset<Point> {
    iset p | IsPoint(c, p)
  }

  ghost function Sum(c: Curve): (Point, Point) -> Point {
    (a, b) => Add(c, a, b)
  }

  ghost function Equality(c: Curve): (Point, Point) -> bool {
    (a, b) => Equal(c, a, b)
  }

  lemma PointsAreClosed(c: Curve)
    requires IsComplete(c)
    ensures IsClosed(Sum(c), Points(c))
  {
    forall p, q | p in Points(c) && q in Points(c) ensures Sum(c)(p, q) in Points(c) {
      AdditionIsComplete(c, p, q);
    }
  }

  lemma PointsHaveNeutral(c: Curve)
    requires IsComplete(c)
    ensures HasNeutral(Sum(c), Equality(c), NEUTRAL, Points(c))
  {
    forall p | p in Points(c)
      ensures Equality(c)(p, p) && Equality(c)(Sum(c)(NEUTRAL, p), p) && Equality(c)(Sum(c)(p, NEUTRAL), p)
    {
      EqualIsAnEquivalence(c, p, p, p);
      NeutralIsNeutral(c, p);
    }
  }

  lemma EqualityIsEquivalence(c: Curve)
    requires IsComplete(c)
    ensures IsEquivalence(Equality(c), Points(c))
  {
    forall p, q | p in Points(c) && q in Points(c) && Equality(c)(p, q) ensures Equality(c)(q, p) {
      EqualIsAnEquivalence(c, p, q, p);
    }
    forall p, q, r | p in Points(c) && q in Points(c) && r in Points(c) && Equality(c)(p, q) && Equality(c)(q, r)
      ensures Equality(c)(p, r)
    {
      EqualIsAnEquivalence(c, p, q, r);
    }
  }

  lemma SumRespectsEquality(c: Curve)
    requires IsComplete(c)
    ensures IsRespected(Sum(c), Equality(c), Points(c))
  {
    forall p, q, r | p in Points(c) && q in Points(c) && r in Points(c) && Equality(c)(p, q)
      ensures Equality(c)(Sum(c)(p, r), Sum(c)(q, r)) && Equality(c)(Sum(c)(r, p), Sum(c)(r, q))
    {
      EqualIsAnEquivalence(c, r, r, r);
      AddRespectsEqual(c, p, q, r, r);
      AddRespectsEqual(c, r, r, p, q);
    }
  }

  /** Where d is not a square, double-and-add is repeated addition, given only that addition associates. */
  lemma MulIsRepeatedAdditionOnCurve(c: Curve, s: nat, p: Point)
    requires IsComplete(c) && IsAssociative(Sum(c), Equality(c), Points(c)) && IsPoint(c, p)
    ensures Equal(c, Multiple(c, NEUTRAL, s, p), Fold(Sum(c), NEUTRAL, s, p))
  {
    NeutralOnCurve(c);
    SmallMod(c.p, 1);
    PointsAreClosed(c);
    PointsHaveNeutral(c);
    EqualityIsEquivalence(c);
    SumRespectsEquality(c);
    DoublingIsRepetition(Sum(c), Equality(c), NEUTRAL, Points(c), s, p);
  }
}
