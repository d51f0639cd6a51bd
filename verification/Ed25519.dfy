/**
 The group operations of Ed25519 (src/daily_agent/parakh/ed25519.py; section 5.1.4 of RFC 8032), over any modulus and
 curve constant: closure of the extended-coordinate addition, and double-and-add as repeated addition.
 */
module Ed25519 {
  import opened Congruence
  import opened Doubling

  /** Modulus, curve constant and the square root of minus one. */
  datatype Constants = Constants(p: int, d: int, sqrtM1: int)

  type Curve = c: Constants | c.p > 0 witness Constants(1, 0, 0)

  datatype Point = Point(x: int, y: int, z: int, t: int)

  const NEUTRAL := Point(0, 1, 1, 0)

  function Add(c: Curve, p: Point, q: Point): Point
  {
    var a := (p.y - p.x) * (q.y - q.x) % c.p;
    var b := (p.y + p.x) * (q.y + q.x) % c.p;
    var k := 2 * p.t * q.t * c.d % c.p;
    var d := 2 * p.z * q.z % c.p;
    var e, f, g, h := b - a, d - k, d + k, b + a;
    Point(e * f % c.p, g * h % c.p, f * g % c.p, e * h % c.p)
  }

  /** Projective equality: the two points have the same affine coordinates. */
  predicate Equal(c: Curve, p: Point, q: Point)
  {
    (p.x * q.z - q.x * p.z) % c.p == 0 && (p.y * q.z - q.y * p.z) % c.p == 0
  }

  /** The two relations of extended coordinates: XY = ZT, and the curve equation Y^2 - X^2 = Z^2 + dT^2. */
  ghost predicate OnCurve(c: Curve, p: Point) {
    && Cong(c.p, p.x * p.y, p.z * p.t)
    && Cong(c.p, p.y * p.y - p.x * p.x, p.z * p.z + c.d * (p.t * p.t))
  }

  // ---------- Closure ----------

  /** Only residues matter. */
  lemma OnCurveByResidues(c: Curve, p: Point, q: Point)
    requires OnCurve(c, p)
    requires Cong(c.p, p.x, q.x) && Cong(c.p, p.y, q.y) && Cong(c.p, p.z, q.z) && Cong(c.p, p.t, q.t)
    ensures OnCurve(c, q)
  {
    var m := c.p;
    CongRing(m, p.x, q.x, p.y, q.y);
    CongRing(m, p.z, q.z, p.t, q.t);
    CongSym(m, p.x * p.y, q.x * q.y);
    CongTrans(m, q.x * q.y, p.x * p.y, p.z * p.t);
    CongTrans(m, q.x * q.y, p.z * p.t, q.z * q.t);
    CongSquare(m, p.x, q.x);
    CongSquare(m, p.y, q.y);
    CongSquare(m, p.z, q.z);
    CongSquare(m, p.t, q.t);
    CongRing(m, p.y * p.y, q.y * q.y, p.x * p.x, q.x * q.x);
    CongScale(m, c.d, p.t * p.t, q.t * q.t);
    CongRing(m, p.z * p.z, q.z * q.z, c.d * (p.t * p.t), c.d * (q.t * q.t));
    CongSym(m, p.y * p.y - p.x * p.x, q.y * q.y - q.x * q.x);
    CongTrans(m, q.y * q.y - q.x * q.x, p.y * p.y - p.x * p.x, p.z * p.z + c.d * (p.t * p.t));
    CongTrans(m, q.y * q.y - q.x * q.x, p.z * p.z + c.d * (p.t * p.t), q.z * q.z + c.d * (q.t * q.t));
  }

  /**
   The squares behind the sum. With a, b, u, v the squares of X, Y, Z, T of the first point and c, q, s, w those of the
   second, the curve equations and the relations uv = ab, sw = cq turn S*Q into the mixed products.
   */
  lemma MixedProducts(m: int, d: int, a: int, b: int, u: int, v: int, c: int, q: int, s: int, w: int)
    requires Cong(m, u * v, a * b) && Cong(m, s * w, c * q)
    requires Cong(m, b - a, u + d * v) && Cong(m, q - c, s + d * w)
    ensures Cong(m, (u * s + d * d * (v * w)) * (u * w + v * s) + 4 * (1 + d) * (a * b * (c * q)),
                    (b * q + a * c) * (a * q + b * c))
  {
    var U, V := u * u + d * d * (v * v), s * s + d * d * (w * w);
    // SQ = (sw)U + (uv)V
    ProductOfSums(u, v, s, w, d * d);
    // aa + bb = (b - a)^2 + 2ab = U + 2(1 + d)ab, and likewise for the second point
    SquareSum(m, d, a, b, u, v);
    SquareSum(m, d, c, q, s, w);
    CrossProduct(a, b, c, q);
    Regroup(a * b, c * q, U, V, d);
    WeightedSums(m, s * w, c * q, u * v, a * b, U, V, a * a + b * b, c * c + q * q,
                 U + 2 * (1 + d) * (a * b), V + 2 * (1 + d) * (c * q), 4 * (1 + d) * (a * b * (c * q)));
  }

  /** Weighted sums of congruent weights and values. */
  lemma WeightedSums(m: int, x: int, x': int, y: int, y': int, U: int, V: int, A: int, B: int, A': int, B': int, N: int)
    requires Cong(m, x, x') && Cong(m, y, y') && Cong(m, A, A') && Cong(m, B, B')
    requires x' * A' + y' * B' == x' * U + y' * V + N
    ensures Cong(m, x * U + y * V + N, x' * A + y' * B)
  {
    CongRefl(m, U);
    CongRefl(m, V);
    CongRing(m, x, x', U, U);
    CongRing(m, y, y', V, V);
    CongRing(m, x * U, x' * U, y * V, y' * V);
    CongRefl(m, N);
    CongRing(m, x * U + y * V, x' * U + y' * V, N, N);
    CongScale(m, x', A, A');
    CongScale(m, y', B, B');
    CongRing(m, x' * A, x' * A', y' * B, y' * B');
    CongSym(m, x' * A + y' * B, x' * A' + y' * B');
    CongTrans(m, x * U + y * V + N, x' * U + y' * V + N, x' * A + y' * B);
  }

  lemma ProductOfSums(u: int, v: int, s: int, w: int, e: int)
    ensures (u * s + e * (v * w)) * (u * w + v * s) == (s * w) * (u * u + e * (v * v)) + (u * v) * (s * s + e * (w * w))
  {
    FourProducts(u * s, v * w, u * w, v * s, e);
    Interchange(u, s, w);
    Interchange(s, u, v);
    Interchange(w, v, u);
    Interchange(v, w, s);
    Distribute2(s * w, u * u, v * v, e);
    Distribute2(u * v, s * s, w * w, e);
  }

  lemma FourProducts(A: int, B: int, C: int, D: int, e: int)
    ensures (A + e * B) * (C + D) == A * C + A * D + e * (B * C) + e * (B * D)
  {
    assert (e * B) * C == e * (B * C) && (e * B) * D == e * (B * D);
  }

  /** (xy)(xz) = (yz)(xx), however the factors are written. */
  lemma Interchange(x: int, y: int, z: int)
    ensures (x * y) * (x * z) == (y * z) * (x * x) && (y * x) * (x * z) == (y * z) * (x * x)
    ensures (x * y) * (z * x) == (y * z) * (x * x) && (y * x) * (z * x) == (y * z) * (x * x)
    ensures (x * y) * (x * z) == (z * y) * (x * x) && (y * x) * (x * z) == (z * y) * (x * x)
    ensures (x * y) * (z * x) == (z * y) * (x * x) && (y * x) * (z * x) == (z * y) * (x * x)
  {
  }

  lemma Distribute2(x: int, y: int, z: int, e: int)
    ensures x * (y + e * z) == x * y + e * (x * z)
  {
    assert x * (e * z) == e * (x * z);
  }

  lemma CrossProduct(a: int, b: int, c: int, q: int)
    ensures (b * q + a * c) * (a * q + b * c) == (c * q) * (a * a + b * b) + (a * b) * (c * c + q * q)
  {
  }

  lemma Regroup(x: int, y: int, U: int, V: int, d: int)
    ensures y * (U + 2 * (1 + d) * x) + x * (V + 2 * (1 + d) * y) == y * U + x * V + 4 * (1 + d) * (x * y)
  {
  }

  lemma SquareOfSum(x: int, y: int)
    ensures (x + y) * (x + y) == x * x + y * y + 2 * (x * y)
    ensures (x - y) * (x - y) == x * x + y * y - 2 * (x * y)
  {
  }

  lemma SquareOfShift(d: int, u: int, v: int)
    ensures (u + d * v) * (u + d * v) == u * u + d * d * (v * v) + 2 * d * (u * v)
  {
    SquareOfSum(u, d * v);
    assert (d * v) * (d * v) == d * d * (v * v);
    assert u * (d * v) == d * (u * v);
  }

  /** Replace one term of a congruence and add another to both sides. */
  lemma ReplaceTerm(m: int, n: int, U: int, e: int, f: int, g: int)
    requires Cong(m, n, U + e) && Cong(m, e, f)
    ensures Cong(m, n + g, U + f + g)
  {
    CongRefl(m, U);
    CongRing(m, U, U, e, f);
    CongTrans(m, n, U + e, U + f);
    CongRefl(m, g);
    CongRing(m, n, U + f, g, g);
  }

  lemma SquareSum(m: int, d: int, a: int, b: int, u: int, v: int)
    requires Cong(m, u * v, a * b) && Cong(m, b - a, u + d * v)
    ensures Cong(m, a * a + b * b, u * u + d * d * (v * v) + 2 * (1 + d) * (a * b))
  {
    CongSquare(m, b - a, u + d * v);
    CongScale(m, 2 * d, u * v, a * b);
    SquareOfShift(d, u, v);
    ReplaceTerm(m, (b - a) * (b - a), u * u + d * d * (v * v), 2 * d * (u * v), 2 * d * (a * b), 2 * (a * b));
    SumForms(d, a, b, u * u + d * d * (v * v));
  }

  lemma SumForms(d: int, a: int, b: int, U: int)
    ensures (b - a) * (b - a) + 2 * (a * b) == a * a + b * b
    ensures U + 2 * d * (a * b) + 2 * (a * b) == U + 2 * (1 + d) * (a * b)
  {
    SquareOfSum(b, a);
  }

  /** The curve equation of the sum, once the squares of its four factors are known up to congruence. */
  lemma SumEquation(m: int, d: int, S: int, W: int, a: int, b: int, c: int, q: int, Q: int)
    requires Cong(m, (b - a) * (q - c), S + d * Q)
    requires Cong(m, S * Q + 4 * (1 + d) * (W * W), (b * q + a * c) * (a * q + b * c))
    ensures var (e2, h2) := (a * q + b * c + 2 * W, b * q + a * c + 2 * W);
            var (f2, g2) := (S - 2 * d * W, S + 2 * d * W);
            Cong(m, g2 * h2 - e2 * f2, f2 * g2 + d * (e2 * h2))
  {
    var r := (b - a) * (q - c);
    var K := (b * q + a * c) * (a * q + b * c);
    CongScale(m, S, r, S + d * Q);
    CongScale(m, d, S * Q + 4 * (1 + d) * (W * W), K);
    ExpandedTerms(d, S, W, Q);
    RestIsZero(m, S * r, S * S, d * (S * Q), 4 * d * (1 + d) * (W * W), d * K);
    SumIdentity(d, S, W, a * q, b * c, b * q, a * c);
    assert r == b * q + a * c - a * q - b * c by { ProductOfDifferences(a, b, c, q); }
    var right := (S - 2 * d * W) * (S + 2 * d * W) + d * ((a * q + b * c + 2 * W) * (b * q + a * c + 2 * W));
    CongRefl(m, right);
    CongRing(m, right, right, S * r - S * S + 4 * d * (1 + d) * (W * W) - d * K, 0);
  }

  lemma ProductOfDifferences(a: int, b: int, c: int, q: int)
    ensures (b - a) * (q - c) == b * q + a * c - a * q - b * c
  {
  }

  lemma ExpandedTerms(d: int, S: int, W: int, Q: int)
    ensures S * (S + d * Q) == S * S + d * (S * Q)
    ensures d * (S * Q + 4 * (1 + d) * (W * W)) == d * (S * Q) + 4 * d * (1 + d) * (W * W)
  {
    assert S * (d * Q) == d * (S * Q);
    var w := W * W;
    assert d * (4 * (1 + d) * w) == 4 * d * (1 + d) * w;
  }

  lemma RestIsZero(m: int, x: int, ss: int, y: int, w: int, k: int)
    requires Cong(m, x, ss + y) && Cong(m, y + w, k)
    ensures Cong(m, x - ss + w - k, 0)
  {
    CongRefl(m, w - ss);
    CongRing(m, x, ss + y, w - ss, w - ss);
    CongTrans(m, x + (w - ss), y + w, k);
    CongRefl(m, k);
    CongRing(m, x + (w - ss), k, k, k);
  }

  lemma LeftForm(S: int, k: int, x: int, y: int, z: int)
    ensures (S + k) * (y + z) - (x + z) * (S - k) == S * y - S * x + k * y + k * x + 2 * (k * z)
  {
    assert (S + k) * (y + z) == S * y + S * z + k * y + k * z;
    assert (x + z) * (S - k) == x * S - x * k + z * S - z * k;
  }

  lemma RightForm(d: int, S: int, k: int, x: int, y: int, z: int)
    ensures (S - k) * (S + k) + d * ((x + z) * (y + z))
         == S * S - k * k + d * (x * y) + d * (x * z) + d * (z * y) + d * (z * z)
  {
    assert (S - k) * (S + k) == S * S - k * k;
    assert (x + z) * (y + z) == x * y + x * z + z * y + z * z;
  }

  lemma ScaledTerms(d: int, x: int, y: int, z: int)
    ensures (d * z) * y == d * (z * y) && (d * z) * x == d * (x * z) && (d * z) * z == d * (z * z)
    ensures (d * z) * (d * z) == d * d * (z * z)
  {
  }

  /** The polynomial identity behind closure, with x = A + B, y = C + D and z = 2W below. */
  lemma CoreIdentity(d: int, S: int, x: int, y: int, z: int)
    ensures (S + d * z) * (y + z) - (x + z) * (S - d * z)
         == (S - d * z) * (S + d * z) + d * ((x + z) * (y + z))
            + (S * y - S * x - S * S + d * (z * z) + d * d * (z * z) - d * (x * y))
  {
    var k := d * z;
    LeftForm(S, k, x, y, z);
    RightForm(d, S, k, x, y, z);
    ScaledTerms(d, x, y, z);
  }

  lemma SumIdentity(d: int, S: int, W: int, A: int, B: int, C: int, D: int)
    ensures (S + 2 * d * W) * (C + D + 2 * W) - (A + B + 2 * W) * (S - 2 * d * W)
         == (S - 2 * d * W) * (S + 2 * d * W) + d * ((A + B + 2 * W) * (C + D + 2 * W))
            + (S * (C + D - A - B) - S * S + 4 * d * (1 + d) * (W * W) - d * ((C + D) * (A + B)))
  {
    CoreIdentity(d, S, A + B, C + D, 2 * W);
    assert d * (2 * W) == 2 * d * W;
    DoubledSquare(d, W);
    assert S * (C + D - A - B) == S * (C + D) - S * (A + B);
    assert (A + B) * (C + D) == (C + D) * (A + B);
  }

  lemma DoubledSquare(d: int, W: int)
    ensures d * ((2 * W) * (2 * W)) + d * d * ((2 * W) * (2 * W)) == 4 * d * (1 + d) * (W * W)
  {
    var w := W * W;
    assert (2 * W) * (2 * W) == 4 * w;
    assert 4 * d * (1 + d) * w == 4 * (d * w) + 4 * (d * d * w);
  }

  // ---------- From points to squares ----------

  lemma SquareOfCross(x1: int, y1: int, x2: int, y2: int)
    ensures (x1 * y2 + y1 * x2) * (x1 * y2 + y1 * x2)
         == (x1 * x1) * (y2 * y2) + (y1 * y1) * (x2 * x2) + 2 * ((x1 * y1) * (x2 * y2))
  {
    SquareOfSum(x1 * y2, y1 * x2);
    SquareOfProduct(x1, y2);
    SquareOfProduct(y1, x2);
    assert (x1 * y2) * (y1 * x2) == (x1 * y1) * (x2 * y2);
  }

  lemma SquareOfProduct(x: int, y: int)
    ensures (x * y) * (x * y) == (x * x) * (y * y)
  {
  }

  /** The squares of z1z2 - d t1t2 and z1z2 + d t1t2. */
  lemma SquaresOfShift(d: int, z1: int, t1: int, z2: int, t2: int)
    ensures var S := (z1 * z1) * (z2 * z2) + d * d * ((t1 * t1) * (t2 * t2));
            var V := (z1 * t1) * (z2 * t2);
            && (z1 * z2 - d * (t1 * t2)) * (z1 * z2 - d * (t1 * t2)) == S - 2 * d * V
            && (z1 * z2 + d * (t1 * t2)) * (z1 * z2 + d * (t1 * t2)) == S + 2 * d * V
  {
    var A, B := z1 * z2, t1 * t2;
    SquareOfShift(d, A, B);
    SquareOfShift(-d, A, B);
    SquareOfProduct(z1, z2);
    SquareOfProduct(t1, t2);
    assert A * B == (z1 * t1) * (z2 * t2);
    assert (-d) * (-d) == d * d && (-d) * B == -(d * B) && 2 * (-d) * (A * B) == -(2 * d * (A * B));
  }

  lemma SquaredRelation(m: int, p: Point)
    requires Cong(m, p.x * p.y, p.z * p.t)
    ensures Cong(m, (p.z * p.z) * (p.t * p.t), (p.x * p.x) * (p.y * p.y))
  {
    CongSym(m, p.x * p.y, p.z * p.t);
    CongSquare(m, p.z * p.t, p.x * p.y);
    SquareOfProduct(p.z, p.t);
    SquareOfProduct(p.x, p.y);
  }

  /** The squared coordinates of two points on the curve satisfy the equation of the sum. */
  lemma SquaresSatisfySum(m: int, d: int, p: Point, q: Point)
    requires m > 0 && OnCurve(Constants(m, d, 0), p) && OnCurve(Constants(m, d, 0), q)
    ensures var S := (p.z * p.z) * (q.z * q.z) + d * d * ((p.t * p.t) * (q.t * q.t));
            var W := (p.x * p.y) * (q.x * q.y);
            var e2 := (p.x * p.x) * (q.y * q.y) + (p.y * p.y) * (q.x * q.x) + 2 * W;
            var h2 := (p.y * p.y) * (q.y * q.y) + (p.x * p.x) * (q.x * q.x) + 2 * W;
            Cong(m, (S + 2 * d * W) * h2 - e2 * (S - 2 * d * W), (S - 2 * d * W) * (S + 2 * d * W) + d * (e2 * h2))
  {
    var a, b, u, v := p.x * p.x, p.y * p.y, p.z * p.z, p.t * p.t;
    var r, s, w, x := q.x * q.x, q.y * q.y, q.z * q.z, q.t * q.t;
    var S, W := u * w + d * d * (v * x), (p.x * p.y) * (q.x * q.y);
    SquaredRelation(m, p);
    SquaredRelation(m, q);
    MixedProducts(m, d, a, b, u, v, r, s, w, x);
    SquareOfFourfold(p.x, p.y, q.x, q.y);
    assert S * (u * x + v * w) + 4 * (1 + d) * (W * W) == S * (u * x + v * w) + 4 * (1 + d) * (a * b * (r * s));
    ProductOfEquationsCong(m, d, a, b, u, v, r, s, w, x);
    SumEquation(m, d, S, W, a, b, r, s, u * x + v * w);
  }

  lemma SquareOfFourfold(x1: int, y1: int, x2: int, y2: int)
    ensures ((x1 * y1) * (x2 * y2)) * ((x1 * y1) * (x2 * y2)) == (x1 * x1) * (y1 * y1) * ((x2 * x2) * (y2 * y2))
  {
    SquareOfProduct(x1 * y1, x2 * y2);
    SquareOfProduct(x1, y1);
    SquareOfProduct(x2, y2);
  }

  lemma ProductOfEquationsCong(m: int, d: int, a: int, b: int, u: int, v: int, r: int, s: int, w: int, x: int)
    requires Cong(m, b - a, u + d * v) && Cong(m, s - r, w + d * x)
    ensures Cong(m, (b - a) * (s - r), u * w + d * d * (v * x) + d * (u * x + v * w))
  {
    CongRing(m, b - a, u + d * v, s - r, w + d * x);
    ProductOfEquations(d, u, v, w, x);
  }

  lemma CrossTerms(m: int, d: int, p: Point, q: Point)
    requires Cong(m, p.x * p.y, p.z * p.t) && Cong(m, q.x * q.y, q.z * q.t)
    ensures Cong(m, 2 * d * ((p.z * p.t) * (q.z * q.t)), 2 * d * ((p.x * p.y) * (q.x * q.y)))
  {
    CongSym(m, p.x * p.y, p.z * p.t);
    CongSym(m, q.x * q.y, q.z * q.t);
    CongRing(m, p.z * p.t, p.x * p.y, q.z * q.t, q.x * q.y);
    CongScale(m, 2 * d, (p.z * p.t) * (q.z * q.t), (p.x * p.y) * (q.x * q.y));
  }

  /** The four factors of a sum, halved and unreduced, satisfy the curve equation crosswise. */
  lemma CrossEquation(m: int, d: int, p: Point, q: Point, e: int, f: int, g: int, h: int)
    requires m > 0 && OnCurve(Constants(m, d, 0), p) && OnCurve(Constants(m, d, 0), q)
    requires e == p.x * q.y + p.y * q.x && h == p.y * q.y + p.x * q.x
    requires f == p.z * q.z - d * (p.t * q.t) && g == p.z * q.z + d * (p.t * q.t)
    ensures Cong(m, (g * g) * (h * h) - (e * e) * (f * f), (f * f) * (g * g) + d * ((e * e) * (h * h)))
  {
    var S := (p.z * p.z) * (q.z * q.z) + d * d * ((p.t * p.t) * (q.t * q.t));
    var V, W := (p.z * p.t) * (q.z * q.t), (p.x * p.y) * (q.x * q.y);
    var e2 := (p.x * p.x) * (q.y * q.y) + (p.y * p.y) * (q.x * q.x) + 2 * W;
    var h2 := (p.y * p.y) * (q.y * q.y) + (p.x * p.x) * (q.x * q.x) + 2 * W;
    SquaresSatisfySum(m, d, p, q);
    CrossTerms(m, d, p, q);
    SubstituteSquares(m, d, S, 2 * d * V, 2 * d * W, e2, h2);
    assert e * e == e2 by { SquareOfCross(p.x, p.y, q.x, q.y); }
    assert h * h == h2 by { SquareOfCross(p.y, p.x, q.x, q.y); assert (p.y * p.x) * (q.x * q.y) == W; }
    assert f * f == S - 2 * d * V && g * g == S + 2 * d * V by { SquaresOfShift(d, p.z, p.t, q.z, q.t); }
  }

  lemma ProductOfEquations(d: int, u: int, v: int, w: int, x: int)
    ensures (u + d * v) * (w + d * x) == u * w + d * d * (v * x) + d * (u * x + v * w)
  {
    assert (u + d * v) * (w + d * x) == u * w + u * (d * x) + (d * v) * w + (d * v) * (d * x);
    assert u * (d * x) == d * (u * x) && (d * v) * w == d * (v * w) && (d * v) * (d * x) == d * d * (v * x);
  }

  /** Replace the exact shift V' by the congruent W' in the equation of the sum. */
  lemma SubstituteSquares(m: int, d: int, S: int, V: int, W: int, e2: int, h2: int)
    requires Cong(m, V, W)
    requires Cong(m, (S + W) * h2 - e2 * (S - W), (S - W) * (S + W) + d * (e2 * h2))
    ensures Cong(m, (S + V) * h2 - e2 * (S - V), (S - V) * (S + V) + d * (e2 * h2))
  {
    CongRefl(m, S);
    CongRefl(m, e2);
    CongRefl(m, h2);
    CongRefl(m, d * (e2 * h2));
    CongRing(m, S, S, V, W);
    CongRing(m, S + V, S + W, h2, h2);
    CongRing(m, e2, e2, S - V, S - W);
    CongRing(m, (S + V) * h2, (S + W) * h2, e2 * (S - V), e2 * (S - W));
    CongRing(m, S - V, S - W, S + V, S + W);
    CongRing(m, (S - V) * (S + V), (S - W) * (S + W), d * (e2 * h2), d * (e2 * h2));
    var L, R := (S + W) * h2 - e2 * (S - W), (S - W) * (S + W) + d * (e2 * h2);
    CongTrans(m, (S + V) * h2 - e2 * (S - V), L, R);
    CongSym(m, (S - V) * (S + V) + d * (e2 * h2), R);
    CongTrans(m, (S + V) * h2 - e2 * (S - V), R, (S - V) * (S + V) + d * (e2 * h2));
  }

  // ---------- The sum itself ----------

  /** The unreduced sum, with its common factor of four. */
  function RawSum(c: Curve, p: Point, q: Point): Point {
    var e, h := p.x * q.y + p.y * q.x, p.y * q.y + p.x * q.x;
    var f, g := p.z * q.z - c.d * (p.t * q.t), p.z * q.z + c.d * (p.t * q.t);
    Point(4 * (e * f), 4 * (g * h), 4 * (f * g), 4 * (e * h))
  }

  lemma RawSumOnCurve(c: Curve, p: Point, q: Point)
    requires OnCurve(c, p) && OnCurve(c, q)
    ensures OnCurve(c, RawSum(c, p, q))
  {
    var e, h := p.x * q.y + p.y * q.x, p.y * q.y + p.x * q.x;
    var f, g := p.z * q.z - c.d * (p.t * q.t), p.z * q.z + c.d * (p.t * q.t);
    CrossEquation(c.p, c.d, p, q, e, f, g, h);
    CrossedPointOnCurve(c, e, f, g, h);
  }

  lemma CrossedPointOnCurve(c: Curve, e: int, f: int, g: int, h: int)
    requires Cong(c.p, (g * g) * (h * h) - (e * e) * (f * f), (f * f) * (g * g) + c.d * ((e * e) * (h * h)))
    ensures OnCurve(c, Point(4 * (e * f), 4 * (g * h), 4 * (f * g), 4 * (e * h)))
  {
    FourWays(e, f, g, h);
    CongRefl(c.p, (4 * (e * f)) * (4 * (g * h)));
    SixteenTimes(c.p, c.d, (g * g) * (h * h), (e * e) * (f * f), (f * f) * (g * g), (e * e) * (h * h));
    SquareOfFour(g, h);
    SquareOfFour(e, f);
    SquareOfFour(f, g);
    SquareOfFour(e, h);
  }

  lemma FourWays(e: int, f: int, g: int, h: int)
    ensures (4 * (e * f)) * (4 * (g * h)) == (4 * (f * g)) * (4 * (e * h))
  {
    assert (e * f) * (g * h) == (f * g) * (e * h);
  }

  lemma SixteenTimes(m: int, d: int, w: int, x: int, y: int, z: int)
    requires Cong(m, w - x, y + d * z)
    ensures Cong(m, 16 * w - 16 * x, 16 * y + d * (16 * z))
  {
    CongScale(m, 16, w - x, y + d * z);
    assert d * (16 * z) == 16 * (d * z);
  }

  lemma SquareOfFour(x: int, y: int)
    ensures (4 * (x * y)) * (4 * (x * y)) == 16 * ((x * x) * (y * y))
  {
    SquareOfProduct(x, y);
  }

  lemma CongProductMod(m: int, x: int, x': int, y: int, y': int)
    requires m > 0 && Cong(m, x, 2 * x') && Cong(m, y, 2 * y')
    ensures Cong(m, 4 * (x' * y'), x * y % m)
  {
    CongRing(m, x, 2 * x', y, 2 * y');
    assert (2 * x') * (2 * y') == 4 * (x' * y');
    CongMod(m, x * y);
    CongSym(m, x * y % m, x * y);
    CongSym(m, x * y, 4 * (x' * y'));
    CongTrans(m, 4 * (x' * y'), x * y, x * y % m);
  }

  /** A sum and a difference of two residues, seen modulo m. */
  lemma CongResidues(m: int, b: int, a: int, x: int, y: int)
    requires m > 0 && b - a == x && b + a == y
    ensures Cong(m, b % m - a % m, x) && Cong(m, b % m + a % m, y)
  {
    CongMod(m, a);
    CongMod(m, b);
    CongRing(m, b % m, b, a % m, a);
  }

  lemma CongFactors(m: int, a: int, b: int, k: int, d: int, e: int, f: int, g: int, h: int)
    requires m > 0 && b - a == 2 * e && b + a == 2 * h && d - k == 2 * f && d + k == 2 * g
    ensures Cong(m, 4 * (e * f), (b % m - a % m) * (d % m - k % m) % m)
    ensures Cong(m, 4 * (g * h), (d % m + k % m) * (b % m + a % m) % m)
    ensures Cong(m, 4 * (f * g), (d % m - k % m) * (d % m + k % m) % m)
    ensures Cong(m, 4 * (e * h), (b % m - a % m) * (b % m + a % m) % m)
  {
    CongResidues(m, b, a, 2 * e, 2 * h);
    CongResidues(m, d, k, 2 * f, 2 * g);
    var e', f', g', h' := b % m - a % m, d % m - k % m, d % m + k % m, b % m + a % m;
    CongProductMod(m, e', e, f', f);
    CongProductMod(m, g', g, h', h);
    CongProductMod(m, f', f, g', g);
    CongProductMod(m, e', e, h', h);
  }

  lemma AddIsRawSum(c: Curve, p: Point, q: Point)
    ensures var r, s := RawSum(c, p, q), Add(c, p, q);
            Cong(c.p, r.x, s.x) && Cong(c.p, r.y, s.y) && Cong(c.p, r.z, s.z) && Cong(c.p, r.t, s.t)
  {
    FactorForms(p.x, p.y, q.x, q.y);
    ShiftForms(c.d, p.z, p.t, q.z, q.t);
    CongFactors(c.p, (p.y - p.x) * (q.y - q.x), (p.y + p.x) * (q.y + q.x), 2 * p.t * q.t * c.d, 2 * p.z * q.z,
                p.x * q.y + p.y * q.x, p.z * q.z - c.d * (p.t * q.t), p.z * q.z + c.d * (p.t * q.t),
                p.y * q.y + p.x * q.x);
  }

  lemma ShiftForms(d: int, z1: int, t1: int, z2: int, t2: int)
    ensures 2 * z1 * z2 - 2 * t1 * t2 * d == 2 * (z1 * z2 - d * (t1 * t2))
    ensures 2 * z1 * z2 + 2 * t1 * t2 * d == 2 * (z1 * z2 + d * (t1 * t2))
  {
    assert 2 * t1 * t2 * d == 2 * (d * (t1 * t2));
  }

  lemma FactorForms(x1: int, y1: int, x2: int, y2: int)
    ensures (y1 + x1) * (y2 + x2) - (y1 - x1) * (y2 - x2) == 2 * (x1 * y2 + y1 * x2)
    ensures (y1 + x1) * (y2 + x2) + (y1 - x1) * (y2 - x2) == 2 * (y1 * y2 + x1 * x2)
  {
  }

  /** Addition keeps both extended-coordinate relations, for any modulus and any curve constant. */
  lemma AddOnCurve(c: Curve, p: Point, q: Point)
    requires OnCurve(c, p) && OnCurve(c, q)
    ensures OnCurve(c, Add(c, p, q))
  {
    RawSumOnCurve(c, p, q);
    AddIsRawSum(c, p, q);
    OnCurveByResidues(c, RawSum(c, p, q), Add(c, p, q));
  }

  // ---------- Scalar multiplication ----------

  /** What the loop of `_mul` computes from `q` with `s` bits to go and `point` doubled so far. */
  function Multiple(c: Curve, q: Point, s: int, point: Point): Point {
    DoubleAndAdd((a, b) => Add(c, a, b), q, s, point)
  }

  method Mul(c: Curve, s: int, point: Point) returns (q: Point)
    ensures q == Multiple(c, NEUTRAL, s, point)
    ensures OnCurve(c, point) ==> OnCurve(c, q)
  {
    q := NEUTRAL;
    var left, doubled := s, point;
    NeutralOnCurve(c);
    while left > 0
      invariant Multiple(c, q, left, doubled) == Multiple(c, NEUTRAL, s, point)
      invariant OnCurve(c, point) ==> OnCurve(c, q) && OnCurve(c, doubled)
      decreases left
    {
      if OnCurve(c, point) {
        AddOnCurve(c, q, doubled);
        AddOnCurve(c, doubled, doubled);
      }
      if left % 2 == 1 {
        q := Add(c, q, doubled);
      }
      doubled := Add(c, doubled, doubled);
      left := left / 2;
    }
  }

  lemma NeutralOnCurve(c: Curve)
    ensures OnCurve(c, NEUTRAL)
  {
    CongRefl(c.p, 0);
    CongRefl(c.p, 1);
  }

  /** Double-and-add is repeated addition wherever addition is associative with a neutral point, up to `Equal`. */
  lemma MulIsRepeatedAddition(c: Curve, good: iset<Point>, s: nat, p: Point)
    requires ActsAsMonoid((a, b) => Add(c, a, b), (a, b) => Equal(c, a, b), NEUTRAL, good) && p in good
    ensures Equal(c, Multiple(c, NEUTRAL, s, p), Fold((a, b) => Add(c, a, b), NEUTRAL, s, p))
  {
    var add := (a, b) => Add(c, a, b);
    DoublingIsRepetition(add, (a, b) => Equal(c, a, b), NEUTRAL, good, s, p);
  }
}
