/** Which strings decode to points: a root is found whenever there is one, and every accepted string is of a curve point. */
module Decoding {
  import opened Options
  import opened Congruence
  import opened Primes
  import opened Ed25519
  import opened PointCodec
  import opened Projective

  /** The constants of section 5.1 of RFC 8032 in the form the decoder needs them: p = 8k + 5 on a complete curve. */
  ghost predicate IsDecodable(c: Field) {
    IsComplete(c) && c.p % 8 == 5
  }

  // ---------- A root is found whenever there is one ----------

  /** Half of Fermat's exponent gives a square root of one, so plus or minus one. */
  lemma HalfPower(m: int, r: int)
    requires m > 2 && m % 2 == 1 && IsPrime(m) && r % m != 0
    ensures Cong(m, Power(r, (m - 1) / 2), 1) || Cong(m, Power(r, (m - 1) / 2), -1)
  {
    var e := (m - 1) / 2;
    var h := Power(r, e);
    Fermat(m, r);
    PowerOfSquare(r, e);
    assert 2 * e == m - 1;
    CongIffDifference(m, h * h, 1);
    assert h * h - 1 == (h - 1) * (h - (-1));
    PrimeDivides(m, h - 1, h - (-1));
    CongIffDifference(m, h, 1);
    CongIffDifference(m, h, -1);
  }

  /** The square of r^((p + 3) / 4) is r squared times the half power. */
  lemma CandidateSquared(m: int, r: int)
    requires m > 0 && m % 8 == 5
    ensures var x := Power(r * r, (m + 3) / 8); x * x == Power(r, (m - 1) / 2) * (r * r)
  {
    var k := (m + 3) / 8;
    var x := Power(r * r, k);
    PowerOfSquare(r, k);
    PowerOfSquare(r, 2 * k);
    assert 2 * (2 * k) == (m - 1) / 2 + 2;
    PowerAdds(r, (m - 1) / 2, 2);
    assert Power(r, 2) == r * (r * Power(r, 0)) == r * r;
  }

  /** The first candidate squares to the number sought or to its negation. */
  lemma FirstCandidate(m: int, r: int, x2: int)
    requires m > 2 && m % 8 == 5 && IsPrime(m) && r % m != 0 && Cong(m, r * r, x2)
    ensures var x := Pow(x2, (m + 3) / 8, m); Cong(m, x * x, x2) || Cong(m, x * x, -x2)
  {
    var k := (m + 3) / 8;
    var x, y, h := Pow(x2, k, m), Power(r * r, k), Power(r, (m - 1) / 2);
    PowIsPower(x2, k, m);
    CongSym(m, r * r, x2);
    PowerCong(m, x2, r * r, k);
    CongTrans(m, x, Power(x2, k), y);
    CongSquare(m, x, y);
    CandidateSquared(m, r);
    HalfPower(m, r);
    CongSym(m, x2, r * r);
    if Cong(m, h, 1) {
      CongRing(m, h, 1, r * r, x2);
      CongTrans(m, x * x, y * y, 1 * x2);
    } else {
      CongRing(m, h, -1, r * r, x2);
      CongTrans(m, x * x, y * y, -1 * x2);
    }
  }

  lemma SecondCandidate(c: Field, x: int, x2: int)
    requires Cong(c.p, c.sqrtM1 * c.sqrtM1, -1) && Cong(c.p, x * x, -x2)
    ensures IsRoot(c, x * c.sqrtM1 % c.p, x2)
  {
    var m, i := c.p, c.sqrtM1;
    CongMod(m, x * i);
    CongSquare(m, x * i % m, x * i);
    assert (x * i) * (x * i) == (x * x) * (i * i);
    CongRing(m, x * x, -x2, i * i, -1);
    CongTrans(m, (x * i % m) * (x * i % m), (x * x) * (i * i), (-x2) * (-1));
    CongIffDifference(m, (x * i % m) * (x * i % m), x2);
  }

  /** The candidate is a square root exactly when there is one. */
  lemma RootIsFoundIff(c: Field, x2: int)
    requires IsDecodable(c)
    ensures IsRoot(c, RootCandidate(c, x2), x2) <==> exists r :: IsRoot(c, r, x2)
  {
    if r :| IsRoot(c, r, x2) {
      CongIffDifference(c.p, r * r, x2);
      if r % c.p == 0 {
        ZeroTimes(c.p, r, r);
        CongVanishes(c.p, r * r, x2);
        ZeroHasZeroRoot(c, x2);
      } else {
        FirstCandidate(c.p, r, x2);
        var x := Pow(x2, (c.p + 3) / 8, c.p);
        CongIffDifference(c.p, x * x, x2);
        if !IsRoot(c, x, x2) { SecondCandidate(c, x, x2); }
      }
    }
  }

  lemma ZeroHasZeroRoot(c: Field, x2: int)
    requires x2 % c.p == 0
    ensures IsRoot(c, RootCandidate(c, x2), x2)
  {
    PowOfZero(x2, (c.p + 3) / 8, c.p);
    CongIffDifference(c.p, 0 * 0, x2);
    CongIffMod(c.p, 0, x2);
  }

  // ---------- Roots are curve points ----------

  /** The affine point (x, y) in extended coordinates. */
  function Affine(x: int, y: int): Point {
    Point(x, y, 1, x * y)
  }

  /** On a complete curve the denominator of the quotient never vanishes. */
  lemma QuotientIsDefined(c: Field, y: int)
    requires IsComplete(c)
    ensures (c.d * y * y + 1) % c.p != 0
  {
    var m, i := c.p, c.sqrtM1;
    if (c.d * y * y + 1) % m == 0 {
      CongIffDifference(m, c.d * y * y, -1);
      assert c.d * y * y == c.d * (y * y);
      CongSym(m, c.d * (y * y), -1);
      CongTrans(m, i * i, -1, c.d * (y * y));
      if y % m == 0 {
        ZeroTimes(m, y, c.d * y);
        assert y * (c.d * y) == c.d * y * y;
        NextIsNoMultiple(m, c.d * y * y);
      } else {
        QuotientOfSquares(m, c.d, i, y);
      }
    }
  }

  lemma NextIsNoMultiple(m: int, a: int)
    requires m > 1 && a % m == 0
    ensures (a + 1) % m != 0
  {
    CongIffDifference(m, a, 0);
    CongRefl(m, 1);
    CongRing(m, a, 0, 1, 1);
    CongVanishes(m, a + 1, 1);
    SmallMod(m, 1);
  }

  /** The power p - 2 inverts. */
  lemma InverseByFermat(p: int, w: int)
    requires p > 2 && IsPrime(p) && w % p != 0
    ensures Cong(p, w * Pow(w, p - 2, p), 1) && Pow(w, p - 2, p) % p != 0
  {
    var inv := Pow(w, p - 2, p);
    PowIsPower(w, p - 2, p);
    CongScale(p, w, inv, Power(w, p - 2));
    Fermat(p, w);
    CongTrans(p, w * inv, Power(w, p - 1), 1);
    if inv % p == 0 {
      ZeroTimes(p, inv, w);
      CongVanishes(p, w * inv, 1);
      SmallMod(p, 1);
    }
  }

  lemma EquationGivesRoot(m: int, d: int, xx: int, yy: int, w: int, inv: int)
    requires w == d * yy + 1 && Cong(m, w * inv, 1) && Cong(m, yy - xx, 1 + d * (xx * yy))
    ensures Cong(m, xx, (yy - 1) * inv)
  {
    CongRefl(m, xx - 1);
    CongRing(m, yy - xx, 1 + d * (xx * yy), xx - 1, xx - 1);
    assert w * xx == d * (xx * yy) + xx;
    CongSym(m, yy - 1, w * xx);
    CongScale(m, inv, w * xx, yy - 1);
    assert inv * (w * xx) == xx * (w * inv);
    CongScale(m, xx, w * inv, 1);
    CongSym(m, xx * (w * inv), xx * 1);
    CongTrans(m, xx, xx * (w * inv), inv * (yy - 1));
    assert inv * (yy - 1) == (yy - 1) * inv;
  }

  lemma AffineEquation(c: Field, x: int, y: int)
    ensures OnCurve(c, Affine(x, y)) <==> Cong(c.p, y * y - x * x, 1 + c.d * ((x * x) * (y * y)))
  {
    CongRefl(c.p, x * y);
    SquareOfProduct(x, y);
  }

  /** A root of the quotient is exactly the first coordinate of a curve point. */
  lemma RootsAreCurvePoints(c: Field, x: int, y: int)
    requires IsComplete(c)
    ensures IsRoot(c, x, XSquared(c, y)) <==> OnCurve(c, Affine(x, y))
  {
    var w := c.d * y * y + 1;
    var inv := Pow(w, c.p - 2, c.p);
    QuotientIsDefined(c, y);
    InverseByFermat(c.p, w);
    AffineEquation(c, x, y);
    CongIffDifference(c.p, x * x, XSquared(c, y));
    assert w == c.d * (y * y) + 1;
    if IsRoot(c, x, XSquared(c, y)) {
      RootGivesEquation(c.p, c.d, x * x, y * y, w, inv);
    }
    if OnCurve(c, Affine(x, y)) {
      EquationGivesRoot(c.p, c.d, x * x, y * y, w, inv);
    }
  }

  /** The unreduced quotient is zero only at y = 1. */
  lemma QuotientIsZeroIff(c: Field, y: nat)
    requires IsComplete(c)
    ensures XSquared(c, y) == 0 <==> y == 1
  {
    QuotientIsDefined(c, y);
    InverseByFermat(c.p, c.d * y * y + 1);
    var inv := Pow(c.d * y * y + 1, c.p - 2, c.p);
    SmallMod(c.p, 0);
    ZeroProduct(y * y - 1, inv);
    assert y >= 2 ==> y * y >= 4;
  }

  lemma ZeroProduct(a: int, b: int)
    requires b != 0
    ensures a * b == 0 <==> a == 0
  {
  }

  /**
   A coordinate is recovered exactly when y is reduced, some curve point has it, and it is not y = 1 with the sign bit set;
   and the point found is on the curve.
   */
  lemma RecoversIff(c: Field, y: nat, sign: int)
    requires IsDecodable(c) && 0 <= sign <= 1
    ensures RecoverX(c, y, sign).Some? <==> y < c.p && !(y == 1 && sign == 1) && exists x :: OnCurve(c, Affine(x, y))
    ensures RecoverX(c, y, sign).Some? ==> OnCurve(c, Affine(RecoverX(c, y, sign).value, y))
  {
    var x2 := XSquared(c, y);
    QuotientIsZeroIff(c, y);
    RootIsFoundIff(c, x2);
    if x :| OnCurve(c, Affine(x, y)) {
      RootsAreCurvePoints(c, x, y);
    }
    if RecoverX(c, y, sign).Some? {
      RecoveredRoot(c, y, sign);
      RootsAreCurvePoints(c, RecoverX(c, y, sign).value, y);
    }
  }

  /** A string decodes exactly when its 255 bits are the reduced y of a curve point and it is not y = 1 with the sign bit. */
  lemma DecodesIff(c: Field, data: seq<Byte>)
    requires IsDecodable(c)
    ensures var y, sign := FromLittleEndian(data) % TWO_255, FromLittleEndian(data) / TWO_255;
            Decompress(c, data).Some?
            <==> |data| == 32 && y < c.p && !(y == 1 && sign == 1) && exists x :: OnCurve(c, Affine(x, y))
    ensures Decompress(c, data).Some? ==> IsPoint(c, Decompress(c, data).value)
  {
    var y, sign := FromLittleEndian(data) % TWO_255, FromLittleEndian(data) / TWO_255;
    if |data| == 32 {
      LittleEndianRoundTrip(data);
      ThirtyTwoBytes();
      RecoversIff(c, y, sign);
      if Decompress(c, data).Some? {
        var q := Decompress(c, data).value;
        ReducedFourth(c, q.x, q.y);
        SmallMod(c.p, 1);
      }
    }
  }

  lemma ReducedFourth(c: Field, x: int, y: int)
    requires OnCurve(c, Affine(x, y))
    ensures OnCurve(c, Point(x, y, 1, x * y % c.p))
  {
    CongRefl(c.p, x);
    CongRefl(c.p, y);
    CongRefl(c.p, 1);
    CongMod(c.p, x * y);
    CongSym(c.p, x * y % c.p, x * y);
    OnCurveByResidues(c, Affine(x, y), Point(x, y, 1, x * y % c.p));
  }

  // ---------- Points survive the round trip ----------

  /** The reduced affine coordinates of a finite point. */
  function Reduced(c: Field, p: Point): Point {
    var zinv := Pow(p.z, c.p - 2, c.p);
    Affine(p.x * zinv % c.p, p.y * zinv % c.p)
  }

  lemma ReducedIsCarried(c: Field, p: Point)
    requires IsPrime(c.p) && IsFinite(c, p)
    ensures Carries(c, Pow(p.z, c.p - 2, c.p), p, Reduced(c, p))
  {
    var zinv := Pow(p.z, c.p - 2, c.p);
    InverseByFermat(c.p, p.z);
    ReducedProduct(c.p, zinv, p.x);
    ReducedProduct(c.p, zinv, p.y);
    assert zinv * p.z == p.z * zinv;
  }

  lemma ReducedProduct(m: int, k: int, x: int)
    requires m > 0
    ensures Cong(m, k * x, x * k % m)
  {
    CongMod(m, x * k);
    CongSym(m, x * k % m, x * k);
    assert k * x == x * k;
  }

  /** What carries a curve point to an affine one carries it to a curve point. */
  lemma CarriedOnCurve(c: Field, k: int, p: Point, x: int, y: int)
    requires OnCurve(c, p) && Carries(c, k, p, Affine(x, y))
    ensures OnCurve(c, Affine(x, y))
  {
    ScaledOnCurve(c, k, p);
    AffineByResidues(c, Point(k * p.x, k * p.y, k * p.z, k * p.t), x, y);
  }

  lemma AffineByResidues(c: Field, s: Point, x: int, y: int)
    requires OnCurve(c, s) && Cong(c.p, s.x, x) && Cong(c.p, s.y, y) && Cong(c.p, s.z, 1)
    ensures OnCurve(c, Affine(x, y))
  {
    var m := c.p;
    CongRefl(m, s.t);
    CongRing(m, s.z, 1, s.t, s.t);
    CongSym(m, s.z * s.t, 1 * s.t);
    CongSym(m, s.x * s.y, s.z * s.t);
    CongTrans(m, s.t, s.z * s.t, s.x * s.y);
    CongRing(m, s.x, x, s.y, y);
    CongTrans(m, s.t, s.x * s.y, x * y);
    OnCurveByResidues(c, s, Affine(x, y));
  }

  lemma ScaledOnCurve(c: Field, k: int, p: Point)
    requires OnCurve(c, p)
    ensures OnCurve(c, Point(k * p.x, k * p.y, k * p.z, k * p.t))
  {
    CongScale(c.p, k * k, p.x * p.y, p.z * p.t);
    CongScale(c.p, k * k, p.y * p.y - p.x * p.x, p.z * p.z + c.d * (p.t * p.t));
    ScaledRelation(k, p.x, p.y);
    ScaledRelation(k, p.z, p.t);
    ScaledEquation(k, c.d, p.x, p.y, p.z, p.t);
  }

  lemma ScaledRelation(k: int, x: int, y: int)
    ensures (k * x) * (k * y) == (k * k) * (x * y)
  {
  }

  lemma ScaledEquation(k: int, d: int, x: int, y: int, z: int, t: int)
    ensures (k * k) * (y * y - x * x) == (k * y) * (k * y) - (k * x) * (k * x)
    ensures (k * k) * (z * z + d * (t * t)) == (k * z) * (k * z) + d * ((k * t) * (k * t))
  {
    SquareOfProduct(k, x);
    SquareOfProduct(k, y);
    SquareOfProduct(k, z);
    SquareOfProduct(k, t);
    assert (k * k) * (d * (t * t)) == d * ((k * k) * (t * t));
  }

  lemma RootsAreOpposite(m: int, x: int, r: int, x2: int)
    requires m > 1 && IsPrime(m) && Cong(m, x * x, x2) && Cong(m, r * r, x2)
    ensures (r - x) % m == 0 || (r + x) % m == 0
  {
    CongSym(m, x * x, x2);
    CongTrans(m, r * r, x2, x * x);
    CongIffDifference(m, r * r, x * x);
    assert r * r - x * x == (r - x) * (r + x);
    PrimeDivides(m, r - x, r + x);
  }

  lemma SmallMultipleOf(m: int, a: int)
    requires m > 0 && -m < a < 2 * m && a % m == 0
    ensures a == 0 || a == m
  {
    var k := a / m;
    assert a == k * m;
    assert k <= -1 ==> k * m <= -m;
    assert k >= 2 ==> k * m >= 2 * m;
  }

  lemma ParityDecides(m: int, x: int, r: int)
    requires m % 2 == 1 && 0 <= x < m && 0 <= r <= m && x % 2 == r % 2
    requires r - x == 0 || r - x == m || r + x == 0 || r + x == m
    ensures x == r
  {
  }

  /** Of two roots below an odd modulus, with the same parity, there is only one. */
  lemma RootsOfOneParity(m: int, x: int, r: int, x2: int)
    requires m > 2 && m % 2 == 1 && IsPrime(m) && 0 <= x < m && 0 <= r <= m && x % 2 == r % 2
    requires Cong(m, x * x, x2) && Cong(m, r * r, x2)
    ensures x == r
  {
    RootsAreOpposite(m, x, r, x2);
    if (r - x) % m == 0 { SmallMultipleOf(m, r - x); } else { SmallMultipleOf(m, r + x); }
    ParityDecides(m, x, r);
  }

  lemma CompressIsReduced(c: Field, p: Point)
    requires IsPrime(c.p) && IsFinite(c, p)
    ensures var r := Reduced(c, p);
            && 0 <= r.x < c.p && 0 <= r.y < c.p
            && |Compress(c, p)| == 32
            && FromLittleEndian(Compress(c, p)) % TWO_255 == r.y && FromLittleEndian(Compress(c, p)) / TWO_255 == r.x % 2
  {
    CompressJoins(c, p);
    JoinedParts(Reduced(c, p).y, Reduced(c, p).x % 2);
  }

  lemma CompressJoins(c: Field, p: Point)
    ensures Compress(c, p) == ToLittleEndian(Reduced(c, p).y + (Reduced(c, p).x % 2) * TWO_255, 32)
  {
  }

  lemma JoinedParts(y: nat, sign: nat)
    requires y < TWO_255 && sign <= 1
    ensures var n := FromLittleEndian(ToLittleEndian(y + sign * TWO_255, 32)); n % TWO_255 == y && n / TWO_255 == sign
  {
    ThirtyTwoBytes();
    LittleEndianDecodes(y + sign * TWO_255, 32);
    PartsOf(y, sign);
  }

  lemma PartsOf(y: nat, sign: nat)
    requires y < TWO_255 && sign <= 1
    ensures (y + sign * TWO_255) / TWO_255 == sign && (y + sign * TWO_255) % TWO_255 == y
  {
  }

  /** Decoding the encoding of a finite curve point gives that point back, with reduced affine coordinates. */
  lemma PointsRoundTrip(c: Field, p: Point)
    requires IsDecodable(c) && IsPoint(c, p)
    ensures Decompress(c, Compress(c, p)).Some?
    ensures var q := Decompress(c, Compress(c, p)).value;
            Equal(c, p, q) && IsPoint(c, q) && q.z == 1 && 0 <= q.x < c.p && 0 <= q.y < c.p
  {
    var r := Reduced(c, p);
    ReducedIsCarried(c, p);
    CarriedOnCurve(c, Pow(p.z, c.p - 2, c.p), p, r.x, r.y);
    CompressIsReduced(c, p);
    RecoversReduced(c, r.x, r.y);
    DecodesIff(c, Compress(c, p));
    CarriedIsEqual(c, Pow(p.z, c.p - 2, c.p), p, r);
  }

  /** The first coordinate of a reduced affine curve point is recovered from the second and the parity of the first. */
  lemma RecoversReduced(c: Field, x: int, y: int)
    requires IsDecodable(c) && 0 <= x < c.p && 0 <= y < c.p && OnCurve(c, Affine(x, y))
    ensures RecoverX(c, y, x % 2) == Some(x)
  {
    var x2 := XSquared(c, y);
    RootsAreCurvePoints(c, x, y);
    CongIffDifference(c.p, x * x, x2);
    QuotientIsZeroIff(c, y);
    if y == 1 {
      PrimeDivides(c.p, x, x);
      SmallMod(c.p, x);
    }
    RecoversIff(c, y, x % 2);
    RecoveredRoot(c, y, x % 2);
    var r := RecoverX(c, y, x % 2).value;
    CongIffDifference(c.p, r * r, x2);
    RootsOfOneParity(c.p, x, r, x2);
  }

  /** The encoding tells finite curve points apart exactly as `Equal` does. */
  lemma EncodingIsEquality(c: Field, p: Point, q: Point)
    requires IsDecodable(c) && IsPoint(c, p) && IsPoint(c, q)
    ensures Compress(c, p) == Compress(c, q) <==> Equal(c, p, q)
  {
    var r, s := Reduced(c, p), Reduced(c, q);
    ReducedIsCarried(c, p);
    ReducedIsCarried(c, q);
    CarriedIsEqual(c, Pow(p.z, c.p - 2, c.p), p, r);
    CarriedIsEqual(c, Pow(q.z, c.p - 2, c.p), q, s);
    SmallMod(c.p, 1);
    CompressIsReduced(c, p);
    CompressIsReduced(c, q);
    if Equal(c, p, q) {
      EqualIsAnEquivalence(c, p, r, p);
      EqualIsAnEquivalence(c, r, p, q);
      EqualIsAnEquivalence(c, r, q, s);
      AffineEquality(c, r, s);
      SmallMod(c.p, r.x);
      SmallMod(c.p, r.y);
      SmallMod(c.p, s.x);
      SmallMod(c.p, s.y);
    }
    if Compress(c, p) == Compress(c, q) {
      PointsRoundTrip(c, p);
      PointsRoundTrip(c, q);
      var d := Decompress(c, Compress(c, p)).value;
      EqualIsAnEquivalence(c, q, d, q);
      EqualIsAnEquivalence(c, p, d, q);
    }
  }
}
