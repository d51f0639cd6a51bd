/**
 The point codec of Ed25519 (src/daily_agent/parakh/ed25519.py; sections 5.1.2 and 5.1.3 of RFC 8032). The modulus is
 odd and below 2^255; nothing else is assumed unless a lemma says so.
 */
module PointCodec {
  import opened Options
  import opened Congruence
  import opened Ed25519
  import opened Primes

  const TWO_255 := 0x8000_0000_0000_0000_0000_0000_0000_0000_0000_0000_0000_0000_0000_0000_0000_0000
  /** 2^255 - 19. */
  const P25519 := 0x7fff_ffff_ffff_ffff_ffff_ffff_ffff_ffff_ffff_ffff_ffff_ffff_ffff_ffff_ffff_ffed

  type Byte = b: int | 0 <= b < 256

  /** The moduli for which 255 bits and a sign fit 32 bytes; that of Ed25519 is one of them. */
  type Field = c: Curve | 5 <= c.p < TWO_255 && c.p % 2 == 1 witness Constants(P25519, 0, 0)

  /** The unreduced quotient whose square root is sought. */
  function XSquared(c: Field, y: int): int {
    (y * y - 1) * Pow(c.d * y * y + 1, c.p - 2, c.p)
  }

  predicate IsRoot(c: Field, x: int, x2: int) {
    (x * x - x2) % c.p == 0
  }

  /** The candidate root, corrected by the square root of minus one when it is not one. */
  function RootCandidate(c: Field, x2: int): int {
    var x := Pow(x2, (c.p + 3) / 8, c.p);
    if IsRoot(c, x, x2) then x else x * c.sqrtM1 % c.p
  }

  /** Of a root and its negation, the one whose parity is the requested sign. */
  function WithSign(c: Field, x: int, sign: int): int {
    if x % 2 != sign then c.p - x else x
  }

  function RecoverX(c: Field, y: int, sign: int): Option<int> {
    if y >= c.p then None else
      var x2 := XSquared(c, y);
      if x2 == 0 then (if sign != 0 then None else Some(0)) else
        var x := RootCandidate(c, x2);
        if IsRoot(c, x, x2) then Some(WithSign(c, x, sign)) else None
  }

  // ---------- Bytes ----------

  function FromLittleEndian(s: seq<Byte>): nat {
    if s == [] then 0 else s[0] + 256 * FromLittleEndian(s[1..])
  }

  function ToLittleEndian(n: nat, length: nat): (s: seq<Byte>)
    ensures |s| == length
  {
    if length == 0 then [] else [n % 256] + ToLittleEndian(n / 256, length - 1)
  }

  function Power256(n: nat): nat {
    if n == 0 then 1 else 256 * Power256(n - 1)
  }

  lemma {:induction false} LittleEndianRoundTrip(s: seq<Byte>)
    ensures ToLittleEndian(FromLittleEndian(s), |s|) == s
    ensures FromLittleEndian(s) < Power256(|s|)
  {
    if s != [] {
      LittleEndianRoundTrip(s[1..]);
      assert (s[0] + 256 * FromLittleEndian(s[1..])) / 256 == FromLittleEndian(s[1..]);
      assert s == [s[0]] + s[1..];
    }
  }

  lemma QuotientOfQuotient(a: Byte, n: nat, k: nat)
    requires k > 0
    ensures (a + 256 * n) / (256 * k) == n / k
  {
    var q, r := n / k, n % k;
    assert a + 256 * n == q * (256 * k) + (a + 256 * r) by {
      assert n == q * k + r;
      assert 256 * (q * k) == q * (256 * k);
    }
    assert 0 <= a + 256 * r < 256 * k;
    QuotientIs(a + 256 * n, 256 * k, q, a + 256 * r);
  }

  lemma QuotientIs(n: int, m: int, q: int, r: int)
    requires m > 0 && n == q * m + r && 0 <= r < m
    ensures n / m == q
  {
    assert n == (n / m) * m + n % m;
    assert (n / m - q) * m == (n / m) * m - q * m;
    MultiplesGrow(n / m - q, m);
  }

  lemma MultiplesGrow(k: int, m: int)
    requires m > 0
    ensures k >= 1 ==> k * m >= m
    ensures k <= -1 ==> k * m <= -m
  {
  }

  /** Byte `i` is the digit of weight 256 to the `i`: the least significant byte comes first. */
  lemma {:induction false} LeastByteFirst(s: seq<Byte>, i: nat)
    requires i < |s|
    ensures Power256(i) > 0 && FromLittleEndian(s) / Power256(i) % 256 == s[i]
  {
    if i == 0 {
      assert (s[0] + 256 * FromLittleEndian(s[1..])) % 256 == s[0];
    } else {
      LeastByteFirst(s[1..], i - 1);
      QuotientOfQuotient(s[0], FromLittleEndian(s[1..]), Power256(i - 1));
    }
  }

  lemma ThirtyTwoBytes()
    ensures Power256(32) == 2 * TWO_255
  {
    assert Power256(8) == 0x1_0000_0000_0000_0000;
    PowersMultiply(8, 8);
    PowersMultiply(16, 16);
    assert Power256(16) == 0x1_0000_0000_0000_0000_0000_0000_0000_0000;
  }

  lemma {:induction false} PowersMultiply(a: nat, b: nat)
    ensures Power256(a + b) == Power256(a) * Power256(b)
  {
    if a > 0 {
      PowersMultiply(a - 1, b);
      assert Power256(a + b) == 256 * Power256(a - 1 + b);
    }
  }

  // ---------- The codec ----------

  function Compress(c: Field, p: Point): seq<Byte> {
    var zinv := Pow(p.z, c.p - 2, c.p);
    var x, y := p.x * zinv % c.p, p.y * zinv % c.p;
    ToLittleEndian(y + (x % 2) * TWO_255, 32)
  }

  function Decompress(c: Field, data: seq<Byte>): Option<Point> {
    if |data| != 32 then None else
      var n := FromLittleEndian(data);
      var sign, y := n / TWO_255, n % TWO_255;
      var x := RecoverX(c, y, sign);
      if x.None? then None else Some(Point(x.value, y, 1, x.value * y % c.p))
  }

  // ---------- What is accepted ----------

  lemma CandidateIsResidue(c: Field, x2: int)
    ensures 0 <= RootCandidate(c, x2) < c.p
  {
  }

  lemma SignedRoot(c: Field, x: int, sign: int, x2: int)
    requires 0 <= x < c.p && IsRoot(c, x, x2) && 0 <= sign <= 1
    ensures var r := WithSign(c, x, sign);
            IsRoot(c, r, x2) && 0 <= r <= c.p && r % 2 == sign && (r == c.p <==> sign == 1 && x == 0)
  {
    NegatedRoot(c, x, x2);
    NegatedParity(c.p, x);
  }

  lemma NegatedParity(p: int, x: int)
    requires p % 2 == 1
    ensures (p - x) % 2 == 1 - x % 2
  {
  }

  /** Every accepted coordinate is a square root of the quotient, lies in 0..p and has the requested parity. */
  lemma RecoveredRoot(c: Field, y: int, sign: int)
    requires RecoverX(c, y, sign).Some? && 0 <= sign <= 1
    ensures var x := RecoverX(c, y, sign).value;
            && y < c.p && IsRoot(c, x, XSquared(c, y))
            && 0 <= x <= c.p && x % 2 == sign
            && (x == c.p <==> sign == 1 && XSquared(c, y) != 0 && RootCandidate(c, XSquared(c, y)) == 0)
  {
    RecoveredFrom(c, y, sign, XSquared(c, y));
  }

  lemma RecoveredFrom(c: Field, y: int, sign: int, x2: int)
    requires x2 == XSquared(c, y) && RecoverX(c, y, sign).Some? && 0 <= sign <= 1
    ensures var x := RecoverX(c, y, sign).value;
            && y < c.p && IsRoot(c, x, x2) && 0 <= x <= c.p && x % 2 == sign
            && (x == c.p <==> sign == 1 && x2 != 0 && RootCandidate(c, x2) == 0)
  {
    if x2 != 0 {
      CandidateIsResidue(c, x2);
      SignedRoot(c, RootCandidate(c, x2), sign, x2);
    } else {
      ZeroIsItsRoot(c);
    }
  }

  lemma ZeroIsItsRoot(c: Field)
    ensures IsRoot(c, 0, 0)
  {
  }

  lemma NegatedRoot(c: Field, x: int, x2: int)
    requires IsRoot(c, x, x2)
    ensures IsRoot(c, c.p - x, x2)
  {
    var m := c.p;
    CongIffDifference(m, x * x, x2);
    CongIffDifference(m, (m - x) * (m - x), x2);
    assert (m - x) * (m - x) - x * x == (m - 2 * x) * m;
    CongBy(m, (m - x) * (m - x), x * x, m - 2 * x);
    CongTrans(m, (m - x) * (m - x), x * x, x2);
  }

  /** The parts of an accepted string. */
  lemma AcceptedParts(c: Field, data: seq<Byte>)
    requires Decompress(c, data).Some?
    ensures var p, n := Decompress(c, data).value, FromLittleEndian(data);
            && |data| == 32 && 0 <= n / TWO_255 <= 1 && n == p.y + (n / TWO_255) * TWO_255
            && 0 <= p.y < c.p && p.z == 1 && p.t == p.x * p.y % c.p
            && RecoverX(c, p.y, n / TWO_255) == Some(p.x)
  {
    LittleEndianRoundTrip(data);
    ThirtyTwoBytes();
  }

  /** Where the quotient's denominator is invertible, as Fermat's little theorem says, accepted points are on the curve. */
  lemma DecompressedOnCurve(c: Field, data: seq<Byte>)
    requires Decompress(c, data).Some?
    requires var y := Decompress(c, data).value.y;
             Cong(c.p, (c.d * y * y + 1) * Pow(c.d * y * y + 1, c.p - 2, c.p), 1)
    ensures OnCurve(c, Decompress(c, data).value)
  {
    var p := Decompress(c, data).value;
    AcceptedParts(c, data);
    RecoveredRoot(c, p.y, FromLittleEndian(data) / TWO_255);
    CongIffDifference(c.p, p.x * p.x, XSquared(c, p.y));
    AffineOnCurve(c, p.x, p.y, Pow(c.d * p.y * p.y + 1, c.p - 2, c.p));
  }

  lemma AffineOnCurve(c: Field, x: int, y: int, inv: int)
    requires Cong(c.p, x * x, (y * y - 1) * inv) && Cong(c.p, (c.d * y * y + 1) * inv, 1)
    ensures OnCurve(c, Point(x, y, 1, x * y % c.p))
  {
    var m, t := c.p, x * y % c.p;
    assert c.d * y * y + 1 == c.d * (y * y) + 1;
    RootGivesEquation(m, c.d, x * x, y * y, c.d * y * y + 1, inv);
    CongMod(m, x * y);
    CongSym(m, t, x * y);
    CongSquare(m, x * y, t);
    SquareOfProduct(x, y);
    CongScale(m, c.d, (x * x) * (y * y), t * t);
    CongRefl(m, 1);
    CongRing(m, 1, 1, c.d * ((x * x) * (y * y)), c.d * (t * t));
    CongTrans(m, y * y - x * x, 1 + c.d * ((x * x) * (y * y)), 1 + c.d * (t * t));
  }

  /** From x2 = (y2 - 1) / (d y2 + 1) to y2 - x2 = 1 + d x2 y2. */
  lemma RootGivesEquation(m: int, d: int, xx: int, yy: int, w: int, inv: int)
    requires w == d * yy + 1 && Cong(m, xx, (yy - 1) * inv) && Cong(m, w * inv, 1)
    ensures Cong(m, yy - xx, 1 + d * (xx * yy))
  {
    CongScale(m, w, xx, (yy - 1) * inv);
    CongScale(m, yy - 1, w * inv, 1);
    assert w * ((yy - 1) * inv) == (yy - 1) * (w * inv);
    CongTrans(m, w * xx, (yy - 1) * (w * inv), (yy - 1) * 1);
    assert w * xx == d * (xx * yy) + xx;
    CongRefl(m, 1 - xx);
    CongRing(m, w * xx, yy - 1, 1 - xx, 1 - xx);
    CongSym(m, w * xx + (1 - xx), yy - 1 + (1 - xx));
  }

  // ---------- The round trip ----------

  lemma {:induction false} PowOfOne(e: nat, m: int)
    requires m > 1
    ensures Pow(1, e, m) == 1
  {
    if e > 0 { PowOfOne(e - 1, m); }
  }

  lemma ReducedCoordinate(p: int, x: int)
    requires p > 1 && 0 <= x <= p
    ensures x * 1 % p == if x == p then 0 else x
  {
  }

  /** Compressing an affine point with a reduced y gives y and the parity of the reduced x. */
  lemma CompressAffine(c: Field, p: Point)
    requires p.z == 1 && 0 <= p.y < c.p && 0 <= p.x <= c.p
    ensures Compress(c, p) == ToLittleEndian(p.y + ((if p.x == c.p then 0 else p.x) % 2) * TWO_255, 32)
  {
    PowOfOne(c.p - 2, c.p);
    ReducedCoordinate(c.p, p.x);
    ReducedCoordinate(c.p, p.y);
  }

  /** An accepted string is given back unchanged exactly when the recovered coordinate is not the modulus itself. */
  lemma CodecRoundTrip(c: Field, data: seq<Byte>)
    requires Decompress(c, data).Some?
    ensures Compress(c, Decompress(c, data).value) == data <==> Decompress(c, data).value.x != c.p
  {
    var p := Decompress(c, data).value;
    AcceptedParts(c, data);
    RecoveredRoot(c, p.y, FromLittleEndian(data) / TWO_255);
    CompressAffine(c, p);
    BytesOfParts(c, p.x, p.y, FromLittleEndian(data) / TWO_255, data);
  }

  /** The bytes of y and the parity of the reduced x are the string they came from unless x is the modulus. */
  lemma BytesOfParts(c: Field, x: int, y: int, sign: int, data: seq<Byte>)
    requires |data| == 32 && FromLittleEndian(data) == y + sign * TWO_255
    requires 0 <= y < c.p && 0 <= x <= c.p && 0 <= sign <= 1 && x % 2 == sign && c.p % 2 == 1
    ensures ToLittleEndian(y + ((if x == c.p then 0 else x) % 2) * TWO_255, 32) == data <==> x != c.p
  {
    LittleEndianRoundTrip(data);
    if x == c.p {
      ThirtyTwoBytes();
      LittleEndianDecodes(y, 32);
    }
  }

  lemma {:induction false} LittleEndianDecodes(n: nat, length: nat)
    requires n < Power256(length)
    ensures FromLittleEndian(ToLittleEndian(n, length)) == n
  {
    if length > 0 {
      LittleEndianDecodes(n / 256, length - 1);
      assert ToLittleEndian(n, length)[1..] == ToLittleEndian(n / 256, length - 1);
    }
  }

  // ---------- When the modulus itself is recovered ----------

  lemma ProductIsNotZero(p: int, a: int, b: int)
    requires p > 1 && IsPrime(p) && a % p != 0 && 0 < b < p
    ensures a * b % p != 0
  {
    assert b % p == b;
    if a * b % p == 0 {
      PrimeDivides(p, a, b);
    }
  }

  lemma {:induction false} PowIsNotZero(base: int, e: nat, p: int)
    requires p > 1 && IsPrime(p) && base % p != 0
    ensures Pow(base, e, p) != 0
  {
    if e > 0 {
      PowIsNotZero(base, e - 1, p);
      ProductIsNotZero(p, base, Pow(base, e - 1, p));
    }
  }

  lemma {:induction false} PowOfZero(base: int, e: nat, p: int)
    requires p > 1 && base % p == 0 && e > 0
    ensures Pow(base, e, p) == 0
  {
    var r := Pow(base, e - 1, p);
    assert base == (base / p) * p;
    assert base * r == ((base / p) * r) * p;
    MultipleHasNoRemainder(p, base * r, (base / p) * r);
  }

  /** At y = p - 1 the quotient is a non-zero multiple of the modulus. */
  lemma QuotientAtMinusOne(m: int, inv: int)
    requires m > 2 && inv > 0
    ensures ((m - 1) * (m - 1) - 1) * inv == ((m - 2) * inv) * m && (m - 2) * inv >= 1
  {
    assert (m - 1) * (m - 1) - 1 == (m - 2) * m;
    assert ((m - 2) * m) * inv == ((m - 2) * inv) * m;
  }

  lemma PositiveMultiple(m: int, k: int)
    requires m > 0 && k >= 1
    ensures k * m >= m
  {
  }

  lemma ZeroIsRootOfMultiple(m: int, x2: int, k: int)
    requires m > 0 && x2 == k * m
    ensures (0 * 0 - x2) % m == 0 && x2 % m == 0
  {
    assert -(k * m) == (-k) * m;
    MultipleHasNoRemainder(m, -x2, -k);
    MultipleHasNoRemainder(m, x2, k);
  }

  lemma MultipleHasZeroRoot(c: Field, x2: int, k: int)
    requires x2 == k * c.p && k >= 1
    ensures x2 != 0 && RootCandidate(c, x2) == 0 && IsRoot(c, 0, x2)
  {
    PositiveMultiple(c.p, k);
    ZeroIsRootOfMultiple(c.p, x2, k);
    PowOfZero(x2, (c.p + 3) / 8, c.p);
  }

  /** y = p - 1 with the sign bit set is accepted, with the unreduced coordinate p. */
  lemma MinusOneRecoversModulus(c: Field)
    requires Pow(c.d * (c.p - 1) * (c.p - 1) + 1, c.p - 2, c.p) != 0
    ensures RecoverX(c, c.p - 1, 1) == Some(c.p)
  {
    var inv := Pow(c.d * (c.p - 1) * (c.p - 1) + 1, c.p - 2, c.p);
    QuotientAtMinusOne(c.p, inv);
    MultipleHasZeroRoot(c, XSquared(c, c.p - 1), (c.p - 2) * inv);
  }

  lemma DenominatorAtMinusOne(c: Field)
    requires (c.d + 1) % c.p != 0
    ensures (c.d * (c.p - 1) * (c.p - 1) + 1) % c.p != 0
  {
    var m := c.p;
    DistributeMinusOne(c.d, m);
    CongBy(m, c.d * (m - 1) * (m - 1) + 1, c.d + 1, c.d * (m - 2));
    CongIffMod(m, c.d * (m - 1) * (m - 1) + 1, c.d + 1);
  }

  lemma ZeroQuotientOnlyAtUnits(m: int, y: nat, inv: int)
    requires m > 2 && IsPrime(m) && y < m && 0 <= inv < m
    requires (y * y - 1) * inv != 0 && (y * y - 1) * inv % m == 0
    ensures y == m - 1
  {
    if (y * y - 1) % m != 0 {
      ProductIsNotZero(m, y * y - 1, inv);
    }
    assert y * y - 1 == (y - 1) * (y + 1);
    PrimeDivides(m, y - 1, y + 1);
    SmallNeighbours(m, y);
    assert y == 1 ==> y * y - 1 == 0;
  }

  /** For a prime modulus, and a denominator that does not vanish there, it is the only such string. */
  lemma ModulusRecoveredOnlyAtMinusOne(c: Field, y: nat, sign: int)
    requires IsPrime(c.p) && (c.d + 1) % c.p != 0 && 0 <= sign <= 1
    ensures RecoverX(c, y, sign) == Some(c.p) <==> y == c.p - 1 && sign == 1
  {
    if y == c.p - 1 && sign == 1 {
      DenominatorAtMinusOne(c);
      PowIsNotZero(c.d * (c.p - 1) * (c.p - 1) + 1, c.p - 2, c.p);
      MinusOneRecoversModulus(c);
    }
    if RecoverX(c, y, sign) == Some(c.p) {
      RecoveredRoot(c, y, sign);
      RootOfMultiple(c.p, XSquared(c, y));
      ZeroQuotientOnlyAtUnits(c.p, y, Pow(c.d * y * y + 1, c.p - 2, c.p));
    }
  }

  /** For a prime modulus, every accepted string is given back unless it is y = p - 1 with the sign bit set. */
  lemma StringsRoundTrip(c: Field, data: seq<Byte>)
    requires IsPrime(c.p) && (c.d + 1) % c.p != 0 && Decompress(c, data).Some?
    ensures Compress(c, Decompress(c, data).value) == data
       <==> !(FromLittleEndian(data) % TWO_255 == c.p - 1 && FromLittleEndian(data) / TWO_255 == 1)
  {
    CodecRoundTrip(c, data);
    AcceptedParts(c, data);
    ModulusRecoveredOnlyAtMinusOne(c, FromLittleEndian(data) % TWO_255, FromLittleEndian(data) / TWO_255);
  }

  /** That string is accepted, so one accepted string is not given back. */
  lemma OneStringIsNotGivenBack(c: Field) returns (data: seq<Byte>)
    requires IsPrime(c.p) && (c.d + 1) % c.p != 0
    ensures Decompress(c, data).Some? && Compress(c, Decompress(c, data).value) != data
  {
    data := ToLittleEndian(c.p - 1 + TWO_255, 32);
    ThirtyTwoBytes();
    LittleEndianDecodes(c.p - 1 + TWO_255, 32);
    PartsOfMinusOne(c.p - 1);
    ModulusRecoveredOnlyAtMinusOne(c, c.p - 1, 1);
    StringsRoundTrip(c, data);
  }

  lemma PartsOfMinusOne(y: nat)
    requires y < TWO_255
    ensures (y + TWO_255) / TWO_255 == 1 && (y + TWO_255) % TWO_255 == y
  {
  }

  lemma DistributeMinusOne(d: int, m: int)
    ensures d * (m - 1) * (m - 1) == d + (d * (m - 2)) * m
  {
    assert d * (m - 1) * (m - 1) == d * ((m - 1) * (m - 1));
    assert (m - 1) * (m - 1) == 1 + (m - 2) * m;
    assert d * ((m - 2) * m) == (d * (m - 2)) * m;
  }

  lemma RootOfMultiple(m: int, x2: int)
    requires m > 1 && (m * m - x2) % m == 0
    ensures x2 % m == 0
  {
    var k := (m * m - x2) / m;
    assert m * m - x2 == k * m;
    assert x2 == (m - k) * m;
    MultipleHasNoRemainder(m, x2, m - k);
  }

  lemma MinusOneModulo(m: int)
    requires m > 1
    ensures (-1) % m == m - 1
  {
  }

  lemma SmallNeighbours(m: int, y: int)
    requires m > 2 && 0 <= y < m && ((y - 1) % m == 0 || (y + 1) % m == 0)
    ensures y == 1 || y == m - 1
  {
    assert y + 1 < m ==> (y + 1) % m == y + 1;
    assert y >= 1 ==> (y - 1) % m == y - 1;
    MinusOneModulo(m);
  }
}
