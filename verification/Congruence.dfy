/** Integers modulo a positive number, as a relation that the ring operations respect. */
module Congruence {

  function Times(k: int, p: int): int {
    k * p
  }

  ghost predicate Cong(p: int, a: int, b: int) {
    exists k :: a - b == Times(k, p)
  }

  lemma CongBy(p: int, a: int, b: int, k: int)
    requires a - b == k * p
    ensures Cong(p, a, b)
  {
    assert a - b == Times(k, p);
  }

  lemma CongRefl(p: int, a: int)
    ensures Cong(p, a, a)
  {
    CongBy(p, a, a, 0);
  }

  lemma CongSym(p: int, a: int, b: int)
    requires Cong(p, a, b)
    ensures Cong(p, b, a)
  {
    var k :| a - b == Times(k, p);
    CongBy(p, b, a, -k);
  }

  lemma CongTrans(p: int, a: int, b: int, c: int)
    requires Cong(p, a, b) && Cong(p, b, c)
    ensures Cong(p, a, c)
  {
    var j :| a - b == Times(j, p);
    var k :| b - c == Times(k, p);
    assert (j + k) * p == j * p + k * p;
    CongBy(p, a, c, j + k);
  }

  lemma CongRing(p: int, a: int, a': int, b: int, b': int)
    requires Cong(p, a, a') && Cong(p, b, b')
    ensures Cong(p, a + b, a' + b') && Cong(p, a - b, a' - b') && Cong(p, a * b, a' * b')
  {
    var j :| a - a' == Times(j, p);
    var k :| b - b' == Times(k, p);
    assert (j + k) * p == j * p + k * p;
    CongBy(p, a + b, a' + b', j + k);
    assert (j - k) * p == j * p - k * p;
    CongBy(p, a - b, a' - b', j - k);
    Distribute(p, a', b', j, k);
    CongBy(p, a * b, a' * b', a' * k + j * b' + j * k * p);
  }

  lemma Distribute(p: int, a: int, b: int, j: int, k: int)
    ensures (a + j * p) * (b + k * p) - a * b == (a * k + j * b + j * k * p) * p
  {
    assert (a + j * p) * (b + k * p) == a * b + a * (k * p) + (j * p) * b + (j * p) * (k * p);
    assert a * (k * p) == (a * k) * p;
    assert (j * p) * b == (j * b) * p;
    assert (j * p) * (k * p) == (j * k * p) * p;
  }

  lemma CongScale(p: int, c: int, a: int, b: int)
    requires Cong(p, a, b)
    ensures Cong(p, c * a, c * b)
  {
    CongRefl(p, c);
    CongRing(p, c, c, a, b);
  }

  lemma CongSquare(p: int, a: int, b: int)
    requires Cong(p, a, b)
    ensures Cong(p, a * a, b * b)
  {
    CongRing(p, a, b, a, b);
  }

  lemma CongMod(p: int, a: int)
    requires p > 0
    ensures Cong(p, a % p, a)
  {
    assert a == (a / p) * p + a % p;
    CongBy(p, a % p, a, -(a / p));
  }

  /** A residue below the modulus is congruent to zero only when it is zero. */
  lemma SmallMultiple(p: int, k: int, r: int)
    requires p > 0 && r == k * p && 0 <= r < p
    ensures r == 0
  {
    assert k >= 1 ==> k * p >= p;
    assert k <= -1 ==> k * p <= -p;
  }

  lemma MultipleHasNoRemainder(p: int, x: int, k: int)
    requires p > 0 && x == k * p
    ensures x % p == 0
  {
    assert x == (x / p) * p + x % p;
    assert (k - x / p) * p == k * p - (x / p) * p;
    SmallMultiple(p, k - x / p, x % p);
  }

  lemma CongIffDifference(p: int, a: int, b: int)
    requires p > 0
    ensures Cong(p, a, b) <==> (a - b) % p == 0
  {
    var x := a - b;
    if x % p == 0 {
      assert x == (x / p) * p + x % p;
      CongBy(p, a, b, x / p);
    }
    if Cong(p, a, b) {
      var k :| x == Times(k, p);
      MultipleHasNoRemainder(p, x, k);
    }
  }

  lemma CongIffMod(p: int, a: int, b: int)
    requires p > 0
    ensures Cong(p, a, b) <==> a % p == b % p
  {
    CongMod(p, a);
    CongMod(p, b);
    CongSym(p, a % p, a);
    CongSym(p, b % p, b);
    if a % p == b % p {
      CongTrans(p, a, a % p, b);
    }
    if Cong(p, a, b) {
      CongTrans(p, a % p, a, b);
      CongTrans(p, a % p, b, b % p);
      var j :| a % p - b % p == Times(j, p);
      assert -(j * p) == (-j) * p;
      if a % p >= b % p { SmallMultiple(p, j, a % p - b % p); } else { SmallMultiple(p, -j, b % p - a % p); }
    }
  }
}
