/**
 Signing and verifying (src/daily_agent/parakh/ed25519.py; section 5.1 of RFC 8032): what was signed verifies, and the
 second half of an accepted signature is determined by everything else. The hash is any function; that addition associates
 and that the base point has the given order are taken as given.
 */
module Signatures {
  import opened Options
  import opened Congruence
  import opened Primes
  import opened Doubling
  import opened Ed25519
  import opened PointCodec
  import opened Projective
  import opened Decoding

  /** `hash` reads the digest as a number. */
  datatype Scheme = Scheme(c: Field, base: Point, order: nat, hash: seq<Byte> -> nat)

  function MultipleOf(c: Field, s: nat, p: Point): Point {
    Multiple(c, NEUTRAL, s, p)
  }

  /** `a` is the expanded secret scalar. */
  function PublicKey(sc: Scheme, a: nat): seq<Byte> {
    Compress(sc.c, MultipleOf(sc.c, a, sc.base))
  }

  function Challenge(sc: Scheme, bytes: seq<Byte>): nat
    requires sc.order > 0
  {
    sc.hash(bytes) % sc.order
  }

  function Sign(sc: Scheme, a: nat, prefix: seq<Byte>, message: seq<Byte>): seq<Byte>
    requires sc.order > 0
  {
    var r := Challenge(sc, prefix + message);
    var bigR := Compress(sc.c, MultipleOf(sc.c, r, sc.base));
    var h := Challenge(sc, bigR + PublicKey(sc, a) + message);
    bigR + ToLittleEndian((r + h * a) % sc.order, 32)
  }

  predicate Verify(sc: Scheme, public: seq<Byte>, message: seq<Byte>, signature: seq<Byte>)
    requires sc.order > 0
  {
    if |public| != 32 || |signature| != 64 then false
    else
      var key, r := Decompress(sc.c, public), Decompress(sc.c, signature[..32]);
      if key.None? || r.None? then false
      else
        var s := FromLittleEndian(signature[32..]);
        if s >= sc.order then false
        else
          var h := Challenge(sc, signature[..32] + public + message);
          Equal(sc.c, MultipleOf(sc.c, s, sc.base), Add(sc.c, r.value, MultipleOf(sc.c, h, key.value)))
  }

  // ---------- The group the scheme works in ----------

  ghost predicate IsGroup(c: Field) {
    IsDecodable(c) && IsAssociative(Sum(c), Equality(c), Points(c))
  }

  /** The order of the base point annihilates it, and fits 32 bytes. */
  ghost predicate Works(sc: Scheme) {
    && IsGroup(sc.c) && IsPoint(sc.c, sc.base) && 0 < sc.order <= 2 * TWO_255
    && Equal(sc.c, Fold(Sum(sc.c), NEUTRAL, sc.order, sc.base), NEUTRAL)
  }

  /** No smaller multiple of the base point is neutral. */
  ghost predicate HasLeastOrder(sc: Scheme) {
    forall n: nat :: 0 < n < sc.order ==> !Equal(sc.c, Fold(Sum(sc.c), NEUTRAL, n, sc.base), NEUTRAL)
  }

  lemma GroupIsMonoid(c: Field)
    requires IsGroup(c)
    ensures ActsAsMonoid(Sum(c), Equality(c), NEUTRAL, Points(c))
  {
    NeutralOnCurve(c);
    SmallMod(c.p, 1);
    PointsAreClosed(c);
    PointsHaveNeutral(c);
    EqualityIsEquivalence(c);
    SumRespectsEquality(c);
  }

  lemma TimesIsFold(c: Field, s: nat, p: Point)
    requires IsGroup(c) && IsPoint(c, p)
    ensures IsPoint(c, MultipleOf(c, s, p)) && Equal(c, MultipleOf(c, s, p), Fold(Sum(c), NEUTRAL, s, p))
  {
    GroupIsMonoid(c);
    DoublingIsRepetition(Sum(c), Equality(c), NEUTRAL, Points(c), s, p);
    LoopMeaning(Sum(c), Equality(c), NEUTRAL, Points(c), NEUTRAL, s, p);
  }

  /** What is decoded from an encoded multiple is that multiple. */
  lemma DecodedMultiple(c: Field, s: nat, p: Point)
    requires IsGroup(c) && IsPoint(c, p)
    ensures Decompress(c, Compress(c, MultipleOf(c, s, p))).Some? && |Compress(c, MultipleOf(c, s, p))| == 32
    ensures var q := Decompress(c, Compress(c, MultipleOf(c, s, p))).value;
            IsPoint(c, q) && Equal(c, q, Fold(Sum(c), NEUTRAL, s, p))
  {
    var t := MultipleOf(c, s, p);
    TimesIsFold(c, s, p);
    PointsRoundTrip(c, t);
    var q := Decompress(c, Compress(c, t)).value;
    EqualIsAnEquivalence(c, t, q, t);
    EqualIsAnEquivalence(c, q, t, Fold(Sum(c), NEUTRAL, s, p));
  }

  // ---------- The equation that is checked ----------

  /** With R = rB, A = aB and s = r + ha modulo the order, sB = R + hA. */
  lemma VerificationEquation<P(!new)>(add: (P, P) -> P, equal: (P, P) -> bool, zero: P, good: iset<P>, order: nat,
                                      a: nat, r: nat, h: nat, base: P, bigS: P, bigR: P, key: P, multiple: P)
    requires ActsAsMonoid(add, equal, zero, good) && base in good && order > 0
    requires equal(Fold(add, zero, order, base), zero)
    requires bigS in good && equal(bigS, Fold(add, zero, (r + h * a) % order, base))
    requires bigR in good && equal(bigR, Fold(add, zero, r, base))
    requires key in good && equal(key, Fold(add, zero, a, base))
    requires multiple in good && equal(multiple, Fold(add, zero, h, key))
    ensures equal(bigS, add(bigR, multiple))
  {
    var n := r + h * a;
    var all, reduced, mine, product := Fold(add, zero, n, base), Fold(add, zero, n % order, base),
                                       Fold(add, zero, r, base), Fold(add, zero, h * a, base);
    forall k: nat ensures Fold(add, zero, k, base) in good { FoldIsGood(add, equal, zero, good, k, base); }
    KeyMultiple(add, equal, zero, good, a, h, base, key, multiple);
    FoldModulo(add, equal, zero, good, order, n, base);
    Symmetric(add, equal, zero, good, all, reduced);
    Transitive(add, equal, zero, good, bigS, reduced, all);
    FoldAdds(add, equal, zero, good, r, h * a, base);
    SumIsGood(add, equal, zero, good, mine, product);
    SumIsGood(add, equal, zero, good, bigR, multiple);
    Transitive(add, equal, zero, good, bigS, all, add(mine, product));
    Symmetric(add, equal, zero, good, bigR, mine);
    Symmetric(add, equal, zero, good, multiple, product);
    SumsAgree(add, equal, zero, good, mine, bigR, product, multiple);
    Transitive(add, equal, zero, good, bigS, add(mine, product), add(bigR, multiple));
  }

  lemma KeyMultiple<P(!new)>(add: (P, P) -> P, equal: (P, P) -> bool, zero: P, good: iset<P>, a: nat, h: nat, base: P,
                             key: P, multiple: P)
    requires ActsAsMonoid(add, equal, zero, good) && base in good
    requires key in good && equal(key, Fold(add, zero, a, base))
    requires multiple in good && equal(multiple, Fold(add, zero, h, key))
    ensures equal(multiple, Fold(add, zero, h * a, base))
  {
    var q := Fold(add, zero, a, base);
    FoldIsGood(add, equal, zero, good, a, base);
    FoldIsGood(add, equal, zero, good, h, key);
    FoldIsGood(add, equal, zero, good, h, q);
    FoldIsGood(add, equal, zero, good, h * a, base);
    FoldRespects(add, equal, zero, good, h, key, q);
    FoldMultiplies(add, equal, zero, good, h, a, base);
    Transitive(add, equal, zero, good, multiple, Fold(add, zero, h, key), Fold(add, zero, h, q));
    Transitive(add, equal, zero, good, multiple, Fold(add, zero, h, q), Fold(add, zero, h * a, base));
  }

  lemma EquationHolds(sc: Scheme, a: nat, r: nat, h: nat, bigR: Point, key: Point)
    requires Works(sc) && IsPoint(sc.c, bigR) && IsPoint(sc.c, key)
    requires Equal(sc.c, bigR, Fold(Sum(sc.c), NEUTRAL, r, sc.base))
    requires Equal(sc.c, key, Fold(Sum(sc.c), NEUTRAL, a, sc.base))
    ensures Equal(sc.c, MultipleOf(sc.c, (r + h * a) % sc.order, sc.base), Add(sc.c, bigR, MultipleOf(sc.c, h, key)))
  {
    var s := (r + h * a) % sc.order;
    GroupIsMonoid(sc.c);
    TimesIsFold(sc.c, s, sc.base);
    TimesIsFold(sc.c, h, key);
    VerificationEquation(Sum(sc.c), Equality(sc.c), NEUTRAL, Points(sc.c), sc.order, a, r, h, sc.base,
                         MultipleOf(sc.c, s, sc.base), bigR, key, MultipleOf(sc.c, h, key));
  }

  lemma ScalarRoundTrip(s: nat)
    requires s < 2 * TWO_255
    ensures FromLittleEndian(ToLittleEndian(s, 32)) == s
  {
    ThirtyTwoBytes();
    LittleEndianDecodes(s, 32);
  }

  /** The check of a signature whose halves are known. */
  lemma VerifyOfHalves(sc: Scheme, public: seq<Byte>, message: seq<Byte>, half: seq<Byte>, s: nat, r: Point, key: Point)
    requires 0 < sc.order <= 2 * TWO_255 && s < sc.order && |public| == 32 && |half| == 32
    requires Decompress(sc.c, public) == Some(key) && Decompress(sc.c, half) == Some(r)
    requires Equal(sc.c, MultipleOf(sc.c, s, sc.base), Add(sc.c, r, MultipleOf(sc.c, Challenge(sc, half + public + message), key)))
    ensures Verify(sc, public, message, half + ToLittleEndian(s, 32))
  {
    var signature := half + ToLittleEndian(s, 32);
    assert signature[..32] == half && signature[32..] == ToLittleEndian(s, 32);
    ScalarRoundTrip(s);
  }

  lemma SignedHalvesVerify(sc: Scheme, a: nat, r: nat, h: nat, message: seq<Byte>, public: seq<Byte>, half: seq<Byte>)
    requires Works(sc)
    requires public == Compress(sc.c, MultipleOf(sc.c, a, sc.base)) && half == Compress(sc.c, MultipleOf(sc.c, r, sc.base))
    requires h == Challenge(sc, half + public + message)
    ensures Verify(sc, public, message, half + ToLittleEndian((r + h * a) % sc.order, 32))
  {
    DecodedMultiple(sc.c, a, sc.base);
    DecodedMultiple(sc.c, r, sc.base);
    var point, key := Decompress(sc.c, half).value, Decompress(sc.c, public).value;
    EquationHolds(sc, a, r, h, point, key);
    VerifyOfHalves(sc, public, message, half, (r + h * a) % sc.order, point, key);
  }

  lemma SignJoins(sc: Scheme, a: nat, prefix: seq<Byte>, message: seq<Byte>)
    requires sc.order > 0
    ensures var r := Challenge(sc, prefix + message);
            var half := Compress(sc.c, MultipleOf(sc.c, r, sc.base));
            Sign(sc, a, prefix, message)
            == half + ToLittleEndian((r + Challenge(sc, half + PublicKey(sc, a) + message) * a) % sc.order, 32)
  {
  }

  lemma SignedVerifies(sc: Scheme, a: nat, prefix: seq<Byte>, message: seq<Byte>, public: seq<Byte>, signature: seq<Byte>)
    requires Works(sc) && public == PublicKey(sc, a) && signature == Sign(sc, a, prefix, message)
    ensures Verify(sc, public, message, signature)
  {
    var r := Challenge(sc, prefix + message);
    var half := Compress(sc.c, MultipleOf(sc.c, r, sc.base));
    SignJoins(sc, a, prefix, message);
    SignedHalvesVerify(sc, a, r, Challenge(sc, half + public + message), message, public, half);
  }

  /** What was signed verifies, for every secret and every message. */
  lemma SignaturesVerify(sc: Scheme, a: nat, prefix: seq<Byte>, message: seq<Byte>)
    requires Works(sc)
    ensures Verify(sc, PublicKey(sc, a), message, Sign(sc, a, prefix, message))
  {
    SignedVerifies(sc, a, prefix, message, PublicKey(sc, a), Sign(sc, a, prefix, message));
  }

  // ---------- What is accepted ----------

  lemma AddsAgree(c: Field, x: Point, x': Point, r: Point, y: Point, y': Point)
    requires IsGroup(c) && IsPoint(c, x) && IsPoint(c, x') && IsPoint(c, r) && IsPoint(c, y) && IsPoint(c, y')
    requires Equal(c, x, x') && Equal(c, y, y')
    ensures Equal(c, x, Add(c, r, y)) <==> Equal(c, x', Add(c, r, y'))
  {
    EqualIsAnEquivalence(c, r, r, r);
    AddRespectsEqual(c, r, r, y, y');
    AdditionIsComplete(c, r, y);
    AdditionIsComplete(c, r, y');
    var sum, sum' := Add(c, r, y), Add(c, r, y');
    EqualIsAnEquivalence(c, x, x', sum');
    EqualIsAnEquivalence(c, x', x, sum);
    EqualIsAnEquivalence(c, x, sum, sum');
    EqualIsAnEquivalence(c, x', x, sum');
    EqualIsAnEquivalence(c, sum, sum', sum);
    EqualIsAnEquivalence(c, x, sum', sum);
  }

  /** s times the base point is R plus h times the key, with multiples as repeated additions. */
  ghost predicate GroupEquation(sc: Scheme, s: nat, r: Point, h: nat, key: Point) {
    Equal(sc.c, Fold(Sum(sc.c), NEUTRAL, s, sc.base), Add(sc.c, r, Fold(Sum(sc.c), NEUTRAL, h, key)))
  }

  /**
   A signature is accepted exactly when key and first half decode, the second half is below the order, and the group
   equation holds for the hash of first half, key and message.
   */
  lemma VerifiesIff(sc: Scheme, public: seq<Byte>, message: seq<Byte>, signature: seq<Byte>)
    requires Works(sc)
    ensures Verify(sc, public, message, signature) <==>
              && |public| == 32 && |signature| == 64
              && Decompress(sc.c, public).Some? && Decompress(sc.c, signature[..32]).Some?
              && FromLittleEndian(signature[32..]) < sc.order
              && GroupEquation(sc, FromLittleEndian(signature[32..]), Decompress(sc.c, signature[..32]).value,
                               sc.hash(signature[..32] + public + message) % sc.order, Decompress(sc.c, public).value)
  {
    var c := sc.c;
    if |public| == 32 && |signature| == 64 && Decompress(c, public).Some? && Decompress(c, signature[..32]).Some? {
      var key, r := Decompress(c, public).value, Decompress(c, signature[..32]).value;
      var s, h := FromLittleEndian(signature[32..]), Challenge(sc, signature[..32] + public + message);
      DecodesIff(c, public);
      DecodesIff(c, signature[..32]);
      EquationMeans(sc, s, r, h, key);
    }
  }

  lemma EquationMeans(sc: Scheme, s: nat, r: Point, h: nat, key: Point)
    requires Works(sc) && IsPoint(sc.c, r) && IsPoint(sc.c, key)
    ensures GroupEquation(sc, s, r, h, key)
       <==> Equal(sc.c, MultipleOf(sc.c, s, sc.base), Add(sc.c, r, MultipleOf(sc.c, h, key)))
  {
    var c := sc.c;
    GroupIsMonoid(c);
    TimesIsFold(c, s, sc.base);
    TimesIsFold(c, h, key);
    FoldIsGood(Sum(c), Equality(c), NEUTRAL, Points(c), s, sc.base);
    FoldIsGood(Sum(c), Equality(c), NEUTRAL, Points(c), h, key);
    AddsAgree(c, MultipleOf(c, s, sc.base), Fold(Sum(c), NEUTRAL, s, sc.base), r,
              MultipleOf(c, h, key), Fold(Sum(c), NEUTRAL, h, key));
  }

  // ---------- One second half ----------

  lemma EqualTimes(sc: Scheme, s: nat, t: nat, q: Point)
    requires Works(sc) && HasLeastOrder(sc) && IsPoint(sc.c, q) && s < sc.order && t < sc.order
    requires Equal(sc.c, MultipleOf(sc.c, s, sc.base), q) && Equal(sc.c, MultipleOf(sc.c, t, sc.base), q)
    ensures s == t
  {
    var c := sc.c;
    var f, g := Fold(Sum(c), NEUTRAL, s, sc.base), Fold(Sum(c), NEUTRAL, t, sc.base);
    GroupIsMonoid(c);
    TimesIsFold(c, s, sc.base);
    TimesIsFold(c, t, sc.base);
    FoldIsGood(Sum(c), Equality(c), NEUTRAL, Points(c), s, sc.base);
    FoldIsGood(Sum(c), Equality(c), NEUTRAL, Points(c), t, sc.base);
    var x, y := MultipleOf(c, s, sc.base), MultipleOf(c, t, sc.base);
    EqualIsAnEquivalence(c, x, f, x);
    EqualIsAnEquivalence(c, y, q, y);
    EqualIsAnEquivalence(c, f, x, q);
    EqualIsAnEquivalence(c, f, q, y);
    EqualIsAnEquivalence(c, f, y, g);
    EqualIsAnEquivalence(c, f, g, f);
    if s < t {
      EqualMultiples(Sum(c), Equality(c), NEUTRAL, Points(c), sc.order, s, t, sc.base);
    } else if t < s {
      EqualMultiples(Sum(c), Equality(c), NEUTRAL, Points(c), sc.order, t, s, sc.base);
    }
  }

  /** Two accepted signatures of one message under one key that share their first half are the same. */
  lemma SecondHalfIsUnique(sc: Scheme, public: seq<Byte>, message: seq<Byte>, one: seq<Byte>, two: seq<Byte>)
    requires Works(sc) && HasLeastOrder(sc)
    requires Verify(sc, public, message, one) && Verify(sc, public, message, two) && one[..32] == two[..32]
    ensures one == two
  {
    var c := sc.c;
    var key, r := Decompress(c, public).value, Decompress(c, one[..32]).value;
    var h := Challenge(sc, one[..32] + public + message);
    DecodesIff(c, public);
    DecodesIff(c, one[..32]);
    TimesIsFold(c, h, key);
    AdditionIsComplete(c, r, MultipleOf(c, h, key));
    EqualTimes(sc, FromLittleEndian(one[32..]), FromLittleEndian(two[32..]), Add(c, r, MultipleOf(c, h, key)));
    LittleEndianRoundTrip(one[32..]);
    LittleEndianRoundTrip(two[32..]);
    assert one == one[..32] + one[32..] && two == two[..32] + two[32..];
  }
}
