/** Conversions between share difficulty, target and hash value. */
module Difficulty {
  import opened Rounding

  /** Precision of float64, and of every big.Float made from one. */
  const DOUBLE: nat := 53

  /** big.Float.Quo into a result of the given precision. */
  function Quo(precision: nat, x: Positive, y: Positive): Positive
    requires precision > 0
  {
    QuotientPositive(x, y);
    Round(precision, x / y)
  }

  /** big.Float.Mul into a result of the given precision. */
  function Mul(precision: nat, x: Positive, y: Positive): Positive
    requires precision > 0
  {
    Round(precision, Product(x, y))
  }

  function Product(x: Positive, y: Positive): (p: Positive)
    ensures p == x * y
  {
    ProductPositive(x, y);
    x * y
  }

  lemma QuotientPositive(x: Positive, y: Positive)
    ensures x / y > 0.0
  {
    DivMul(x, y);
    if x / y <= 0.0 {
      MulLe(x / y, 0.0, y);
    }
  }

  /** big.NewFloat of a literal with 224 one bits. */
  function MaxTarget(): Positive {
    LiteralAbove(223);
    Round(DOUBLE, Pow2(224) - 1.0)
  }

  function MinHash(): Positive {
    Quo(DOUBLE, Pow2(256), MaxTarget())
  }

  const BIG_GIG: Positive := 1000000000.0

  lemma LiteralAbove(k: nat)
    ensures Pow2(k + 1) - 1.0 >= Pow2(k) >= 1.0
  {
    hide *;
    Pow2Step(k);
    Pow2Monotone(0, k);
    PowZero();
  }

  lemma PowZero()
    ensures Pow2(0) == 1.0
  {
  }

  /** DiffToTarget: a 53-bit quotient, truncated to an integer. */
  function DiffToTarget(diff: Positive): int {
    Quo(DOUBLE, MaxTarget(), diff).Floor
  }

  /** DiffToHash: scale by minHash, divide by 10^9, each step rounded to 53 bits. */
  function DiffToHash(diff: Positive): real {
    Quo(DOUBLE, Mul(DOUBLE, MinHash(), diff), BIG_GIG)
  }

  datatype KaspaDiff = KaspaDiff(hashValue: real, diffValue: real, targetValue: int)

  /** SetDiffValue on a fresh KaspaDiff. */
  function MakeDiff(diff: Positive): KaspaDiff {
    KaspaDiff(DiffToHash(diff), diff, DiffToTarget(diff))
  }

  datatype Float64 = Finite(value: real) | Infinite

  /** Precision of the big.Float that holds 2^255. */
  const NUMERATOR: nat := 256

  /** BigDiffToLittle: a 256-bit quotient, divided by 2^31 and rounded to a float64. */
  function BigDiffToLittle(diff: nat): Float64 {
    if diff == 0 then Infinite
    else Finite(Round(DOUBLE, Quo(NUMERATOR, Quo(NUMERATOR, Pow2(255), diff as real), Pow2(31))))
  }

  // ---------- targets ----------

  /** The constant, rounded from the literal, is exactly 2^224. */
  lemma MaxTargetIsPowerOfTwo()
    ensures MaxTarget() == Pow2(224)
  {
    hide Pow2, Round, RoundEven, Ulp, Snap;
    LiteralAbove(223);
    var x: Positive := Pow2(224) - 1.0;
    Pow2Monotone(224 - 53, 224);
    BinadeUnique(x, 223);
    RoundUpToPower(x, 224);
  }

  /** One less than a power of two rounds up to it when the last place is worth four or more. */
  lemma RoundUpToPower(x: Positive, k: int)
    requires k >= DOUBLE + 2 && x == Pow2(k) - 1.0 && Binade(x) == k - 1
    ensures Round(DOUBLE, x) == Pow2(k)
  {
    hide Pow2, RoundEven;
    var u := Ulp(DOUBLE, x);
    var n := Pow2InUlps(k, k - DOUBLE);
    Pow2Monotone(2, k - DOUBLE);
    PowTwo();
    SnapNearest(x, u, n, Pow2(k));
    WholeUnitsApart(RoundEven(x / u), n, u, Snap(x, u), Pow2(k));
  }

  lemma PowTwo()
    ensures Pow2(2) == 4.0
  {
    Pow2Step(0);
    Pow2Step(1);
    PowZero();
  }

  lemma QuotientBelow(a: real, b: real, c: real, d: Positive)
    requires b * d <= a && c == a / d
    ensures b <= c
  {
    DivMul(a, d);
    if c < b {
      MulLt(c, b, d);
    }
  }

  /** From 2^(p-1) on, numbers of p bits are whole. */
  lemma RoundIsWhole(p: nat, x: Positive)
    requires p > 0 && x >= Pow2(p - 1)
    ensures Round(p, x).Floor as real == Round(p, x) >= Pow2(p - 1)
  {
    hide Pow2, Round;
    if Binade(x) < p - 1 {
      Pow2Monotone(Binade(x) + 1, p - 1);
    }
    Pow2Monotone(p - 1, Binade(x));
    var n := RoundInUlps(p, x);
    var scale := Pow2IsInt(Binade(x) - p + 1);
    WholeProduct(n, scale, Round(p, x));
  }

  lemma RoundInUlps(p: nat, x: Positive) returns (n: int)
    requires p > 0
    ensures Round(p, x) == n as real * Pow2(Binade(x) - p + 1) >= Pow2(Binade(x))
  {
    hide Pow2, RoundEven;
    SnapStaysInBinade(p, x);
    n := RoundEven(x / Ulp(p, x));
  }

  /** Up to difficulty 2^172 the rounded quotient is an integer, so truncating it loses nothing. */
  lemma TruncationLosesNothing(diff: Positive)
    requires diff <= Pow2(172)
    ensures DiffToTarget(diff) as real == Quo(DOUBLE, Pow2(224), diff) >= Pow2(52)
  {
    hide Pow2, Round, MaxTarget;
    MaxTargetIsPowerOfTwo();
    QuotientPositive(Pow2(224), diff);
    Pow2Add(172, 52);
    MulLe(diff, Pow2(172), Pow2(52));
    QuotientBelow(Pow2(224), Pow2(52), Pow2(224) / diff, diff);
    RoundIsWhole(DOUBLE, Pow2(224) / diff);
  }

  lemma WholeProduct(n: int, k: int, x: real)
    requires x == n as real * k as real
    ensures x.Floor as real == x
  {
    assert x == (n * k) as real;
  }

  /** t * d misses 2^224 by at most 2^171. */
  lemma TargetAccuracy(diff: Positive)
    requires diff <= Pow2(172)
    ensures Abs(DiffToTarget(diff) as real * diff - Pow2(224)) <= Pow2(171)
  {
    hide Pow2, Quo, DiffToTarget;
    TruncationLosesNothing(diff);
    QuoAccuracy(DOUBLE, Pow2(224), diff, DiffToTarget(diff) as real);
    Pow2Add(224, 0 - 53);
  }

  /** A quotient rounded to p bits, multiplied back, misses the dividend by at most 2^-p of it. */
  lemma QuoAccuracy(p: nat, n: Positive, d: Positive, q: real)
    requires p > 0 && q == Quo(p, n, d)
    ensures -(n * Pow2(0 - p)) <= q * d - n <= n * Pow2(0 - p)
  {
    hide Pow2, Round, Abs;
    QuotientPositive(n, d);
    var x: Positive := n / d;
    RoundError(p, x);
    DivMul(n, d);
    ScaledError(q, x, d, Pow2(0 - p), n);
  }

  lemma ScaledError(r: real, x: real, d: Positive, eps: real, n: real)
    requires Abs(r - x) <= x * eps && x * d == n
    ensures -(n * eps) <= r * d - n <= n * eps
  {
    MulLe(r - x, x * eps, d);
    MulLe(-(x * eps), r - x, d);
    assert (r - x) * d == r * d - n;
    assert (x * eps) * d == n * eps;
  }

  lemma SmallerQuotient(n: Positive, a: Positive, b: Positive)
    requires a <= b
    ensures 0.0 < n / b <= n / a
  {
    QuotientPositive(n, a);
    QuotientPositive(n, b);
    DivMul(n, a);
    DivMul(n, b);
    if n / a < n / b {
      MulLt(n / a, n / b, a);
      MulLe(a, b, n / b);
    }
  }

  /** A larger difficulty never gives a larger target. */
  lemma TargetAntitone(a: Positive, b: Positive)
    requires a <= b
    ensures DiffToTarget(b) <= DiffToTarget(a)
  {
    hide Round, MaxTarget;
    SmallerQuotient(MaxTarget(), a, b);
    RoundMonotone(DOUBLE, MaxTarget() / b, MaxTarget() / a);
  }

  // ---------- back to a difficulty ----------

  /** r differs from x by at most the fraction eps of x. */
  predicate Near(r: real, x: real, eps: real) {
    -(x * eps) <= r - x <= x * eps
  }

  lemma RoundIsNear(p: nat, x: Positive, eps: real)
    requires p > 0 && eps == Pow2(0 - p)
    ensures Near(Round(p, x), x, eps)
  {
    hide Pow2, Round;
    RoundError(p, x);
  }

  /** The bound that Near puts on a difference, with the product named. */
  lemma NearBounds(r: real, x: real, eps: real, xe: real)
    requires xe == x * eps
    ensures Near(r, x, eps) <==> -xe <= r - x <= xe
  {
  }

  lemma NearScaled(r: real, x: real, eps: real, c: Positive, r': real, x': real)
    requires Near(r, x, eps) && r' == r / c && x' == x / c
    ensures Near(r', x', eps)
  {
    hide Near;
    var e, e' := x * eps, x' * eps;
    DivMul(r, c);
    DivMul(x, c);
    MulSwap(x', eps, c, x);
    MulMinus(r', x', c);
    NearBounds(r, x, eps, e);
    Bracket(r' - x', e', c, r - x, e);
    NearBounds(r', x', eps, e');
  }

  lemma MulMinus(a: real, b: real, c: real)
    ensures (a - b) * c == a * c - b * c
  {
  }

  lemma MulSwap(a: real, b: real, c: real, ac: real)
    requires a * c == ac
    ensures (a * b) * c == ac * b
  {
    MulAssoc(a, b, c);
    MulAssoc(a, c, b);
  }

  /** Cancelling a positive factor from a two-sided bound. */
  lemma Bracket(d: real, e: real, c: Positive, dc: real, ec: real)
    requires d * c == dc && e * c == ec && -ec <= dc <= ec
    ensures -e <= d <= e
  {
    if d > e {
      MulLt(e, d, c);
    }
    if d < -e {
      MulLt(d, -e, c);
    }
  }

  lemma Fraction(x: Positive, a: real, xa: real)
    requires a <= 1.0 && xa == x * a
    ensures xa <= x
  {
    MulLe(a, 1.0, x);
  }

  lemma AtMostDouble(y: real, x: real, xa: real)
    requires -xa <= y - x <= xa && xa <= x
    ensures y <= 2.0 * x
  {
  }

  lemma Doubled(y: real, x: real, b: real, yb: real, xb: real)
    requires y <= 2.0 * x && 0.0 <= b && yb == y * b && xb == x * b
    ensures yb <= 2.0 * xb
  {
    MulLe(y, 2.0 * x, b);
    MulAssoc(2.0, x, b);
  }

  /** Two near steps one after the other. */
  lemma NearChain(r: real, x: Positive, y: real, a: real, b: real)
    requires Near(y, x, a) && Near(r, y, b) && 0.0 <= a <= 1.0 && 0.0 <= b
    ensures Near(r, x, a + 2.0 * b)
  {
    hide Near;
    var xa, xb, yb, total := x * a, x * b, y * b, x * (a + 2.0 * b);
    NearBounds(y, x, a, xa);
    NearBounds(r, y, b, yb);
    Fraction(x, a, xa);
    AtMostDouble(y, x, xa);
    Doubled(y, x, b, yb, xb);
    SplitBound(x, a, b);
    ChainLinear(r, x, y, xa, xb, yb, total);
    NearBounds(r, x, a + 2.0 * b, total);
  }

  lemma SplitBound(x: real, a: real, b: real)
    ensures x * (a + 2.0 * b) == x * a + 2.0 * (x * b)
  {
  }

  lemma ChainLinear(r: real, x: real, y: real, xa: real, xb: real, yb: real, total: real)
    requires -xa <= y - x <= xa && -yb <= r - y <= yb && yb <= 2.0 * xb && total == xa + 2.0 * xb
    ensures -total <= r - x <= total
  {
  }

  /** The quotient 2^224 / t is near the difficulty that t was made from. */
  lemma DifficultyNearQuotient(diff: Positive, t: Positive, g: real)
    requires diff <= Pow2(172) && t == DiffToTarget(diff) as real && g == Pow2(224) / t
    ensures Near(diff, g, Pow2(0 - 53))
  {
    hide Pow2, DiffToTarget, Abs, Quo;
    TruncationLosesNothing(diff);
    QuoAccuracy(DOUBLE, Pow2(224), diff, t);
    DivMul(Pow2(224), t);
    var eps := Pow2(0 - 53);
    DivideBack(diff, t, g, Pow2(224), eps);
  }

  lemma DivideBack(d: real, t: Positive, g: real, n: real, eps: real)
    requires g * t == n && -(n * eps) <= t * d - n <= n * eps
    ensures Near(d, g, eps)
  {
    hide Near;
    var e, ge := n * eps, g * eps;
    MulSwap(g, eps, t, n);
    MulMinus(d, g, t);
    Bracket(d - g, ge, t, t * d - n, e);
    NearBounds(d, g, eps, ge);
  }

  lemma QuotientByPowers(t: Positive)
    ensures (Pow2(255) / t) / Pow2(31) == Pow2(224) / t
  {
    hide Pow2;
    Pow2Add(224, 31);
    DivMul(Pow2(224), t);
    var g := Pow2(224) / t;
    MulAssoc(g, Pow2(31), t);
    MulAssoc(g, t, Pow2(31));
    DivMul(g * Pow2(31), t);
    DivMul(g, Pow2(31));
    assert Pow2(255) == (g * Pow2(31)) * t;
  }

  /** Every step of BigDiffToLittle stays near 2^224 / t. */
  lemma LittleNearQuotient(t: nat, g: real)
    requires t > 0 && g == Pow2(224) / t as real
    ensures BigDiffToLittle(t).Finite?
    ensures Near(BigDiffToLittle(t).value, g, 3.0 * Pow2(0 - 256) + 2.0 * Pow2(0 - 53))
  {
    hide Pow2, Round, Near;
    var eta, eps := Pow2(0 - 256), Pow2(0 - 53);
    var y1: Positive := (QuotientPositive(Pow2(255), t as real); Pow2(255) / t as real);
    var q1 := Quo(NUMERATOR, Pow2(255), t as real);
    var y2: Positive := (QuotientPositive(q1, Pow2(31)); q1 / Pow2(31));
    var q2 := Quo(NUMERATOR, q1, Pow2(31));
    QuotientPositive(Pow2(224), t as real);
    RoundIsNear(NUMERATOR, y1, eta);
    QuotientByPowers(t as real);
    NearScaled(q1, y1, eta, Pow2(31), y2, g);
    RoundIsNear(NUMERATOR, y2, eta);
    SmallPowers();
    NearChain(q2, g, y2, eta, eta);
    RoundIsNear(DOUBLE, q2, eps);
    NearChain(Round(DOUBLE, q2), g, q2, eta + 2.0 * eta, eps);
  }

  lemma SmallPowers()
    ensures 8.0 * Pow2(0 - 256) <= Pow2(0 - 53) <= 0.015625
  {
    hide Pow2;
    Pow2Monotone(0 - 256, 0 - 56);
    Pow2Step(0 - 56);
    Pow2Step(0 - 55);
    Pow2Step(0 - 54);
    Pow2Monotone(0 - 53, 0 - 6);
    Pow2Step(0 - 6);
    Pow2Step(0 - 5);
    Pow2Step(0 - 4);
    Pow2Step(0 - 3);
    Pow2Step(0 - 2);
    Pow2Step(0 - 1);
    PowZero();
  }

  lemma CloseLinear(f: real, d: real, g: real, e: real, h: real, de: real)
    requires -e <= d - g <= e && -(3.0 * h + 2.0 * e) <= f - g <= 3.0 * h + 2.0 * e
    requires 8.0 * h <= e && 0.0 < e && 0.984375 * e <= de
    ensures -(4.0 * de) < f - d < 4.0 * de
  {
  }

  lemma SlightlySmaller(g: real, eps: real, d: real, e: real, de: real)
    requires 0.0 < eps <= 0.015625 && 0.0 < g && e == g * eps && de == d * eps && -e <= d - g <= e
    ensures 0.0 < e && 0.984375 * e <= de
  {
    MulLt(0.0, g, eps);
    MulLe(eps, 0.015625, g);
    MulLe(0.984375 * g, d, eps);
    MulAssoc(0.984375, g, eps);
  }

  lemma Distribute(g: real, eta: real, eps: real)
    ensures g * (3.0 * eta + 2.0 * eps) == 3.0 * (g * eta) + 2.0 * (g * eps)
  {
    MulThree(g, eta);
    SplitBound(g, 3.0 * eta, eps);
  }

  lemma MulThree(g: real, eta: real)
    ensures g * (3.0 * eta) == 3.0 * (g * eta)
  {
  }

  lemma EighthOf(g: Positive, eta: real, eps: real, h: real, e: real)
    requires 8.0 * eta <= eps && h == g * eta && e == g * eps
    ensures 8.0 * h <= e
  {
    MulLe(8.0 * eta, eps, g);
    MulAssoc(8.0, eta, g);
  }

  lemma NearSum(f: real, g: real, eta: real, eps: real, h: real, e: real)
    requires Near(f, g, 3.0 * eta + 2.0 * eps) && h == g * eta && e == g * eps
    ensures -(3.0 * h + 2.0 * e) <= f - g <= 3.0 * h + 2.0 * e
  {
    hide Near;
    Distribute(g, eta, eps);
    NearBounds(f, g, 3.0 * eta + 2.0 * eps, 3.0 * h + 2.0 * e);
  }

  lemma CloseTogether(f: real, d: real, g: Positive, eta: real, eps: real, e: real, h: real, de: real)
    requires Near(d, g, eps) && Near(f, g, 3.0 * eta + 2.0 * eps)
    requires 0.0 < 8.0 * eta <= eps <= 0.015625
    requires e == g * eps && h == g * eta && de == d * eps
    ensures -(4.0 * de) < f - d < 4.0 * de
  {
    hide Near;
    NearBounds(d, g, eps, e);
    NearSum(f, g, eta, eps, h, e);
    EighthOf(g, eta, eps, h, e);
    SlightlySmaller(g, eps, d, e, de);
    hide *;
    CloseLinear(f, d, g, e, h, de);
  }

  /** Converting a difficulty to a target and back misses it by less than 2^-51 of itself. */
  lemma DifficultyRoundTrip(diff: Positive)
    requires diff <= Pow2(172)
    ensures DiffToTarget(diff) > 0 && BigDiffToLittle(DiffToTarget(diff)).Finite?
    ensures Abs(BigDiffToLittle(DiffToTarget(diff)).value - diff) < diff * Pow2(0 - 51)
  {
    hide Pow2, DiffToTarget, BigDiffToLittle, Near;
    TruncationLosesNothing(diff);
    var t := DiffToTarget(diff);
    QuotientPositive(Pow2(224), t as real);
    var g: Positive := Pow2(224) / t as real;
    DifficultyNearQuotient(diff, t as real, g);
    LittleNearQuotient(t, g);
    SmallPowers();
    var eta, eps := Pow2(0 - 256), Pow2(0 - 53);
    CloseTogether(BigDiffToLittle(t).value, diff, g, eta, eps, g * eps, g * eta, diff * eps);
    Pow2Step(0 - 53);
    Pow2Step(0 - 52);
    FourTimes(diff, Pow2(0 - 53), Pow2(0 - 51));
  }

  lemma FourTimes(d: real, eps: real, eps4: real)
    requires eps4 == 4.0 * eps
    ensures d * eps4 == 4.0 * (d * eps)
  {
  }

  /** So every whole difficulty up to 2^50 comes back exactly when rounded to the nearest integer. */
  lemma WholeDifficultyRecovered(d: nat)
    requires 0 < d && d as real <= Pow2(50)
    ensures BigDiffToLittle(DiffToTarget(d as real)).Finite?
    ensures RoundEven(BigDiffToLittle(DiffToTarget(d as real)).value) == d
  {
    hide Pow2, DiffToTarget, BigDiffToLittle, RoundEven;
    Pow2Monotone(50, 172);
    DifficultyRoundTrip(d as real);
    MulLe(d as real, Pow2(50), Pow2(0 - 51));
    Pow2Add(50, 0 - 51);
    Pow2Step(0 - 1);
    PowZero();
    assert d as real * Pow2(0 - 51) <= 0.5;
    OnlyInteger(BigDiffToLittle(DiffToTarget(d as real)).value, d);
  }

  lemma OnlyInteger(x: real, n: int)
    requires Abs(x - n as real) < 0.5
    ensures RoundEven(x) == n
  {
  }

  // ---------- hash values ----------

  lemma QuotientIs(x: real, y: real, q: real)
    requires y > 0.0 && x == q * y
    ensures x / y == q
  {
    DivMul(q, y);
  }

  /** minHash is exactly 2^32. */
  lemma MinHashIsPowerOfTwo()
    ensures MinHash() == Pow2(32)
  {
    hide Pow2, Round, MaxTarget, IsFloat;
    MaxTargetIsPowerOfTwo();
    Pow2Add(32, 224);
    QuotientIs(Pow2(256), Pow2(224), Pow2(32));
    Pow2IsFloat(DOUBLE, 32);
    RoundExact(DOUBLE, Pow2(32));
  }

  lemma ProductWithPower(diff: Positive)
    requires IsFloat(DOUBLE, diff)
    ensures Mul(DOUBLE, Pow2(32), diff) == Product(Pow2(32), diff)
  {
    hide Pow2, Round, IsFloat, Product;
    RoundExact(DOUBLE, diff);
    RoundScale(DOUBLE, diff, 32, Product(Pow2(32), diff));
  }

  /** For a float64 difficulty the product is exact, so the hash value is 2^32 * d / 10^9 rounded once. */
  lemma HashValueRoundedOnce(diff: Positive)
    requires IsFloat(DOUBLE, diff)
    ensures DiffToHash(diff) == Quo(53, Product(Pow2(32), diff), 1000000000.0)
  {
    hide Pow2, MinHash, IsFloat, Quo, Mul, Product;
    MinHashIsPowerOfTwo();
    ProductWithPower(diff);
  }

  /** A share difficulty holds the number it was made from, its target, and 2^32 * d / 10^9 rounded once. */
  lemma DiffFields(diff: Positive)
    requires IsFloat(DOUBLE, diff)
    ensures var k := MakeDiff(diff);
            && k.diffValue == diff
            && k.targetValue == DiffToTarget(diff)
            && k.hashValue == Quo(53, Product(Pow2(32), diff), 1000000000.0)
  {
    hide Pow2, IsFloat, DiffToTarget, DiffToHash, Quo, Product;
    HashValueRoundedOnce(diff);
  }

  lemma MulMonotone(x: Positive, a: Positive, b: Positive)
    requires a <= b
    ensures Mul(DOUBLE, x, a) <= Mul(DOUBLE, x, b)
  {
    hide Round;
    MulLe(a, b, x);
    RoundMonotone(DOUBLE, Product(x, a), Product(x, b));
  }

  lemma QuoMonotone(a: Positive, b: Positive, y: Positive)
    requires a <= b
    ensures Quo(DOUBLE, a, y) <= Quo(DOUBLE, b, y)
  {
    hide Round;
    QuotientPositive(a, y);
    QuotientPositive(b, y);
    DivLe(a, b, y);
    RoundMonotone(DOUBLE, a / y, b / y);
  }

  /** A larger difficulty never has a smaller hash value. */
  lemma HashValueMonotone(a: Positive, b: Positive)
    requires a <= b
    ensures DiffToHash(a) <= DiffToHash(b)
  {
    hide Mul, Quo, MinHash;
    MulMonotone(MinHash(), a, b);
    QuoMonotone(Mul(DOUBLE, MinHash(), a), Mul(DOUBLE, MinHash(), b), BIG_GIG);
  }
}
