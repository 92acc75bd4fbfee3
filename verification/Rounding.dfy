/** Binary floating point as exact reals plus one explicit operation: rounding to nearest, ties to even. */
module Rounding {

  type Positive = x: real | x > 0.0 witness 1.0

  // ---------- powers of two ----------

  function Pow2(e: int): Positive
    decreases if e < 0 then -e else e
  {
    if e == 0 then 1.0 else if e > 0 then 2.0 * Pow2(e - 1) else Pow2(e + 1) / 2.0
  }

  lemma Pow2Step(e: int)
    ensures Pow2(e + 1) == 2.0 * Pow2(e)
  {
  }

  /** Multiplication under a name, so that recursion over powers stays out of nonlinear arithmetic. */
  function Times(x: real, y: real): real {
    x * y
  }

  lemma DoubleProduct(p2: real, p: real, q: real, r2: real, r: real)
    requires p2 == 2.0 * p && r2 == 2.0 * r
    ensures r == Times(p, q) <==> r2 == Times(p2, q)
  {
  }

  lemma {:induction false} Pow2Times(a: int, b: int)
    ensures Pow2(a + b) == Times(Pow2(a), Pow2(b))
    decreases if a < 0 then -a else a
  {
    if a > 0 {
      Pow2Times(a - 1, b);
      Pow2Step(a - 1);
      Pow2Step(a - 1 + b);
      DoubleProduct(Pow2(a), Pow2(a - 1), Pow2(b), Pow2(a + b), Pow2(a - 1 + b));
    } else if a < 0 {
      Pow2Times(a + 1, b);
      Pow2Step(a);
      Pow2Step(a + b);
      DoubleProduct(Pow2(a + 1), Pow2(a), Pow2(b), Pow2(a + 1 + b), Pow2(a + b));
    }
  }

  lemma Pow2Add(a: int, b: int)
    ensures Pow2(a + b) == Pow2(a) * Pow2(b)
  {
    hide Pow2;
    Pow2Times(a, b);
  }

  lemma {:induction false} Pow2Monotone(a: int, b: int)
    requires a <= b
    ensures Pow2(a) <= Pow2(b)
    decreases b - a
  {
    if a < b {
      Pow2Monotone(a, b - 1);
      Pow2Step(b - 1);
    }
  }

  /** Powers of two counted in the integers. */
  function IntPow2(n: nat): nat {
    if n == 0 then 1 else 2 * IntPow2(n - 1)
  }

  lemma DoubleInt(j: int, x: real, k: int, y: real)
    requires j as real == x && k == 2 * j && y == 2.0 * x
    ensures k as real == y
  {
  }

  lemma {:induction false} IntPow2IsPow2(n: nat)
    ensures IntPow2(n) as real == Pow2(n)
  {
    if n > 0 {
      IntPow2IsPow2(n - 1);
      DoubleInt(IntPow2(n - 1), Pow2(n - 1), IntPow2(n), Pow2(n));
    }
  }

  lemma Pow2IsInt(n: nat) returns (k: nat)
    ensures k as real == Pow2(n)
  {
    hide Pow2;
    IntPow2IsPow2(n);
    k := IntPow2(n);
  }

  // ---------- real arithmetic ----------

  lemma MulAssoc(x: real, y: real, z: real)
    ensures (x * y) * z == x * (y * z)
  {
  }

  lemma MulLe(x: real, y: real, z: real)
    requires x <= y && z >= 0.0
    ensures x * z <= y * z
  {
  }

  lemma MulLt(x: real, y: real, z: real)
    requires x < y && z > 0.0
    ensures x * z < y * z
  {
  }

  lemma DivMul(x: real, y: real)
    requires y != 0.0
    ensures (x / y) * y == x
    ensures (x * y) / y == x
  {
  }

  lemma DivLe(x: real, y: real, z: real)
    requires x <= y && z > 0.0
    ensures x / z <= y / z
  {
    DivMul(x, z);
    DivMul(y, z);
    if x / z > y / z {
      MulLt(y / z, x / z, z);
    }
  }

  function Abs(x: real): (a: real)
    ensures a >= 0.0
  {
    if x < 0.0 then -x else x
  }

  // ---------- rounding to an integer ----------

  /** The integer nearest to x; halfway between two integers, the even one. */
  function RoundEven(x: real): (n: int)
    ensures Abs(n as real - x) <= 0.5
    ensures Abs(n as real - x) == 0.5 ==> n % 2 == 0
  {
    var f := x.Floor;
    var frac := x - f as real;
    if frac < 0.5 then f else if frac > 0.5 then f + 1 else if f % 2 == 0 then f else f + 1
  }

  lemma RoundEvenOfInt(n: int)
    ensures RoundEven(n as real) == n
  {
  }

  lemma RoundEvenMonotone(x: real, y: real)
    requires x <= y
    ensures RoundEven(x) <= RoundEven(y)
  {
  }

  // ---------- rounding to a precision ----------

  function BinadeUp(x: real): (e: int)
    requires x >= 1.0
    ensures e >= 0 && Pow2(e) <= x < Pow2(e + 1)
    decreases x.Floor
  {
    if x < 2.0 then 0 else
      var e := BinadeUp(x / 2.0);
      Pow2Step(e);
      Pow2Step(e + 1);
      e + 1
  }

  function BinadeDown(x: real): (e: int)
    requires 0.0 < x < 1.0
    ensures Pow2(e) <= x < Pow2(e + 1)
    decreases (1.0 / x).Floor
  {
    Halving(x);
    if x >= 0.5 then -1 else
      var e := BinadeDown(2.0 * x);
      Pow2Step(e);
      Pow2Step(e - 1);
      e - 1
  }

  lemma Halving(x: real)
    requires 0.0 < x < 1.0
    ensures 1.0 / x > 1.0
    ensures 1.0 / (2.0 * x) == (1.0 / x) / 2.0
    ensures (1.0 / (2.0 * x)).Floor < (1.0 / x).Floor
    ensures 0 <= (1.0 / x).Floor
  {
    var y := 1.0 / x;
    DivMul(1.0, x);
    if y <= 1.0 {
      MulLe(y, 1.0, x);
    }
    var z := 1.0 / (2.0 * x);
    DivMul(1.0, 2.0 * x);
    assert (2.0 * z) * x == 1.0;
    assert 2.0 * z == y by {
      if 2.0 * z < y { MulLt(2.0 * z, y, x); }
      if 2.0 * z > y { MulLt(y, 2.0 * z, x); }
    }
    assert y / 2.0 == z;
  }

  /** The exponent of x: the one e with 2^e <= x < 2^(e+1). */
  function Binade(x: Positive): (e: int)
    ensures Pow2(e) <= x < Pow2(e + 1)
  {
    if x >= 1.0 then BinadeUp(x) else BinadeDown(x)
  }

  lemma BinadeUnique(x: Positive, e: int)
    requires Pow2(e) <= x < Pow2(e + 1)
    ensures Binade(x) == e
  {
    if Binade(x) < e {
      Pow2Monotone(Binade(x) + 1, e);
    } else if Binade(x) > e {
      Pow2Monotone(e + 1, Binade(x));
    }
  }

  lemma BinadeMonotone(x: Positive, y: Positive)
    requires x <= y
    ensures Binade(x) <= Binade(y)
  {
    if Binade(y) < Binade(x) {
      Pow2Monotone(Binade(y) + 1, Binade(x));
    }
  }

  /** The weight of the last of p significand bits of x. */
  function Ulp(p: int, x: Positive): Positive {
    Pow2(Binade(x) - p + 1)
  }

  /** The whole multiple of u nearest to x. */
  function Snap(x: real, u: real): real
    requires u > 0.0
  {
    RoundEven(x / u) as real * u
  }

  /** x can be written with p significand bits. */
  ghost predicate IsFloat(p: nat, x: real) {
    exists m: nat, k: int :: Significand(p, x, m, k)
  }

  predicate Significand(p: nat, x: real, m: nat, k: int) {
    m as real < Pow2(p) && x == m as real * Pow2(k)
  }

  // ---------- multiples of a unit ----------

  lemma TimesUnit(lo: real, q: real, hi: real, x: real, u: real)
    requires u > 0.0 && q * u == x && lo <= q <= hi
    ensures lo * u <= x <= hi * u
  {
    MulLe(lo, q, u);
    MulLe(q, hi, u);
  }

  lemma SnapError(x: real, u: real)
    requires u > 0.0
    ensures 2.0 * Abs(Snap(x, u) - x) <= u
  {
    var n, q := RoundEven(x / u) as real, x / u;
    DivMul(x, u);
    var lo, s, hi := (n - 0.5) * u, n * u, (n + 0.5) * u;
    TimesUnit(n - 0.5, q, n + 0.5, x, u);
    HalfUnits(n, u);
    HalfBound(s, lo, hi, x, u);
  }

  lemma HalfUnits(n: real, u: real)
    ensures (n - 0.5) * u == n * u - 0.5 * u
    ensures (n + 0.5) * u == n * u + 0.5 * u
  {
    MulPlus(n, 0.5, u);
    MulPlus(n - 0.5, 0.5, u);
  }

  lemma MulPlus(a: real, b: real, c: real)
    ensures (a + b) * c == a * c + b * c
  {
  }

  lemma HalfBound(s: real, lo: real, hi: real, x: real, u: real)
    requires lo == s - 0.5 * u && hi == s + 0.5 * u && lo <= x <= hi
    ensures 2.0 * Abs(s - x) <= u
  {
    var d, half := s - x, 0.5 * u;
    assert -half <= d <= half && u == half + half;
  }

  lemma WholeUnitsApart(r: int, n: int, u: real, s: real, y: real)
    requires u > 0.0 && s == r as real * u && y == n as real * u
    ensures y == s || y >= s + u || y <= s - u
  {
    if n > r {
      UnitApart(r as real, n as real, u, s, y);
    } else if n < r {
      UnitApart(n as real, r as real, u, y, s);
    }
  }

  lemma UnitApart(a: real, b: real, u: real, s: real, y: real)
    requires u > 0.0 && a + 1.0 <= b && s == a * u && y == b * u
    ensures y >= s + u && s <= y - u
  {
    UnitMore(a, u);
    MulLe(a + 1.0, b, u);
  }

  lemma UnitMore(x: real, u: real)
    ensures (x + 1.0) * u == x * u + u
  {
  }

  /** No whole multiple of u is nearer to x. */
  lemma SnapNearest(x: real, u: real, n: int, y: real)
    requires u > 0.0 && y == n as real * u
    ensures Abs(Snap(x, u) - x) <= Abs(y - x)
  {
    SnapError(x, u);
    WholeUnitsApart(RoundEven(x / u), n, u, Snap(x, u), y);
    Nearer(Snap(x, u), x, y, u);
  }

  lemma Nearer(s: real, x: real, y: real, u: real)
    requires 2.0 * Abs(s - x) <= u && (y == s || y >= s + u || y <= s - u)
    ensures Abs(s - x) <= Abs(y - x)
  {
  }

  lemma SnapMonotone(x: real, y: real, u: real)
    requires u > 0.0 && x <= y
    ensures Snap(x, u) <= Snap(y, u)
  {
    DivLe(x, y, u);
    RoundEvenMonotone(x / u, y / u);
    MulLe(RoundEven(x / u) as real, RoundEven(y / u) as real, u);
  }

  lemma SnapOfMultiple(y: real, n: int, u: real)
    requires u > 0.0 && y == n as real * u
    ensures Snap(y, u) == y
  {
    DivMul(n as real, u);
    RoundEvenOfInt(n);
  }

  lemma SnapScale(x: real, u: real, c: real, x': real, u': real)
    requires u > 0.0 && c > 0.0 && x' == x * c && u' == u * c
    ensures u' > 0.0 && Snap(x', u') == Snap(x, u) * c
  {
    ScaledQuotient(x, u, c);
    MulAssoc(RoundEven(x / u) as real, u, c);
  }

  lemma ScaledQuotient(x: real, u: real, c: real)
    requires u > 0.0 && c > 0.0
    ensures u * c > 0.0 && (x * c) / (u * c) == x / u
  {
    MulLt(0.0, u, c);
    DivMul(x, u);
    MulAssoc(x / u, u, c);
    DivMul(x / u, u * c);
  }

  /** A power of two at or above the last place is a whole number of units. */
  lemma Pow2InUlps(j: int, k: int) returns (n: nat)
    requires k <= j
    ensures Pow2(j) == n as real * Pow2(k)
  {
    hide Pow2;
    n := Pow2IsInt(j - k);
    Pow2Add(j - k, k);
  }

  /** Powers of two at or above the last place separate a number and its rounding from the others. */
  lemma SnapKeepsSide(p: nat, x: Positive, j: int)
    requires j > Binade(x) - p
    ensures Pow2(j) <= x ==> Pow2(j) <= Snap(x, Ulp(p, x))
    ensures x <= Pow2(j) ==> Snap(x, Ulp(p, x)) <= Pow2(j)
  {
    hide *;
    var n := Pow2InUlps(j, Binade(x) - p + 1);
    UlpIs(p, x);
    SnapBeside(x, Pow2(j), n, Ulp(p, x));
  }

  lemma UlpIs(p: int, x: Positive)
    ensures Ulp(p, x) == Pow2(Binade(x) - p + 1)
  {
  }

  /** A whole multiple of the unit stays on its side of what is snapped. */
  lemma SnapBeside(x: real, y: real, n: int, u: real)
    requires u > 0.0 && y == n as real * u
    ensures y <= x ==> y <= Snap(x, u)
    ensures x <= y ==> Snap(x, u) <= y
  {
    hide Snap;
    SnapOfMultiple(y, n, u);
    if y <= x {
      SnapMonotone(y, x, u);
    }
    if x <= y {
      SnapMonotone(x, y, u);
    }
  }

  /** Rounding within a binade stays within its closed range. */
  lemma SnapStaysInBinade(p: nat, x: Positive)
    requires p > 0
    ensures Pow2(Binade(x)) <= Snap(x, Ulp(p, x)) <= Pow2(Binade(x) + 1)
  {
    SnapKeepsSide(p, x, Binade(x));
    SnapKeepsSide(p, x, Binade(x) + 1);
  }

  /** x rounded to p significand bits. */
  function Round(p: nat, x: Positive): Positive
    requires p > 0
  {
    SnapStaysInBinade(p, x);
    Snap(x, Ulp(p, x))
  }

  // ---------- properties of rounding ----------

  lemma UlpSplit(e: int, p: int)
    ensures Pow2(e - p + 1) == Pow2(e) * (2.0 * Pow2(0 - p))
  {
    hide *;
    assert e - p + 1 == e + (1 - p) && 1 - p == -p + 1;
    Pow2Add(e, 1 - p);
    Pow2Step(-p);
  }

  lemma HalfUlp(err: real, u: real, base: real, q: real, x: real)
    requires 2.0 * err <= u && u == base * (2.0 * q) && base <= x && q > 0.0
    ensures err <= x * q
  {
    MulLe(base, x, q);
  }

  /** The rounding error is at most half a unit in the last place, hence at most x * 2^-p. */
  lemma RoundError(p: nat, x: Positive)
    requires p > 0
    ensures 2.0 * Abs(Round(p, x) - x) <= Ulp(p, x)
    ensures Abs(Round(p, x) - x) <= x * Pow2(0 - p)
  {
    hide Pow2, Snap, Abs;
    var e := Binade(x);
    SnapError(x, Ulp(p, x));
    UlpSplit(e, p);
    assert Ulp(p, x) == Pow2(e) * (2.0 * Pow2(0 - p));
    HalfUlp(Abs(Round(p, x) - x), Ulp(p, x), Pow2(e), Pow2(0 - p), x);
  }

  lemma ScaleLow(lo: real, x: real, c: real, lo': real, x': real)
    requires lo <= x && c > 0.0 && lo' == lo * c && x' == x * c
    ensures lo' <= x'
  {
    MulLe(lo, x, c);
  }

  lemma ScaleHigh(x: real, hi: real, c: real, x': real, hi': real)
    requires x < hi && c > 0.0 && x' == x * c && hi' == hi * c
    ensures x' < hi'
  {
    MulLt(x, hi, c);
  }

  lemma ProductPositive(x: real, c: real)
    requires x > 0.0 && c > 0.0
    ensures x * c > 0.0
  {
    MulLt(0.0, x, c);
  }

  lemma BinadeScale(x: Positive, k: int, x': Positive)
    requires x' == x * Pow2(k)
    ensures Binade(x') == Binade(x) + k
  {
    hide *;
    var e := Binade(x);
    Pow2Add(e, k);
    Pow2Add(e + 1, k);
    assert e + k + 1 == e + 1 + k;
    ScaleLow(Pow2(e), x, Pow2(k), Pow2(e + k), x');
    ScaleHigh(x, Pow2(e + 1), Pow2(k), x', Pow2(e + k + 1));
    BinadeUnique(x', e + k);
  }

  lemma UlpScale(p: int, x: Positive, k: int, x': Positive)
    requires x' == x * Pow2(k)
    ensures Ulp(p, x') == Ulp(p, x) * Pow2(k)
  {
    hide Pow2, Binade;
    BinadeScale(x, k, x');
    Pow2Add(Binade(x) - p + 1, k);
    assert Binade(x') - p + 1 == Binade(x) - p + 1 + k;
  }

  /** Scaling by a power of two commutes with rounding. */
  lemma RoundScale(p: nat, x: Positive, k: int, x': Positive)
    requires p > 0 && x' == x * Pow2(k)
    ensures Round(p, x') == Round(p, x) * Pow2(k)
  {
    hide Pow2, Snap, Ulp;
    UlpScale(p, x, k, x');
    SnapScale(x, Ulp(p, x), Pow2(k), x', Ulp(p, x'));
  }

  /** Rounding never reverses an order. */
  lemma RoundMonotone(p: nat, x: Positive, y: Positive)
    requires p > 0 && x <= y
    ensures Round(p, x) <= Round(p, y)
  {
    BinadeMonotone(x, y);
    if Binade(x) == Binade(y) {
      SnapMonotone(x, y, Ulp(p, x));
    } else {
      SnapStaysInBinade(p, x);
      SnapStaysInBinade(p, y);
      Pow2Monotone(Binade(x) + 1, Binade(y));
    }
  }

  lemma ProductBelow(m: real, top: real, a: real, b: real, c: real)
    requires 0.0 <= m < top && 0.0 < a <= b && top * b == c
    ensures m * a < c
  {
    MulLt(m, top, a);
    MulLe(a, b, top);
  }

  lemma SignificandExponent(p: nat, y: real, m: nat, k: int, e: int)
    requires Significand(p, y, m, k) && y >= Pow2(e)
    ensures k > e - p
  {
    hide Pow2;
    if k <= e - p {
      Pow2Monotone(k, e - p);
      Pow2Add(p, e - p);
      ProductBelow(m as real, Pow2(p), Pow2(k), Pow2(e - p), Pow2(e));
    }
  }

  lemma RegroupSignificand(y: real, m: nat, j: nat, a: real, b: real)
    requires y == m as real * a && a == j as real * b
    ensures y == (m * j) as real * b
  {
    MulAssoc(m as real, j as real, b);
    assert (m * j) as real == m as real * j as real;
  }

  /** A p-bit number not below 2^e is a whole number of units of the last place of that binade. */
  lemma FloatInUlps(p: nat, y: real, e: int) returns (n: nat)
    requires IsFloat(p, y) && y >= Pow2(e)
    ensures y == n as real * Pow2(e - p + 1)
  {
    hide Pow2;
    var m: nat, k: int :| Significand(p, y, m, k);
    SignificandExponent(p, y, m, k, e);
    var j := Pow2InUlps(k, e - p + 1);
    n := m * j;
    RegroupSignificand(y, m, j, Pow2(k), Pow2(e - p + 1));
  }

  lemma FartherBelow(y: real, z: real, x: real)
    requires y <= z <= x
    ensures Abs(z - x) <= Abs(y - x)
  {
  }

  /** Among all p-bit numbers none is nearer to x than its rounding. */
  lemma RoundNearest(p: nat, x: Positive, y: real)
    requires p > 0 && IsFloat(p, y)
    ensures Abs(Round(p, x) - x) <= Abs(y - x)
  {
    hide Pow2, Snap, Abs, IsFloat;
    var e := Binade(x);
    if y < Pow2(e) {
      var n := Pow2InUlps(e, e - p + 1);
      SnapNearest(x, Ulp(p, x), n, Pow2(e));
      FartherBelow(y, Pow2(e), x);
    } else {
      var n := FloatInUlps(p, y, e);
      SnapNearest(x, Ulp(p, x), n, y);
    }
  }

  lemma MulCancel(a: real, b: real, u: real)
    requires u > 0.0 && a * u == b * u
    ensures a == b
  {
    if a < b {
      MulLt(a, b, u);
    } else if a > b {
      MulLt(b, a, u);
    }
  }

  lemma TieIsMidpoint(s: real, x: real, u: real, y: real)
    requires u > 0.0 && 2.0 * Abs(s - x) <= u
    requires Abs(y - x) == Abs(s - x)
    requires y >= s + u || y <= s - u
    ensures x == s + 0.5 * u || x == s - 0.5 * u
  {
  }

  lemma TieInUlps(n: int, x: real, u: real, s: real)
    requires u > 0.0 && s == n as real * u
    requires x == s + 0.5 * u || x == s - 0.5 * u
    ensures Abs(n as real - x / u) == 0.5
  {
    DivMul(x, u);
    MulCancel(x / u, if x == s + 0.5 * u then n as real + 0.5 else n as real - 0.5, u);
  }

  /** When another p-bit number is just as near, the significand chosen is even. */
  lemma RoundTiesToEven(p: nat, x: Positive, y: real)
    requires p > 0 && IsFloat(p, y)
    requires y != Round(p, x) && Abs(y - x) == Abs(Round(p, x) - x)
    ensures RoundEven(x / Ulp(p, x)) % 2 == 0
  {
    hide Pow2, IsFloat, Abs, RoundEven, Binade;
    var e, u := Binade(x), Ulp(p, x);
    SnapError(x, u);
    if y < Pow2(e) {
      var n := Pow2InUlps(e, e - p + 1);
      SnapNearest(x, u, n, Pow2(e));
      StrictlyFartherBelow(y, Pow2(e), x);
      assert false;
    } else {
      var n := FloatInUlps(p, y, e);
      WholeUnitsApart(RoundEven(x / u), n, u, Snap(x, u), y);
      TieIsMidpoint(Snap(x, u), x, u, y);
      TieInUlps(RoundEven(x / u), x, u, Snap(x, u));
    }
  }

  lemma StrictlyFartherBelow(y: real, z: real, x: real)
    requires y < z <= x
    ensures Abs(z - x) < Abs(y - x)
  {
  }

  /** The significand that rounding chooses has at most p bits, or is the next power of two. */
  lemma RoundIsFloat(p: nat, x: Positive)
    requires p > 0
    ensures IsFloat(p, Round(p, x))
  {
    hide Pow2, RoundEven, Binade;
    var e, u := Binade(x), Ulp(p, x);
    SnapStaysInBinade(p, x);
    var n := RoundEven(x / u);
    if Round(p, x) == Pow2(e + 1) {
      Pow2IsFloat(p, e + 1);
    } else {
      Pow2Add(p, e - p + 1);
      assert p + (e - p + 1) == e + 1;
      BelowScaled(n as real, Pow2(p), u, Pow2(e + 1), Round(p, x));
      assert Significand(p, Round(p, x), n, e - p + 1);
    }
  }

  lemma BelowScaled(n: real, top: real, u: real, c: real, s: real)
    requires u > 0.0 && c == top * u && s == n * u && 0.0 < s < c
    ensures 0.0 < n < top
  {
    if n >= top {
      MulLe(top, n, u);
    }
    if n <= 0.0 {
      MulLe(n, 0.0, u);
    }
  }

  /** A number that already has p bits is left alone. */
  lemma RoundExact(p: nat, x: Positive)
    requires p > 0 && IsFloat(p, x)
    ensures Round(p, x) == x
  {
    RoundNearest(p, x, x);
  }

  lemma Pow2IsFloat(p: nat, e: int)
    requires p > 0
    ensures IsFloat(p, Pow2(e))
  {
    Pow2Monotone(1, p);
    assert Pow2(1) == 2.0 * Pow2(0);
    assert Significand(p, Pow2(e), 1, e);
  }
}
