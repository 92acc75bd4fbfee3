/** Expansion of the compact 32-bit difficulty encoding into a 256-bit target. */
module CompactBits {
  import opened Digits
  import opened Bytes

  function Exponent(bits: nat): nat {
    bits / 0x100_0000
  }

  function Mantissa(bits: nat): (m: nat)
    ensures m < 0x100_0000
  {
    bits % 0x100_0000
  }

  /** CalculateTarget; shifting by 8n bits is multiplying or dividing by 256^n. */
  function CalculateTarget(bits: nat): nat {
    var truncated := Exponent(bits);
    if truncated <= 3 then Mantissa(bits) / Pow(256, 3 - truncated)
    else Mantissa(bits) * Pow(256, truncated - 3)
  }

  lemma ScaledRemainder(m: nat, k: nat, q: nat, r: nat, p: nat)
    requires m == k * q + r && r < q && 0 < p
    ensures m * p == k * (q * p) + r * p && r * p < q * p
  {
    MulLe(r + 1, q, p);
    Distribute(k, q, r, p);
  }

  lemma DivScaled(m: nat, p: nat, q: nat)
    requires p > 0 && q > 0
    ensures (m * p) / (q * p) == m / q
  {
    DivMod(m, q);
    var k, r := m / q, m % q;
    ScaledRemainder(m, k, q, r, p);
    QuotientRemainder(m * p, q * p, k, r * p);
  }

  /** The low 24 bits are the mantissa and the rest is the exponent. */
  lemma Parts(bits: nat, e: nat, m: nat)
    requires bits == e * 0x100_0000 + m && m < 0x100_0000
    ensures Exponent(bits) == e && Mantissa(bits) == m
  {
  }

  /** The target of exponent e and mantissa m is m scaled by 256^(e-3), rounded down, and fits in e bytes. */
  lemma TargetFormula(bits: nat, e: nat, m: nat)
    requires bits == e * 0x100_0000 + m && m < 0x100_0000
    ensures CalculateTarget(bits) == m * Pow(256, e) / Pow(256, 3)
    ensures CalculateTarget(bits) < Pow(256, e)
  {
    Parts(bits, e, m);
    ThreeBytes();
    if e <= 3 {
      PowAdd(256, 3 - e, e);
      hide Pow;
      DivScaled(m, Pow(256, e), Pow(256, 3 - e));
      DivBelow(m, Pow(256, 3 - e), Pow(256, e));
    } else {
      PowAdd(256, e - 3, 3);
      hide Pow;
      LargeTarget(m, Pow(256, e - 3), Pow(256, 3), Pow(256, e));
    }
  }

  lemma LargeTarget(m: nat, p: nat, c: nat, pc: nat)
    requires m < c && 0 < p && pc == p * c
    ensures m * p == m * pc / c && m * p < pc
  {
    MulAssoc(m, p, c);
    DivScaled(m * p, c, 1);
    MulLe(m + 1, c, p);
  }

  lemma ThreeBytes()
    ensures Pow(256, 3) == 0x100_0000 && Pow(256, 0) == 1
  {
  }

  /** At least three bytes long with a non-zero leading byte. */
  predicate Normalised(bits: nat) {
    Exponent(bits) >= 3 && Mantissa(bits) >= 0x1_0000
  }

  /** On normalised encodings a larger encoding is a larger target, so no two share one. */
  lemma TargetStrictlyIncreasing(a: nat, b: nat)
    requires Normalised(a) && Normalised(b) && a < b
    ensures CalculateTarget(a) < CalculateTarget(b)
  {
    var ea, eb, ma, mb := Exponent(a), Exponent(b), Mantissa(a), Mantissa(b);
    NormalisedTarget(a);
    NormalisedTarget(b);
    if ea == eb {
      var p := Pow(256, ea - 3);
      MulLe(ma + 1, mb, p);
      assert (ma + 1) * p == ma * p + p;
    } else {
      TargetFormula(a, ea, ma);
      PowMonotone(256, ea, eb - 1);
      PowAdd(256, eb - 3, 2);
      assert Pow(256, 2) == 0x1_0000;
      MulLe(0x1_0000, mb, Pow(256, eb - 3));
    }
  }

  lemma NormalisedTarget(bits: nat)
    requires Exponent(bits) >= 3
    ensures CalculateTarget(bits) == Mantissa(bits) * Pow(256, Exponent(bits) - 3)
  {
    ThreeBytes();
  }
}
