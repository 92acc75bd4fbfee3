/** Printing and parsing of numbers in base 10 and 16, as Go's fmt and strconv do it. */
module Digits {
  import opened GoInts

  type Base = b: int | 2 <= b <= 16 witness 16

  function Pow(b: nat, n: nat): (p: nat)
    ensures b > 0 ==> p > 0
  {
    if n == 0 then 1 else b * Pow(b, n - 1)
  }

  lemma PowStep(b: nat, n: nat)
    ensures Pow(b, n + 1) == b * Pow(b, n)
  {
  }

  lemma MulAssoc(x: int, y: int, z: int)
    ensures (x * y) * z == x * (y * z)
  {
  }

  lemma {:induction false} PowAdd(b: nat, m: nat, n: nat)
    ensures Pow(b, m + n) == Pow(b, m) * Pow(b, n)
  {
    if m > 0 {
      PowAdd(b, m - 1, n);
      MulAssoc(b, Pow(b, m - 1), Pow(b, n));
      PowStep(b, m - 1);
      PowStep(b, m - 1 + n);
      hide Pow;
    }
  }

  lemma {:induction false} PowMonotone(b: nat, m: nat, n: nat)
    requires 1 <= b && m <= n
    ensures Pow(b, m) <= Pow(b, n)
  {
    if m < n {
      PowMonotone(b, m, n - 1);
    }
  }

  lemma MulLe(x: int, y: int, z: nat)
    requires x <= y
    ensures x * z <= y * z
  {
  }

  lemma Distribute(n: int, b: int, d: int, p: int)
    ensures (n * b + d) * p == n * (b * p) + d * p
  {
    assert n * b * p == n * (b * p);
  }

  lemma DivBelow(n: nat, b: int, p: nat)
    requires b > 0 && n < b * p
    ensures n / b < p
  {
    assert n == b * (n / b) + n % b;
    if p <= n / b {
      MulLe(p, n / b, b);
    }
  }

  // ---------- digits ----------

  const NOT_A_DIGIT: int := 36

  /** strconv accepts both letter cases. */
  function DigitValue(c: char): (v: int)
    ensures 0 <= v <= NOT_A_DIGIT
  {
    if '0' <= c <= '9' then c as int - '0' as int
    else if 'a' <= c <= 'z' then c as int - 'a' as int + 10
    else if 'A' <= c <= 'Z' then c as int - 'A' as int + 10
    else NOT_A_DIGIT
  }

  /** fmt prints lower-case letters. */
  function DigitChar(d: nat): (c: char)
    requires d < 16
    ensures DigitValue(c) == d
  {
    if d < 10 then (d + '0' as int) as char else (d - 10 + 'a' as int) as char
  }

  predicate AllDigits(s: string, b: Base) {
    forall i :: 0 <= i < |s| ==> DigitValue(s[i]) < b
  }

  /** The value of s read as digits that follow the number n. */
  function ValueAfter(n: nat, s: string, b: Base): nat
    requires AllDigits(s, b)
    decreases s
  {
    if s == [] then n else ValueAfter(Shift(n, s[0], b), s[1..], b)
  }

  /** The number n with the digit c written after it. */
  function Shift(n: nat, c: char, b: Base): nat {
    n * b + DigitValue(c)
  }

  lemma ValueAfterStep(n: nat, s: string, b: Base)
    requires AllDigits(s, b) && s != []
    ensures ValueAfter(n, s, b) == ValueAfter(Shift(n, s[0], b), s[1..], b)
  {
  }

  function Value(s: string, b: Base): nat
    requires AllDigits(s, b)
  {
    ValueAfter(0, s, b)
  }

  lemma {:induction false} ValueAfterSplits(n: nat, s: string, b: Base)
    requires AllDigits(s, b)
    ensures ValueAfter(n, s, b) == n * Pow(b, |s|) + Value(s, b)
    decreases s
  {
    if s != [] {
      var d, rest := DigitValue(s[0]), s[1..];
      ValueAfterSplits(n * b + d, rest, b);
      ValueAfterSplits(d, rest, b);
      Distribute(n, b, d, Pow(b, |rest|));
    }
  }

  lemma {:induction false} ValueAfterConcat(n: nat, s: string, t: string, b: Base)
    requires AllDigits(s, b) && AllDigits(t, b)
    ensures AllDigits(s + t, b)
    ensures ValueAfter(n, s + t, b) == ValueAfter(ValueAfter(n, s, b), t, b)
    decreases s
  {
    assert forall i :: 0 <= i < |s + t| ==> (s + t)[i] in s || (s + t)[i] in t;
    if s == [] {
      assert s + t == t;
    } else {
      hide ValueAfter;
      assert (s + t)[1..] == s[1..] + t;
      ValueAfterConcat(Shift(n, s[0], b), s[1..], t, b);
      ValueAfterStep(n, s, b);
      ValueAfterStep(n, s + t, b);
    }
  }

  /** Writing t after s shifts the value of s by one base power per digit of t. */
  lemma ValueConcat(s: string, t: string, b: Base)
    requires AllDigits(s, b) && AllDigits(t, b)
    ensures AllDigits(s + t, b)
    ensures Value(s + t, b) == Value(s, b) * Pow(b, |t|) + Value(t, b)
  {
    ValueAfterConcat(0, s, t, b);
    ValueAfterSplits(Value(s, b), t, b);
  }

  lemma {:induction false} ValueBound(s: string, b: Base)
    requires AllDigits(s, b)
    ensures Value(s, b) < Pow(b, |s|)
  {
    if s != [] {
      var d, p := DigitValue(s[0]), Pow(b, |s| - 1);
      ValueBound(s[1..], b);
      ValueAfterSplits(d, s[1..], b);
      assert Value(s, b) == d * p + Value(s[1..], b);
      MulLe(d, b - 1, p);
      assert (b - 1) * p + p == b * p;
    }
  }

  lemma OneDigit(d: nat, b: Base)
    requires d < b
    ensures Value([DigitChar(d)], b) == d && Pow(b, 1) == b
  {
    var s := [DigitChar(d)];
    assert s[1..] == [];
    assert Value(s, b) == ValueAfter(0 * b + d, s[1..], b);
    assert Pow(b, 1) == b * Pow(b, 0);
  }

  /** Appending a digit multiplies by the base and adds the digit. */
  lemma AppendDigit(s: string, d: nat, b: Base)
    requires AllDigits(s, b) && d < b
    ensures AllDigits(s + [DigitChar(d)], b)
    ensures Value(s + [DigitChar(d)], b) == Value(s, b) * b + d
  {
    OneDigit(d, b);
    ValueConcat(s, [DigitChar(d)], b);
  }

  lemma DivMod(n: nat, b: int)
    requires b > 0
    ensures 0 <= n / b && n == n / b * b + n % b
    ensures b >= 2 && n > 0 ==> n / b < n
  {
    if b >= 2 && n > 0 {
      QuotientSmaller(n, b, n / b);
    }
  }

  lemma QuotientSmaller(n: nat, b: int, q: nat)
    requires b >= 2 && n > 0 && q * b <= n
    ensures q < n
  {
    MulLe(2, b, q);
  }

  // ---------- printing ----------

  /** fmt "%d" and "%x" of a non-negative number. */
  function Print(n: nat, b: Base): (s: string)
    ensures s != [] && AllDigits(s, b) && Value(s, b) == n
    decreases n
  {
    if n < b then
      OneDigit(n, b);
      [DigitChar(n)]
    else
      DivMod(n, b);
      var s := Print(n / b, b);
      AppendDigit(s, n % b, b);
      s + [DigitChar(n % b)]
  }

  /** fmt "%d" of any int. */
  function PrintInt(n: int): string {
    if n < 0 then "-" + Print(-n, 10) else Print(n, 10)
  }

  function Zeros(n: nat): (s: string)
    ensures |s| == n && forall i :: 0 <= i < n ==> s[i] == '0'
  {
    seq(n, i => '0')
  }

  /** fmt "%0*s": zeros on the left up to the given width. */
  function PadLeft(s: string, width: nat): (r: string)
    ensures |r| == if |s| < width then width else |s|
  {
    if |s| < width then Zeros(width - |s|) + s else s
  }

  /** fmt "%0*x". */
  function PrintPadded(n: nat, width: nat, b: Base): string {
    PadLeft(Print(n, b), width)
  }

  lemma {:induction false} PrintLength(n: nat, width: nat, b: Base)
    requires 0 < width && n < Pow(b, width)
    ensures |Print(n, b)| <= width
    decreases width
  {
    if n >= b {
      DivBelow(n, b, Pow(b, width - 1));
      PrintLength(n / b, width - 1, b);
    }
  }

  lemma {:induction false} ZerosValue(n: nat, b: Base)
    ensures AllDigits(Zeros(n), b) && Value(Zeros(n), b) == 0
  {
    if n > 0 {
      assert Zeros(n)[1..] == Zeros(n - 1);
      ZerosValue(n - 1, b);
    }
  }

  /** Zeros on the left change the length and not the value. */
  lemma PadLeftValue(s: string, width: nat, b: Base)
    requires AllDigits(s, b)
    ensures AllDigits(PadLeft(s, width), b)
    ensures Value(PadLeft(s, width), b) == Value(s, b)
  {
    if |s| < width {
      ZerosValue(width - |s|, b);
      ValueConcat(Zeros(width - |s|), s, b);
    }
  }

  /** A number below b^width prints with exactly `width` digits and reads back as itself. */
  lemma PrintPaddedValue(n: nat, width: nat, b: Base)
    requires 0 < width && n < Pow(b, width)
    ensures |PrintPadded(n, width, b)| == width
    ensures AllDigits(PrintPadded(n, width, b), b)
    ensures Value(PrintPadded(n, width, b), b) == n
  {
    PrintLength(n, width, b);
    PadLeftValue(Print(n, b), width, b);
  }

  // ---------- parsing ----------

  datatype Parsed = Num(value: int) | SyntaxError | RangeError

  /** The scanning loop of strconv.ParseUint after the number n has been read. */
  function ParseAfter(n: nat, s: string, b: Base): Parsed
    decreases s
  {
    if s == [] then Num(n)
    else if DigitValue(s[0]) >= b then SyntaxError
    else if n * b + DigitValue(s[0]) >= TWO_64 then RangeError
    else ParseAfter(n * b + DigitValue(s[0]), s[1..], b)
  }

  /** strconv.ParseUint(s, b, 64). */
  function ParseUint(s: string, b: Base): Parsed {
    if s == [] then SyntaxError else ParseAfter(0, s, b)
  }

  lemma DigitsAfterFirst(s: string, b: Base)
    requires s != [] && DigitValue(s[0]) < b
    ensures AllDigits(s, b) <==> AllDigits(s[1..], b)
  {
    assert forall i :: 1 <= i < |s| ==> s[i] == s[1..][i - 1];
  }

  lemma ShiftGrows(n: nat, c: char, b: Base)
    ensures Shift(n, c, b) >= n
  {
    MulLe(1, b, n);
  }

  lemma {:induction false} ValueNeverShrinks(n: nat, s: string, b: Base)
    requires AllDigits(s, b)
    ensures ValueAfter(n, s, b) >= n
    decreases s
  {
    if s != [] {
      hide Shift;
      ShiftGrows(n, s[0], b);
      ValueNeverShrinks(Shift(n, s[0], b), s[1..], b);
    }
  }

  lemma {:induction false} ParseAfterMeaning(n: nat, s: string, b: Base)
    requires n < TWO_64
    ensures ParseAfter(n, s, b).Num? <==> AllDigits(s, b) && ValueAfter(n, s, b) < TWO_64
    ensures ParseAfter(n, s, b).Num? ==> ParseAfter(n, s, b).value == ValueAfter(n, s, b)
    decreases s
  {
    if s != [] {
      var d := DigitValue(s[0]);
      if d < b {
        DigitsAfterFirst(s, b);
        var m := n * b + d;
        if m < TWO_64 {
          ParseAfterMeaning(m, s[1..], b);
        } else if AllDigits(s, b) {
          ValueNeverShrinks(m, s[1..], b);
        }
      }
    }
  }

  /** ParseUint accepts exactly the non-empty digit strings below 2^64, and yields their value. */
  lemma ParseUintMeaning(s: string, b: Base)
    ensures ParseUint(s, b).Num? <==> s != [] && AllDigits(s, b) && Value(s, b) < TWO_64
    ensures ParseUint(s, b).Num? ==> ParseUint(s, b).value == Value(s, b)
  {
    ParseAfterMeaning(0, s, b);
  }

  /** strconv.ParseInt(s, 10, 0) on a 64-bit machine. */
  function ParseInt(s: string): Parsed {
    if s == [] then SyntaxError
    else
      var signed := s[0] == '+' || s[0] == '-';
      var negative := s[0] == '-';
      match ParseUint(if signed then s[1..] else s, 10)
      case SyntaxError => SyntaxError
      case RangeError => RangeError
      case Num(u) =>
        if !negative && u >= TWO_63 then RangeError
        else if negative && u > TWO_63 then RangeError
        else Num(if negative then -u else u)
  }

  /** The text after an optional sign. */
  function Unsigned(s: string): string {
    if s != [] && (s[0] == '+' || s[0] == '-') then s[1..] else s
  }

  /** The largest size of an int with the sign that s has. */
  function Largest(s: string): int {
    if s != [] && s[0] == '-' then 0x8000_0000_0000_0000 else 0x7fff_ffff_ffff_ffff
  }

  /** ParseInt accepts exactly an optional sign and decimal digits within 64 bits, and yields the number with that sign. */
  lemma ParseIntMeaning(s: string)
    ensures ParseInt(s).Num?
       <==> Unsigned(s) != [] && AllDigits(Unsigned(s), 10) && Value(Unsigned(s), 10) <= Largest(s)
    ensures ParseInt(s).Num? ==>
              var v: int := Value(Unsigned(s), 10); ParseInt(s).value == if s[0] == '-' then -v else v
  {
    hide ParseUint;
    ParseUintMeaning(Unsigned(s), 10);
    EmptyText();
  }

  lemma EmptyText()
    ensures !ParseUint([], 10).Num?
  {
  }

  /** Every int that is printed with "%d" is read back by ParseInt. */
  lemma ParsePrintedInt(n: int)
    requires -TWO_63 <= n < TWO_63
    ensures ParseInt(PrintInt(n)) == Num(n)
  {
    var m := if n < 0 then -n else n;
    ParseUintMeaning(Print(m, 10), 10);
    if n < 0 {
      assert PrintInt(n)[1..] == Print(m, 10);
    } else {
      assert DigitValue(Print(m, 10)[0]) < 10;
    }
  }
}
