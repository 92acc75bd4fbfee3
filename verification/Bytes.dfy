/** Byte order and Base16 (section 8 of RFC 4648) as encoding/binary and encoding/hex implement them. */
module Bytes {
  import opened Digits

  type byte = x: int | 0 <= x < 256

  // ---------- little and big endian ----------

  /** The low `width` bytes of n, least significant first. */
  function LittleEndian(n: nat, width: nat): (b: seq<byte>)
    ensures |b| == width
  {
    if width == 0 then [] else [n % 256] + LittleEndian(n / 256, width - 1)
  }

  function FromLittle(b: seq<byte>): nat {
    if b == [] then 0 else b[0] + 256 * FromLittle(b[1..])
  }

  /** The low `width` bytes of n, most significant first. */
  function BigEndian(n: nat, width: nat): (b: seq<byte>)
    ensures |b| == width
  {
    if width == 0 then [] else BigEndian(n / 256, width - 1) + [n % 256]
  }

  function FromBig(b: seq<byte>): nat {
    if b == [] then 0 else 256 * FromBig(b[..|b| - 1]) + b[|b| - 1]
  }

  /** Reading back what was written gives the number modulo 256^width. */
  lemma {:induction false} LittleRoundTrip(n: nat, width: nat)
    ensures FromLittle(LittleEndian(n, width)) == n % Pow(256, width)
  {
    if width > 0 {
      LittleRoundTrip(n / 256, width - 1);
      ModStep(n, Pow(256, width - 1));
      assert LittleEndian(n, width)[1..] == LittleEndian(n / 256, width - 1);
    }
  }

  lemma ModStep(n: nat, p: nat)
    requires p > 0
    ensures n % (256 * p) == 256 * (n / 256 % p) + n % 256
  {
    var m := n / 256;
    var q, r := m / p, m % p;
    DivMod(m, p);
    assert q * (256 * p) == 256 * (q * p);
    QuotientRemainder(n, 256 * p, q, 256 * r + n % 256);
  }

  lemma QuotientRemainder(n: nat, d: nat, q: nat, r: nat)
    requires d > 0 && r < d && n == q * d + r
    ensures n / d == q && n % d == r
  {
    DivMod(n, d);
    if n / d < q {
      MulLe(n / d + 1, q, d);
    } else if n / d > q {
      MulLe(q + 1, n / d, d);
    }
  }

  lemma {:induction false} FromLittleBound(b: seq<byte>)
    ensures FromLittle(b) < Pow(256, |b|)
  {
    if b != [] {
      FromLittleBound(b[1..]);
    }
  }

  lemma {:induction false} FromBigBound(b: seq<byte>)
    ensures FromBig(b) < Pow(256, |b|)
  {
    if b != [] {
      FromBigBound(b[..|b| - 1]);
    }
  }

  /** Writing what was read gives the same bytes. */
  lemma {:induction false} LittleInverse(b: seq<byte>)
    ensures LittleEndian(FromLittle(b), |b|) == b
  {
    if b != [] {
      LittleInverse(b[1..]);
      FirstByte(FromLittle(b[1..]), b[0]);
      assert LittleEndian(FromLittle(b), |b|) == [b[0]] + b[1..];
    }
  }

  lemma FirstByte(rest: nat, first: byte)
    ensures (first + 256 * rest) % 256 == first && (first + 256 * rest) / 256 == rest
  {
  }

  lemma {:induction false} BigInverse(b: seq<byte>)
    ensures BigEndian(FromBig(b), |b|) == b
  {
    if b != [] {
      BigInverse(b[..|b| - 1]);
    }
  }

  function Reverse(b: seq<byte>): (r: seq<byte>)
    ensures |r| == |b|
    ensures forall i :: 0 <= i < |b| ==> r[i] == b[|b| - 1 - i]
  {
    if b == [] then [] else Reverse(b[1..]) + [b[0]]
  }

  lemma {:induction false} BigIsReversedLittle(n: nat, width: nat)
    ensures BigEndian(n, width) == Reverse(LittleEndian(n, width))
  {
    if width > 0 {
      BigIsReversedLittle(n / 256, width - 1);
      assert LittleEndian(n, width)[1..] == LittleEndian(n / 256, width - 1);
    }
  }

  /** Reading bytes little-endian first is reading their reversal big-endian first. */
  lemma FromLittleReversed(b: seq<byte>)
    ensures FromBig(Reverse(b)) == FromLittle(b)
  {
    LittleInverse(b);
    BigIsReversedLittle(FromLittle(b), |b|);
    FromLittleBound(b);
    BigRoundTrip(FromLittle(b), |b|);
  }

  lemma {:induction false} BigRoundTrip(n: nat, width: nat)
    requires n < Pow(256, width)
    ensures FromBig(BigEndian(n, width)) == n
  {
    if width > 0 {
      DivBelow(n, 256, Pow(256, width - 1));
      BigRoundTrip(n / 256, width - 1);
      assert BigEndian(n, width)[..width - 1] == BigEndian(n / 256, width - 1);
    }
  }

  // ---------- hexadecimal ----------

  /** hex.DecodeString with its error ignored: the bytes before the first malformed or unfinished pair. */
  function HexDecode(s: string): (b: seq<byte>)
    ensures |b| <= |s| / 2
  {
    if |s| < 2 || DigitValue(s[0]) >= 16 || DigitValue(s[1]) >= 16 then []
    else [16 * DigitValue(s[0]) + DigitValue(s[1])] + HexDecode(s[2..])
  }

  lemma {:induction false} HexDecodeLength(s: string)
    requires AllDigits(s, 16)
    ensures |HexDecode(s)| == |s| / 2
  {
    if |s| >= 2 {
      HexDecodeLength(s[2..]);
    }
  }

  lemma {:induction false} HexDecodeConcat(s: string, t: string)
    requires AllDigits(s, 16) && |s| % 2 == 0
    ensures HexDecode(s + t) == HexDecode(s) + HexDecode(t)
  {
    if s == [] {
      assert s + t == t;
    } else {
      assert (s + t)[2..] == s[2..] + t;
      HexDecodeConcat(s[2..], t);
    }
  }

  /** Decoding an even number of hex digits keeps the number they write. */
  lemma {:induction false} HexDecodeValue(s: string)
    requires AllDigits(s, 16) && |s| % 2 == 0
    ensures |HexDecode(s)| == |s| / 2
    ensures FromBig(HexDecode(s)) == Value(s, 16)
  {
    HexDecodeLength(s);
    if s != [] {
      var init, last := s[..|s| - 2], s[|s| - 2..];
      assert s == init + last;
      HexDecodeValue(init);
      HexDecodeConcat(init, last);
      ValueConcat(init, last, 16);
      OnePair(last);
      FromBigAppend(HexDecode(init), Value(last, 16));
      hide Value, HexDecode, FromBig, Pow, AllDigits;
      assert Value(s, 16) == Value(init, 16) * 256 + Value(last, 16);
      assert HexDecode(s) == HexDecode(init) + [Value(last, 16)];
    }
  }

  lemma OnePair(s: string)
    requires AllDigits(s, 16) && |s| == 2
    ensures Value(s, 16) < 256 == Pow(16, 2) && HexDecode(s) == [Value(s, 16)]
  {
    var hi, lo := DigitValue(s[0]), DigitValue(s[1]);
    assert s[2..] == [] && s[1..][1..] == [];
    assert Value(s, 16) == ValueAfter(hi, s[1..], 16) == 16 * hi + lo;
  }

  lemma FromBigAppend(b: seq<byte>, last: byte)
    ensures FromBig(b + [last]) == 256 * FromBig(b) + last
  {
    assert (b + [last])[..|b|] == b;
  }

  /** "%0{2w}x" of a w-byte number is the Base16 text of its bytes, most significant first. */
  lemma PrintedWord(n: nat, width: nat)
    requires width > 0 && n < Pow(256, width)
    ensures |PrintPadded(n, 2 * width, 16)| == 2 * width
    ensures AllDigits(PrintPadded(n, 2 * width, 16), 16)
    ensures HexDecode(PrintPadded(n, 2 * width, 16)) == BigEndian(n, width)
  {
    SquaredBase(width);
    PrintPaddedValue(n, 2 * width, 16);
    var s := PrintPadded(n, 2 * width, 16);
    HexDecodeValue(s);
    BigInverse(HexDecode(s));
  }

  lemma {:induction false} SquaredBase(width: nat)
    ensures Pow(256, width) == Pow(16, 2 * width)
  {
    if width > 0 {
      SquaredBase(width - 1);
      PowAdd(16, 2, 2 * (width - 1));
      assert Pow(16, 2) == 256;
    }
  }

  // ---------- letter case ----------

  function FoldChar(c: char): char {
    if 'A' <= c <= 'F' then (c as int - 'A' as int + 'a' as int) as char else c
  }

  /** The text with the hex letters A to F in lower case. */
  function Fold(s: string): (r: string)
    ensures |r| == |s|
    ensures forall i :: 0 <= i < |s| ==> r[i] == FoldChar(s[i])
  {
    seq(|s|, i requires 0 <= i < |s| => FoldChar(s[i]))
  }

  lemma FoldDigit(c: char, d: char)
    requires DigitValue(c) < 16 && DigitValue(d) < 16
    ensures DigitValue(c) == DigitValue(d) <==> FoldChar(c) == FoldChar(d)
  {
  }

  /** Two even-length hex texts decode alike exactly when they differ at most in letter case. */
  lemma {:induction false} HexDecodeInjective(s: string, t: string)
    requires AllDigits(s, 16) && AllDigits(t, 16)
    requires |s| % 2 == 0 && |t| % 2 == 0
    ensures HexDecode(s) == HexDecode(t) <==> Fold(s) == Fold(t)
  {
    HexDecodeLength(s);
    HexDecodeLength(t);
    if |s| != |t| {
      assert |Fold(s)| != |Fold(t)|;
    } else if s != [] {
      HexDecodeInjective(s[2..], t[2..]);
      FoldDigit(s[0], t[0]);
      FoldDigit(s[1], t[1]);
      assert Fold(s) == [FoldChar(s[0]), FoldChar(s[1])] + Fold(s[2..]);
      assert Fold(t) == [FoldChar(t[0]), FoldChar(t[1])] + Fold(t[2..]);
      assert Fold(s)[2..] == Fold(s[2..]) && Fold(t)[2..] == Fold(t[2..]);
      assert HexDecode(s)[1..] == HexDecode(s[2..]) && HexDecode(t)[1..] == HexDecode(t[2..]);
      assert HexDecode(s) == HexDecode(t) <==> HexDecode(s)[0] == HexDecode(t)[0] && HexDecode(s)[1..] == HexDecode(t)[1..];
      assert Fold(s) == Fold(t) <==> Fold(s)[0] == Fold(t)[0] && Fold(s)[1] == Fold(t)[1] && Fold(s)[2..] == Fold(t)[2..];
    }
  }
}
