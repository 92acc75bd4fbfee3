/** How a miner's nonce and its connection's extranonce become one 64-bit nonce. */
module Nonces {
  import opened GoInts
  import opened Digits

  /** ListenAndServe lets the configured extranonce size be at most 3 bytes. */
  function ClampSize(configured: nat): (size: nat)
    ensures size <= 3
    ensures configured <= 3 ==> size == configured
    ensures configured > 3 ==> size == 3
  {
    if configured > 3 then 3 else configured
  }

  type Size = s: nat | s <= 3

  /** The largest extranonce of a given size in bytes. */
  function MaxExtranonce(size: Size): nat {
    Pow(2, 8 * size) - 1
  }

  /** The string that a connection is given; without an extranonce it stays empty. */
  function ExtranonceString(size: Size, extranonce: nat): string {
    if size > 0 then PrintPadded(extranonce, size * 2, 16) else ""
  }

  /** strings.Replace(s, "0x", "", 1): the first "0x" goes, wherever it stands. */
  function StripHexPrefix(s: string): string {
    if |s| < 2 then s
    else if s[..2] == "0x" then s[2..]
    else [s[0]] + StripHexPrefix(s[1..])
  }

  /** The extranonce is put in front of a nonce that leaves room for it. */
  function Compose(extranonce: string, nonce: string): string {
    if extranonce != "" && |nonce| <= 16 - |extranonce|
    then extranonce + PadLeft(nonce, 16 - |extranonce|)
    else nonce
  }

  /** The nonce that a submit under the given extranonce stands for. */
  function NonceVal(extranonce: string, submitted: string): Parsed {
    ParseUint(Compose(extranonce, StripHexPrefix(submitted)), 16)
  }

  /** A nonce short enough to have the extranonce of a given size put in front. */
  predicate IsShort(size: Size, nonce: string) {
    |nonce| <= 16 - 2 * size
  }

  /** How many nonces a client with an extranonce of the given size can choose from. */
  function SliceWidth(size: Size): (w: nat)
    ensures w > 0
  {
    Pow(16, 16 - 2 * size)
  }

  lemma SixteenDigits()
    ensures Pow(16, 16) == TWO_64
  {
    assert Pow(16, 4) == 0x1_0000;
    PowAdd(16, 4, 4);
    assert Pow(16, 8) == TWO_32;
    PowAdd(16, 8, 8);
  }

  lemma ExtranonceRange(size: Size)
    ensures MaxExtranonce(size) + 1 == Pow(16, 2 * size)
  {
    assert Pow(2, 8) == 256 && Pow(16, 2) == 256;
    PowAdd(2, 8, 8);
    PowAdd(2, 8, 16);
    PowAdd(16, 2, 2);
    PowAdd(16, 2, 4);
  }

  /** Every extranonce the allocator can hand out prints with exactly two digits per byte. */
  lemma ExtranonceStringShape(size: Size, e: nat)
    requires size > 0 && e <= MaxExtranonce(size)
    ensures |ExtranonceString(size, e)| == 2 * size
    ensures AllDigits(ExtranonceString(size, e), 16)
    ensures Value(ExtranonceString(size, e), 16) == e
  {
    ExtranonceRange(size);
    PrintPaddedValue(e, size * 2, 16);
  }

  lemma DivOfSlice(e: nat, w: nat, v: nat)
    requires v < w
    ensures (e * w + v) / w == e && (e * w + v) % w == v
  {
    var n := e * w + v;
    DivMod(n, w);
    var q := n / w;
    if q < e {
      MulLe(q + 1, e, w);
    } else if q > e {
      MulLe(e + 1, q, w);
    }
  }

  // ---------- spellings ----------

  predicate PrefixAt(s: string, i: nat) {
    i + 2 <= |s| && s[i] == '0' && s[i + 1] == 'x'
  }

  /** t is s without the first "0x" that occurs in it, or s itself when none does. */
  ghost predicate Stripped(s: string, t: string) {
    || (t == s && forall i: nat :: !PrefixAt(s, i))
    || exists i: nat :: StrippedAt(s, t, i)
  }

  predicate StrippedAt(s: string, t: string, i: nat) {
    PrefixAt(s, i) && (forall j: nat :: j < i ==> !PrefixAt(s, j)) && t == s[..i] + s[i + 2..]
  }

  lemma PrefixLater(s: string, i: nat)
    requires |s| >= 2
    ensures PrefixAt(s, i + 1) <==> PrefixAt(s[1..], i)
  {
  }

  lemma {:induction false} StripAt(s: string, i: nat)
    requires PrefixAt(s, i) && forall j: nat :: j < i ==> !PrefixAt(s, j)
    ensures StripHexPrefix(s) == s[..i] + s[i + 2..]
  {
    if i == 0 {
      assert s[..2] == "0x" && s[..0] + s[2..] == s[2..];
    } else {
      assert s[..2] != "0x" by {
        assert !PrefixAt(s, 0);
      }
      PrefixLater(s, i - 1);
      forall j: nat | j < i - 1
        ensures !PrefixAt(s[1..], j)
      {
        PrefixLater(s, j);
      }
      StripAt(s[1..], i - 1);
      assert [s[0]] + (s[1..][..i - 1] + s[1..][i + 1..]) == s[..i] + s[i + 2..];
    }
  }

  lemma {:induction false} NothingToStrip(s: string)
    requires forall i: nat :: !PrefixAt(s, i)
    ensures StripHexPrefix(s) == s
  {
    if |s| >= 2 {
      assert s[..2] != "0x" by {
        assert !PrefixAt(s, 0);
      }
      forall i: nat
        ensures !PrefixAt(s[1..], i)
      {
        PrefixLater(s, i);
      }
      NothingToStrip(s[1..]);
    }
  }

  lemma {:induction false} FirstPrefix(s: string, n: nat) returns (i: nat)
    requires PrefixAt(s, n)
    ensures PrefixAt(s, i) && forall j: nat :: j < i ==> !PrefixAt(s, j)
  {
    if j: nat :| j < n && PrefixAt(s, j) {
      i := FirstPrefix(s, j);
    } else {
      i := n;
    }
  }

  /** Stripping takes exactly the first "0x" out, wherever it stands, and nothing else. */
  lemma StripMeaning(s: string, t: string)
    ensures Stripped(s, t) <==> t == StripHexPrefix(s)
  {
    if n: nat :| PrefixAt(s, n) {
      var i := FirstPrefix(s, n);
      StripAt(s, i);
      if Stripped(s, t) {
        var k: nat :| StrippedAt(s, t, k);
        StripAt(s, k);
      }
      assert t == StripHexPrefix(s) ==> StrippedAt(s, t, i);
    } else {
      NothingToStrip(s);
    }
  }

  lemma HexHasNoPrefix(t: string)
    requires AllDigits(t, 16)
    ensures forall i: nat :: !PrefixAt(t, i)
  {
    assert DigitValue('x') >= 16;
  }

  /** A hex nonce may be sent bare or with "0x" in front. */
  lemma HexSpellings(t: string)
    requires AllDigits(t, 16)
    ensures StripHexPrefix(t) == StripHexPrefix("0x" + t) == t
  {
    HexHasNoPrefix(t);
    NothingToStrip(t);
    assert PrefixAt("0x" + t, 0);
    StripAt("0x" + t, 0);
    assert ("0x" + t)[..0] + ("0x" + t)[2..] == t;
  }

  /** Both spellings stand for the same nonce. */
  lemma PrefixIgnored(extranonce: string, t: string)
    requires AllDigits(t, 16)
    ensures NonceVal(extranonce, "0x" + t) == NonceVal(extranonce, t)
  {
    HexSpellings(t);
  }

  // ---------- composed nonces ----------

  /**
   * A submit whose text without "0x" is a hex nonce of at most 16 - 2s digits composes to 16 digits, parses, and lands in
   * the slice of its extranonce.
   */
  lemma ShortNonce(size: Size, e: nat, submitted: string, nonce: string)
    requires size > 0 && e <= MaxExtranonce(size)
    requires Stripped(submitted, nonce) && |nonce| <= 16 - 2 * size && AllDigits(nonce, 16)
    ensures var v := e * SliceWidth(size) + Value(nonce, 16);
            && |Compose(ExtranonceString(size, e), nonce)| == 16
            && NonceVal(ExtranonceString(size, e), submitted) == Num(v)
            && v < TWO_64
            && v / SliceWidth(size) == e
            && v % SliceWidth(size) == Value(nonce, 16)
  {
    hide *;
    var w, d := SliceWidth(size), Value(nonce, 16);
    ComposedNonce(size, e, submitted, nonce, e * w + d);
    DivOfSlice(e, w, d);
  }

  lemma ComposedNonce(size: Size, e: nat, submitted: string, nonce: string, v: int)
    requires size > 0 && e <= MaxExtranonce(size)
    requires Stripped(submitted, nonce) && |nonce| <= 16 - 2 * size && AllDigits(nonce, 16)
    requires v == e * SliceWidth(size) + Value(nonce, 16)
    ensures |Compose(ExtranonceString(size, e), nonce)| == 16
    ensures NonceVal(ExtranonceString(size, e), submitted) == Num(v)
    ensures v < TWO_64 && Value(nonce, 16) < SliceWidth(size)
  {
    hide *;
    StripMeaning(submitted, nonce);
    ExtranonceStringShape(size, e);
    var ex, room := ExtranonceString(size, e), 16 - 2 * size;
    ComposedIs(size, e, submitted, nonce);
    ComposedValue(ex, nonce, room, SliceWidth(size));
    ParseUintMeaning(ex + PadLeft(nonce, room), 16);
  }

  lemma ComposedIs(size: Size, e: nat, submitted: string, nonce: string)
    requires size > 0 && |ExtranonceString(size, e)| == 2 * size
    requires nonce == StripHexPrefix(submitted) && |nonce| <= 16 - 2 * size
    ensures SliceWidth(size) == Pow(16, 16 - 2 * size)
    ensures var composed := ExtranonceString(size, e) + PadLeft(nonce, 16 - 2 * size);
            && Compose(ExtranonceString(size, e), nonce) == composed
            && NonceVal(ExtranonceString(size, e), submitted) == ParseUint(composed, 16)
  {
    hide ExtranonceString, ParseUint, PadLeft, Pow;
  }

  /** Digits in front of a padded text shift past it. */
  lemma ComposedValue(ex: string, nonce: string, room: nat, width: nat)
    requires AllDigits(ex, 16) && AllDigits(nonce, 16) && |ex| + room == 16 && |nonce| <= room
    requires width == Pow(16, room)
    ensures var composed := ex + PadLeft(nonce, room);
            && |composed| == 16 && AllDigits(composed, 16)
            && Value(composed, 16) == Value(ex, 16) * width + Value(nonce, 16)
            && Value(composed, 16) < TWO_64
    ensures Value(nonce, 16) < width
  {
    var padded := PadLeft(nonce, room);
    PadLeftValue(nonce, room, 16);
    ValueConcat(ex, padded, 16);
    ValueBound(padded, 16);
    ValueBound(ex + padded, 16);
    SixteenDigits();
    hide *;
  }

  /** A nonce too long to be composed is taken as it stands, whatever the extranonce is. */
  lemma LongNonce(size: Size, e: nat, submitted: string, nonce: string)
    requires size > 0 && e <= MaxExtranonce(size)
    requires Stripped(submitted, nonce) && |nonce| > 16 - 2 * size
    ensures NonceVal(ExtranonceString(size, e), submitted) == ParseUint(nonce, 16)
  {
    StripMeaning(submitted, nonce);
    ExtranonceStringShape(size, e);
  }

  /** A submit is accepted exactly when its text without "0x" is hex and either short enough to be composed or a 64-bit number. */
  lemma AcceptedNonce(size: Size, e: nat, submitted: string, nonce: string)
    requires size > 0 && e <= MaxExtranonce(size) && Stripped(submitted, nonce)
    ensures NonceVal(ExtranonceString(size, e), submitted).Num?
       <==> AllDigits(nonce, 16) && (|nonce| <= 16 - 2 * size || Value(nonce, 16) < TWO_64)
  {
    hide Stripped;
    StripMeaning(submitted, nonce);
    if |nonce| > 16 - 2 * size {
      LongNonce(size, e, submitted, nonce);
      ParseUintMeaning(nonce, 16);
    } else if AllDigits(nonce, 16) {
      ShortNonce(size, e, submitted, nonce);
    } else {
      ExtranonceStringShape(size, e);
      NotHex(ExtranonceString(size, e), nonce, 16 - 2 * size);
    }
  }

  lemma NotHex(ex: string, nonce: string, room: nat)
    requires |nonce| <= room && !AllDigits(nonce, 16)
    ensures !ParseUint(ex + PadLeft(nonce, room), 16).Num?
  {
    hide ParseUint;
    var composed := ex + PadLeft(nonce, room);
    ParseUintMeaning(composed, 16);
    var i :| 0 <= i < |nonce| && DigitValue(nonce[i]) >= 16;
    assert composed[|ex| + room - |nonce| + i] == nonce[i];
  }

  /** The nonce is composed, or starts in the slice of the given extranonce anyway. */
  predicate InOwnSlice(size: Size, e: nat, submitted: string) {
    var nonce := StripHexPrefix(submitted);
    IsShort(size, nonce) || (AllDigits(nonce, 16) && Value(nonce, 16) / SliceWidth(size) == e)
  }

  /** An accepted nonce is inside its client's slice if and only if it was composed or starts there anyway. */
  lemma InsideSlice(size: Size, e: nat, submitted: string)
    requires size > 0 && e <= MaxExtranonce(size)
    requires NonceVal(ExtranonceString(size, e), submitted).Num?
    ensures 0 <= NonceVal(ExtranonceString(size, e), submitted).value < TWO_64
    ensures NonceVal(ExtranonceString(size, e), submitted).value / SliceWidth(size) == e <==> InOwnSlice(size, e, submitted)
  {
    hide ExtranonceString, MaxExtranonce, SliceWidth, AllDigits, ParseUint, Stripped;
    var nonce := StripHexPrefix(submitted);
    StripMeaning(submitted, nonce);
    AcceptedNonce(size, e, submitted, nonce);
    if IsShort(size, nonce) {
      ShortNonce(size, e, submitted, nonce);
    } else {
      LongNonce(size, e, submitted, nonce);
      ParseUintMeaning(nonce, 16);
    }
  }

  /** Some nonce composed with the given extranonce stands for v. */
  ghost predicate ComposedReaches(size: Size, e: nat, v: int) {
    exists s: string :: ComposesTo(size, e, s, v)
  }

  predicate ComposesTo(size: Size, e: nat, submitted: string, v: int) {
    IsShort(size, StripHexPrefix(submitted)) && NonceVal(ExtranonceString(size, e), submitted) == Num(v)
  }

  /** Every 64-bit nonce starts in the slice of some extranonce. */
  lemma SliceOf(size: Size, v: nat)
    requires size > 0 && v < TWO_64
    ensures v / SliceWidth(size) <= MaxExtranonce(size)
  {
    hide MaxExtranonce;
    SixteenDigits();
    ExtranonceRange(size);
    PowAdd(16, 16 - 2 * size, 2 * size);
    DivBelow(v, SliceWidth(size), Pow(16, 2 * size));
  }

  /** And is composed with that extranonce from its remaining digits. */
  lemma SliceIsReached(size: Size, v: nat)
    requires size > 0 && v < TWO_64
    ensures ComposedReaches(size, v / SliceWidth(size), v)
  {
    hide ExtranonceString, MaxExtranonce, PrintPadded, NonceVal, AllDigits;
    var w := SliceWidth(size);
    var s := PrintPadded(v % w, 16 - 2 * size, 16);
    DivMod(v, w);
    SliceOf(size, v);
    PrintPaddedValue(v % w, 16 - 2 * size, 16);
    HexSpellings(s);
    StripMeaning(s, s);
    hide Stripped;
    ShortNonce(size, v / w, s, s);
    assert ComposesTo(size, v / w, s, v);
  }

  /** An extranonce from which a nonce is composed is the one whose slice it starts in. */
  lemma ReachedFromSlice(size: Size, e: nat, v: int)
    requires size > 0 && e <= MaxExtranonce(size) && ComposedReaches(size, e, v)
    ensures v / SliceWidth(size) == e
  {
    hide ExtranonceString, MaxExtranonce, NonceVal, SliceWidth;
    var s :| ComposesTo(size, e, s, v);
    InsideSlice(size, e, s);
  }

  /** Another client can reach an accepted nonce by composing if and only if it is neither composed nor starts in its own slice. */
  lemma ForeignNonce(size: Size, e: nat, submitted: string)
    requires size > 0 && e <= MaxExtranonce(size)
    requires NonceVal(ExtranonceString(size, e), submitted).Num?
    ensures var v := NonceVal(ExtranonceString(size, e), submitted).value;
            (exists other: nat :: other <= MaxExtranonce(size) && other != e && ComposedReaches(size, other, v))
            <==> !InOwnSlice(size, e, submitted)
  {
    hide ExtranonceString, MaxExtranonce, NonceVal, SliceWidth, ComposedReaches, InOwnSlice;
    var v := NonceVal(ExtranonceString(size, e), submitted).value;
    InsideSlice(size, e, submitted);
    SliceOf(size, v);
    SliceIsReached(size, v);
    forall other: nat | other <= MaxExtranonce(size) && ComposedReaches(size, other, v)
      ensures v / SliceWidth(size) == other
    {
      ReachedFromSlice(size, other, v);
    }
  }

  /** Long nonces break the partition: any two clients that submit 16 zeros get the same nonce. */
  lemma LongNoncesCollide(size: Size, e1: nat, e2: nat)
    requires size > 0 && e1 < e2 <= MaxExtranonce(size)
    ensures NonceVal(ExtranonceString(size, e1), Zeros(16)) == Num(0)
    ensures NonceVal(ExtranonceString(size, e2), Zeros(16)) == Num(0)
  {
    ZerosValue(16, 16);
    HexSpellings(Zeros(16));
    StripMeaning(Zeros(16), Zeros(16));
    ParseUintMeaning(Zeros(16), 16);
    LongNonce(size, e1, Zeros(16), Zeros(16));
    LongNonce(size, e2, Zeros(16), Zeros(16));
  }
}
