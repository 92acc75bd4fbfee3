/** Fixed-width integer behaviour of Go that the bridge depends on. */
module GoInts {

  const TWO_31: int := 0x8000_0000
  const TWO_32: int := 0x1_0000_0000
  const TWO_63: int := 0x8000_0000_0000_0000
  const TWO_64: int := 0x1_0000_0000_0000_0000

  /** The int32 that x becomes when arithmetic wraps around. */
  function WrapInt32(x: int): (r: int)
    ensures -TWO_31 <= r < TWO_31
    ensures (r - x) % TWO_32 == 0
  {
    (x + TWO_31) % TWO_32 - TWO_31
  }

  /** The int (64 bits) that x becomes when arithmetic wraps around. */
  function WrapInt64(x: int): (r: int)
    ensures -TWO_63 <= r < TWO_63
    ensures (r - x) % TWO_64 == 0
  {
    (x + TWO_63) % TWO_64 - TWO_63
  }

  /** Go's `%`: the remainder takes the sign of the dividend. */
  function GoRem(a: int, b: int): (r: int)
    requires b > 0
    ensures -b < r < b
    ensures a >= 0 ==> r == a % b
    ensures a < 0 ==> r <= 0
    ensures (a - r) % b == 0
  {
    RemainderTaken(a, b);
    RemainderTaken(-a, b);
    if a >= 0 then a % b else -((-a) % b)
  }

  /** What is left without the remainder, or its negation, is a multiple of the divisor. */
  lemma RemainderTaken(a: int, b: int)
    requires b > 0
    ensures (a - a % b) % b == 0 && (a % b - a) % b == 0
  {
    var q := a / b;
    assert a - a % b == b * q && a % b - a == b * -q;
    MultipleOf(b, q);
    MultipleOf(b, -q);
  }

  lemma MultipleOf(b: int, q: int)
    requires b > 0
    ensures (b * q) % b == 0
  {
    var k := q - (b * q) / b;
    assert b * k == (b * q) % b;
    AtLeastOnce(b, k);
  }

  lemma AtLeastOnce(b: int, k: int)
    requires b > 0
    ensures k > 0 ==> b * k >= b
    ensures k < 0 ==> b * k <= -b
  {
  }

  /** Two values whose wrapped images agree are a multiple of 2^32 apart. */
  lemma WrapInt32Injective(x: int, y: int)
    requires x <= y < x + TWO_32
    requires WrapInt32(x) == WrapInt32(y)
    ensures x == y
  {
    var a, b := x + TWO_31, y + TWO_31;
    assert a == TWO_32 * (a / TWO_32) + a % TWO_32;
    assert b == TWO_32 * (b / TWO_32) + b % TWO_32;
  }
}
