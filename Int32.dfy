/**
 * The C# `int` type: 32-bit two's complement, with unchecked (wrapping)
 * arithmetic, which is what the goal tracker's compiled code does on overflow.
 */
module Int32 {

  const MIN: int := -0x8000_0000
  const MAX: int := 0x7fff_ffff
  const MODULUS: int := 0x1_0000_0000

  newtype int32 = x: int | -0x8000_0000 <= x < 0x8000_0000

  predicate InRange(x: int) {
    MIN <= x <= MAX
  }

  /** The `int` that unchecked arithmetic yields for the mathematical result `x`. */
  function Wrap(x: int): (r: int32)
    ensures InRange(x) ==> r as int == x
    ensures (x - r as int) % MODULUS == 0
  {
    var m := (x - MIN) % MODULUS;
    assert x - (m + MIN) == MODULUS * ((x - MIN) / MODULUS);
    (m + MIN) as int32
  }

  /** Two `int` values that agree modulo 2^32 are the same value. */
  lemma CongruentEqual(x: int, y: int)
    requires InRange(x) && InRange(y)
    requires (x - y) % MODULUS == 0
    ensures x == y
  {
  }

  /** Differences that are multiples of 2^32 add up to a multiple of 2^32. */
  lemma CongruentSum(a: int, b: int, c: int)
    requires a % MODULUS == 0 && b % MODULUS == 0 && c % MODULUS == 0
    ensures (a + b + c) % MODULUS == 0
  {
    assert a == MODULUS * (a / MODULUS);
    assert b == MODULUS * (b / MODULUS);
    assert c == MODULUS * (c / MODULUS);
    assert a + b + c == MODULUS * (a / MODULUS + b / MODULUS + c / MODULUS);
  }
}
