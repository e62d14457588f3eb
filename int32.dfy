/** Java's 32-bit `int`: its range, its wrap-around addition and negation,
    and `Math.max` / `Math.min`. */
module Int32 {

  /** `Integer.MIN_VALUE`, which is also `(int) Double.NEGATIVE_INFINITY`. */
  const MinValue: int := -0x8000_0000
  /** `Integer.MAX_VALUE`, which is also `(int) Double.POSITIVE_INFINITY`. */
  const MaxValue: int := 0x7fff_ffff
  /** Number of distinct 32-bit values. */
  const Modulus: int := 0x1_0000_0000

  type i32 = x: int | MinValue <= x <= MaxValue

  /** The 32-bit two's-complement value with the same low 32 bits as `x`. */
  function Wrap(x: int): (r: i32)
    ensures (x - r) % Modulus == 0
    ensures MinValue <= x <= MaxValue ==> r == x
  {
    (x - MinValue) % Modulus + MinValue
  }

  /** Two values that differ by a multiple of the modulus wrap to the same value. */
  lemma WrapCongruent(x: int, y: int)
    requires (x - y) % Modulus == 0
    ensures Wrap(x) == Wrap(y)
  {
    var q := (x - y) / Modulus;
    assert x - y == q * Modulus;
    assert (x - MinValue) == (y - MinValue) + q * Modulus;
  }

  /** Wrapping once per step or once at the end gives the same value. */
  lemma WrapAddLeft(x: int, y: int)
    ensures Wrap(Wrap(x) + y) == Wrap(x + y)
  {
    WrapCongruent(Wrap(x) + y, x + y);
  }

  /** Java `a + b` on `int`. */
  function Add(a: i32, b: i32): (r: i32)
    ensures var sum := a as int + b as int;
      && (MinValue <= sum <= MaxValue ==> r == sum)
      && (sum > MaxValue ==> r == sum - Modulus)
      && (sum < MinValue ==> r == sum + Modulus)
  {
    Wrap(a as int + b as int)
  }

  /** Java unary `-a` on `int`: exact except that `-MIN_VALUE` is `MIN_VALUE`. */
  function Neg(a: i32): (r: i32)
    ensures a != MinValue ==> r == -a
    ensures a == MinValue ==> r == MinValue
  {
    Wrap(-(a as int))
  }

  /** `Math.max(int, int)`. */
  function Max(a: i32, b: i32): i32 {
    if a >= b then a else b
  }

  /** `Math.min(int, int)`. */
  function Min(a: i32, b: i32): i32 {
    if a <= b then a else b
  }
}
