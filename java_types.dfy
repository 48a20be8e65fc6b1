/**
 * The slice of Java's value semantics the handlers and meters depend on:
 * 32- and 64-bit two's-complement integers, the truncating remainder
 * operator, and the exceptions the core throws, modelled as values.
 */
module JavaTypes {

  const INT_MIN: int := -0x8000_0000
  const INT_MAX: int := 0x7fff_ffff
  const LONG_MIN: int := -0x8000_0000_0000_0000
  const LONG_MAX: int := 0x7fff_ffff_ffff_ffff

  /** Java `int`. */
  type int32 = x: int | INT_MIN <= x <= INT_MAX

  /** Java `long`. */
  type int64 = x: int | LONG_MIN <= x <= LONG_MAX

  /** The exceptions thrown (and caught) by the modelled code. */
  datatype Exception =
    | IllegalArgumentException(message: string)
    | CodecException(message: string)
    | ArithmeticException(message: string)
    | IndexOutOfBoundsException
    | InterruptedException
    | TransportException(detail: string)

  /** A value, or the exception thrown instead of producing it. */
  datatype Result<T> = Success(value: T) | Failure(error: Exception)

  datatype Option<T> = None | Some(value: T)

  function Abs(x: int): (r: nat)
    ensures r == x || r == -x
  {
    if x < 0 then -x else x
  }

  /**
   * Narrowing to `int`, as a `(int)` cast or an overflowing `int` addition
   * does: the unique int32 congruent to x modulo 2^32.
   */
  function Int32(x: int): (r: int32)
    ensures (x - r) % 0x1_0000_0000 == 0
    ensures INT_MIN <= x <= INT_MAX ==> r == x
  {
    var m := x % 0x1_0000_0000;
    if m <= INT_MAX then m else m - 0x1_0000_0000
  }

  /** Narrowing to `long`: the unique int64 congruent to x modulo 2^64. */
  function Int64(x: int): (r: int64)
    ensures (x - r) % 0x1_0000_0000_0000_0000 == 0
    ensures LONG_MIN <= x <= LONG_MAX ==> r == x
  {
    var m := x % 0x1_0000_0000_0000_0000;
    if m <= LONG_MAX then m else m - 0x1_0000_0000_0000_0000
  }

  /**
   * Java's `%`: the remainder of division truncated toward zero. It has the
   * sign of the dividend and a magnitude below the divisor's; on a
   * non-negative dividend it agrees with the Euclidean remainder.
   */
  function JavaRem(a: int, b: int): (r: int)
    requires b != 0
    ensures 0 <= a ==> r == a % Abs(b)
    ensures 0 <= a ==> 0 <= r < Abs(b)
    ensures a <= 0 ==> -(Abs(b) as int) < r <= 0
    ensures a < 0 ==> r == -((-a) % Abs(b))
  {
    var m := Abs(a) % Abs(b);
    if 0 <= a then m else -m
  }
}
