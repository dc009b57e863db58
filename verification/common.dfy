/** Failure-compatible wrappers and the Java numeric conventions the statistics
    engine and the split codec rely on. */
module Common {

  datatype Option<+T> = None | Some(value: T)

  datatype Result<+T, +E> = Success(value: T) | Failure(error: E) {
    predicate IsFailure() { Failure? }

    function PropagateFailure<U>(): Result<U, E>
      requires Failure?
    {
      Failure(error)
    }

    function Extract(): T
      requires Success?
    {
      value
    }
  }

  /** Bounds of a Java `long`. */
  const LONG_MAX: int := 0x7fff_ffff_ffff_ffff
  const LONG_MIN: int := -0x8000_0000_0000_0000

  type Long = x: int | LONG_MIN <= x <= LONG_MAX

  /** Bounds of a Java `int`. */
  const INT_MAX: int := 0x7fff_ffff
  const INT_MIN: int := -0x8000_0000

  type Int = x: int | INT_MIN <= x <= INT_MAX

  /** An unsigned byte value. */
  type UInt8 = x: int | 0 <= x < 256

  /** Java's `(long)` cast of a finite double: rounds toward zero and
      saturates at the bounds of `long`. */
  function LongCast(x: real): (r: int)
    ensures LONG_MIN <= r <= LONG_MAX
    ensures LONG_MIN as real <= x <= LONG_MAX as real && x >= 0.0 ==> r as real <= x < r as real + 1.0
    ensures LONG_MIN as real <= x <= LONG_MAX as real && x < 0.0 ==> r as real - 1.0 < x <= r as real
    ensures x >= LONG_MAX as real ==> r == LONG_MAX
    ensures x <= LONG_MIN as real ==> r == LONG_MIN
  {
    if x >= LONG_MAX as real then LONG_MAX
    else if x <= LONG_MIN as real then LONG_MIN
    else if x >= 0.0 then x.Floor
    else -((-x).Floor)
  }

  /** Java's `(long) (num / den)` on doubles, including the non-finite
      quotients of a zero denominator: a positive numerator gives +Infinity
      (cast to LONG_MAX), a negative one -Infinity (LONG_MIN), and 0/0 gives
      NaN, which the cast turns into 0. */
  function LongOfQuotient(num: real, den: real): (r: int)
    ensures den != 0.0 ==> r == LongCast(num / den)
    ensures den == 0.0 && num > 0.0 ==> r == LONG_MAX
    ensures den == 0.0 && num < 0.0 ==> r == LONG_MIN
    ensures den == 0.0 && num == 0.0 ==> r == 0
  {
    if den != 0.0 then LongCast(num / den)
    else if num > 0.0 then LONG_MAX
    else if num < 0.0 then LONG_MIN
    else 0
  }

  /** A Java double: a finite value, or one of the non-finite values (an
      infinity or NaN), which are not told apart. Rounding is not modelled. */
  datatype Double = Finite(v: real) | NonFinite

  /** Double addition: a non-finite operand makes the sum non-finite. */
  function AddDouble(a: Double, b: Double): (r: Double)
    ensures r.Finite? <==> a.Finite? && b.Finite?
    ensures r.Finite? ==> r.v == a.v + b.v
  {
    if a.Finite? && b.Finite? then Finite(a.v + b.v) else NonFinite
  }

  /** Double division by a finite `den`: dividing by zero gives an infinity,
      or NaN for 0/0. */
  function DivDouble(num: Double, den: real): (q: Double)
    ensures q.Finite? <==> num.Finite? && den != 0.0
    ensures q.Finite? ==> q.v == num.v / den
  {
    if num.Finite? && den != 0.0 then Finite(num.v / den) else NonFinite
  }

  /** `(long) (num / den)` for a finite `num`. A non-finite `den` makes the
      quotient a zero or NaN, both cast to 0. */
  function LongOfDoubleQuotient(num: real, den: Double): (r: int)
    ensures den.Finite? ==> r == LongOfQuotient(num, den.v)
    ensures den.NonFinite? ==> r == 0
  {
    if den.Finite? then LongOfQuotient(num, den.v) else 0
  }

  /** Java's integer division, which rounds toward zero (Dafny's `/` is
      Euclidean). */
  function JavaDiv(a: int, b: int): (q: int)
    requires b != 0
    ensures a >= 0 && b > 0 ==> q * b <= a < (q + 1) * b
    ensures a < 0 && b > 0 ==> (q - 1) * b < a <= q * b
  {
    if a >= 0 then a / b
    else if b > 0 then -((-a) / b)
    else (-a) / (-b)
  }

  function Max(a: int, b: int): int { if a >= b then a else b }
}
