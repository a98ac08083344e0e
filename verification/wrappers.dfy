/** Option and Result types standing in for Java's null returns and thrown exceptions. */
module Wrappers {

  datatype Option<+T> = None | Some(value: T)

  /** The Java exceptions the engine can raise on the paths this model covers. */
  datatype Exception =
    | IndexOutOfBounds
    | NoSuchElement
    | IllegalArgument
    | NullPointer
    | Arithmetic
    | ClassCast

  datatype Result<+T> = Ok(value: T) | Err(error: Exception)

  /** Java's `int` arithmetic: the mathematical result reduced to [-2^31, 2^31). */
  function Wrap32(n: int): (r: int)
    ensures -0x8000_0000 <= r < 0x8000_0000
    ensures (r - n) % 0x1_0000_0000 == 0
  {
    var m := n % 0x1_0000_0000;
    if m >= 0x8000_0000 then m - 0x1_0000_0000 else m
  }

  predicate IsInt32(n: int) {
    -0x8000_0000 <= n < 0x8000_0000
  }

  lemma Wrap32Identity(n: int)
    requires IsInt32(n)
    ensures Wrap32(n) == n
  {
  }

  /**
   * Java's narrowing cast `(int)` of a float or double: rounds toward zero
   * and saturates at the ends of the int range (NaN, which maps to 0, has no
   * counterpart among the reals).
   */
  function FloatToInt(x: real): (r: int)
    ensures IsInt32(r)
    ensures 0.0 <= x < 0x7fff_ffff as real ==> r == x.Floor
    ensures -0x8000_0000 as real < x < 0.0 ==> r == -((-x).Floor)
    ensures x >= 0x7fff_ffff as real ==> r == 0x7fff_ffff
    ensures x <= -0x8000_0000 as real ==> r == -0x8000_0000
  {
    if x >= 0x7fff_ffff as real then 0x7fff_ffff
    else if x <= -0x8000_0000 as real then -0x8000_0000
    else if x >= 0.0 then x.Floor
    else -((-x).Floor)
  }

  /** The cast leaves whole numbers in the int range as they are, and is odd: (int)(-x) == -(int)x inside the range. */
  lemma FloatToIntFacts(n: int, x: real)
    ensures IsInt32(n) ==> FloatToInt(n as real) == n
    ensures -0x7fff_ffff as real <= x <= 0x7fff_ffff as real ==> FloatToInt(-x) == -FloatToInt(x)
  {
  }
}
