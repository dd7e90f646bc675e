/**
 * Integer operations of C++ and Java that differ from Dafny's unbounded,
 * Euclidean ones: division truncating toward zero and 32-bit wrap-around.
 */
module Arith {

  const INT32_MIN: int := -0x8000_0000
  const INT32_MAX: int := 0x7FFF_FFFF

  predicate IsInt32(a: int)
  {
    INT32_MIN <= a <= INT32_MAX
  }

  /** Division truncating toward zero, as `/` in C++ and Java. */
  function TruncDiv(a: int, b: int): int
    requires b != 0
  {
    if (a >= 0) == (b > 0) then Abs(a) / Abs(b) else -(Abs(a) / Abs(b))
  }

  function Abs(a: int): nat
  {
    if a < 0 then -a else a
  }

  /** On non-negative operands truncating division is Dafny's division. */
  lemma TruncDivNonNegative(a: int, b: int)
    requires a >= 0 && b > 0
    ensures TruncDiv(a, b) == a / b
  {
  }

  /** Two's-complement wrap-around of a Java or C++ `int`. */
  function Wrap32(a: int): (w: int)
    ensures IsInt32(w)
    ensures IsInt32(a) ==> w == a
    ensures (w - a) % 0x1_0000_0000 == 0
  {
    var m := (a - INT32_MIN) % 0x1_0000_0000;
    m + INT32_MIN
  }
}
