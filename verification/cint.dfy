/**
 * C integer semantics that the source relies on: 32-bit two's-complement
 * truncation (`static_cast<int>` of a wider value), unsigned 32-bit
 * wrap-around, and C division, which truncates toward zero (Dafny's `/`
 * is Euclidean and differs on negative operands).
 */
module CInt {
  const TWO32: int := 0x1_0000_0000
  const TWO64: int := 0x1_0000_0000_0000_0000
  const INT32_MIN: int := -0x8000_0000
  const INT32_MAX: int := 0x7FFF_FFFF
  const INT64_MIN: int := -0x8000_0000_0000_0000
  const INT64_MAX: int := 0x7FFF_FFFF_FFFF_FFFF

  type int32 = x: int | -0x8000_0000 <= x <= 0x7FFF_FFFF
  type uint32 = x: int | 0 <= x < 0x1_0000_0000
  type int64 = x: int | -0x8000_0000_0000_0000 <= x <= 0x7FFF_FFFF_FFFF_FFFF
  type uint8 = x: int | 0 <= x < 256

  /** `static_cast<uint32_t>(x)`: reduction modulo 2^32. */
  function U32(x: int): (r: uint32)
    ensures (x - r) % TWO32 == 0
    ensures 0 <= x < TWO32 ==> r == x
  {
    x % TWO32
  }

  /** `static_cast<int32_t>(x)` on a two's-complement machine. */
  function Wrap32(x: int): (r: int32)
    ensures (x - r) % TWO32 == 0
    ensures INT32_MIN <= x <= INT32_MAX ==> r == x
  {
    var m := x % TWO32;
    if m > INT32_MAX then m - TWO32 else m
  }

  /** Signed 64-bit arithmetic that wraps, as x86 code does in practice. */
  function Wrap64(x: int): (r: int64)
    ensures (x - r) % TWO64 == 0
    ensures INT64_MIN <= x <= INT64_MAX ==> r == x
  {
    var m := x % TWO64;
    if m > INT64_MAX then m - TWO64 else m
  }

  function Abs(x: int): (r: nat)
    ensures r == x || r == -x
  {
    if x < 0 then -x else x
  }

  /**
   * C's `a / b`: the quotient truncated toward zero. The remainder
   * `a - r*b` is smaller than `b` in magnitude and never has the opposite
   * sign of `a`.
   */
  function TruncDiv(a: int, b: int): (r: int)
    requires b != 0
    ensures Abs(a - r * b) < Abs(b)
    ensures a - r * b == 0 || (a - r * b < 0 <==> a < 0)
    ensures a >= 0 && b > 0 ==> r == a / b
  {
    var q := Abs(a) / Abs(b);
    DivModAbs(Abs(a), Abs(b));
    if (a < 0) != (b < 0) then
      assert a - (-q) * b == (if a < 0 then -(Abs(a) - q * Abs(b)) else Abs(a) - q * Abs(b));
      -q
    else
      assert a - q * b == (if a < 0 then -(Abs(a) - q * Abs(b)) else Abs(a) - q * Abs(b));
      q
  }

  lemma {:induction false} DivModAbs(a: nat, b: nat)
    requires b > 0
    ensures 0 <= a - (a / b) * b < b
  {
  }

  /** `std::clamp(x, lo, hi)`. */
  function Clamp(x: int, lo: int, hi: int): (r: int)
    requires lo <= hi
    ensures lo <= r <= hi
    ensures lo <= x <= hi ==> r == x
    ensures x < lo ==> r == lo
    ensures x > hi ==> r == hi
  {
    if x < lo then lo else if x > hi then hi else x
  }
}
