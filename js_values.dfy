/**
 * JavaScript number conventions the engine relies on: truncation toward
 * zero and the ECMAScript ToInt32 conversion, which is what `x | 0`,
 * `x >> 0` and a store into an Int32Array do to a number.
 */
module JsValues {

  const TWO_31: int := 0x8000_0000
  const TWO_32: int := 0x1_0000_0000

  /** ToInt32 of an integral number: wrap modulo 2^32 into [-2^31, 2^31). */
  function ToInt32(n: int): (r: int)
    ensures -TWO_31 <= r < TWO_31
    ensures (n - r) % TWO_32 == 0
    ensures -TWO_31 <= n < TWO_31 ==> r == n
  {
    var m := n % TWO_32;
    if m >= TWO_31 then m - TWO_32 else m
  }

  /** Truncation toward zero: the integral part of x, rounding toward 0. */
  function Trunc(x: real): (r: int)
    ensures 0.0 <= x ==> r as real <= x < r as real + 1.0
    ensures x < 0.0 ==> r as real - 1.0 < x <= r as real
  {
    if x >= 0.0 then x.Floor else -((-x).Floor)
  }

  /** The 32-bit conversion of a number: truncate toward zero, then wrap. */
  function Int32Of(x: real): int
  {
    ToInt32(Trunc(x))
  }
}
