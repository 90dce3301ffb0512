/**
 * The few JavaScript number operations the pixel pipeline relies on, stated
 * on exact integers and reals: `Math.min`, `Math.max`, `Math.round`, the
 * `x | 0` truncation to a signed 32-bit integer, and the conversion a
 * `Uint16Array` applies when an integer is stored. The bytes stored into an
 * `ImageData` are already in [0, 255], so its element type is just `u8`.
 * NaN and the infinities are not values here; where the script produces a
 * NaN the callers say so and model its effect directly.
 */
module JsNumber {

  /** An element of a `Uint16Array`. */
  newtype u16 = x: int | 0 <= x < 0x1_0000

  /** An element of a `Uint8ClampedArray` (the bytes of an `ImageData`). */
  newtype u8 = x: int | 0 <= x < 0x100

  const TwoTo31: int := 0x8000_0000
  const TwoTo32: int := 0x1_0000_0000

  /** `Math.min` on integers. */
  function Min(a: int, b: int): (m: int)
    ensures m <= a && m <= b
    ensures m == a || m == b
  {
    if a <= b then a else b
  }

  /** `Math.max` on integers. */
  function Max(a: int, b: int): (m: int)
    ensures m >= a && m >= b
    ensures m == a || m == b
  {
    if a >= b then a else b
  }

  /** Truncation toward zero, the ToIntegerOrInfinity step of `x | 0`. */
  function Trunc(x: real): (n: int)
    ensures 0.0 <= x ==> n as real <= x < n as real + 1.0
    ensures x <= 0.0 ==> n as real - 1.0 < x <= n as real
  {
    if x >= 0.0 then x.Floor else -((-x).Floor)
  }

  /** Reduction of an integer to a signed 32-bit integer, the ToInt32 step of `x | 0`. */
  function WrapInt32(n: int): (w: int)
    ensures -TwoTo31 <= w < TwoTo31
    ensures (w - n) % TwoTo32 == 0
    ensures -TwoTo31 <= n < TwoTo31 ==> w == n
  {
    var m := n % TwoTo32;
    if m >= TwoTo31 then m - TwoTo32 else m
  }

  /** The JavaScript expression `x | 0` for a finite number `x`. */
  function BitOrZero(x: real): (n: int)
    ensures -TwoTo31 <= n < TwoTo31
    ensures 0.0 <= x < TwoTo31 as real ==> n as real <= x < n as real + 1.0
    ensures -(TwoTo31 as real) < x <= 0.0 ==> n as real - 1.0 < x <= n as real
  {
    WrapInt32(Trunc(x))
  }

  /** `Math.round` for a finite number: the nearest integer, halves rounded up. */
  function Round(x: real): (n: int)
    ensures n as real - 0.5 <= x < n as real + 0.5
  {
    (x + 0.5).Floor
  }

  /** The value a `Uint16Array` keeps when an integer is stored into it (ToUint16). */
  function ToUint16(n: int): (u: u16)
    ensures 0 <= n < 0x1_0000 ==> u as int == n
    ensures (u as int - n) % 0x1_0000 == 0
  {
    (n % 0x1_0000) as u16
  }

  /** Rounding is monotone: a larger number never rounds to a smaller integer. */
  lemma RoundMonotone(x: real, y: real)
    requires x <= y
    ensures Round(x) <= Round(y)
  {
    assert Round(x) as real - 0.5 <= x <= y < Round(y) as real + 0.5;
  }

  /** Rounding an integer-valued number gives that integer back. */
  lemma RoundOfInteger(n: int)
    ensures Round(n as real) == n
  {
  }
}
