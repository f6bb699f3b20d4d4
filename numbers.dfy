/**
 * Machine-integer behaviour that Dafny's unbounded `int` does not have:
 * the `i32` range, the wrap-around of an `as i32` cast, and division and
 * remainder that truncate toward zero (Rust's and JavaScript's operators,
 * unlike Dafny's Euclidean ones).
 */
module Numbers {
  const I32Min: int := -0x8000_0000
  const I32Max: int := 0x7fff_ffff
  const TwoTo32: int := 0x1_0000_0000

  predicate InI32(x: int) { I32Min <= x <= I32Max }

  function Min(a: int, b: int): (r: int)
    ensures r <= a && r <= b && (r == a || r == b)
  {
    if a <= b then a else b
  }

  /** The value an `as i32` cast (or a release-build i32 overflow) produces. */
  function WrapI32(x: int): (r: int)
    ensures InI32(r)
    ensures (x - r) % TwoTo32 == 0
    ensures InI32(x) ==> r == x
  {
    var m := x % TwoTo32;
    if m > I32Max then m - TwoTo32 else m
  }

  /** Integer division rounding toward zero, as Rust's `/` on signed integers. */
  function TruncDiv(a: int, b: int): (q: int)
    requires b > 0
    ensures a >= 0 ==> 0 <= a - b * q < b
    ensures a < 0 ==> -b < a - b * q <= 0
  {
    if a >= 0 then a / b else -((-a) / b)
  }

  /** Remainder with the sign of the dividend, as `%` in Rust and JavaScript. */
  function TruncRem(a: int, b: int): (r: int)
    requires b > 0
    ensures b * TruncDiv(a, b) + r == a
    ensures a >= 0 ==> 0 <= r < b
    ensures a < 0 ==> -b < r <= 0
  {
    a - b * TruncDiv(a, b)
  }
}
