/** Fixed-width integer arithmetic of the Rust source, written out over
    Dafny's unbounded `int`: the `i16` range, the `as i16` truncating cast and
    the saturating additions. */
module Integers {

  const I16Min: int := -32768
  const I16Max: int := 32767
  const I32Min: int := -0x8000_0000
  const I32Max: int := 0x7FFF_FFFF

  /** A value of Rust's `i16`. Arithmetic whose result is stored in an `I16`
      must be proved to stay in range: that is the absence of the overflow
      panic a debug build would raise. */
  type I16 = x: int | I16Min <= x <= I16Max

  /** A value of Rust's `i32`. */
  type I32 = x: int | I32Min <= x <= I32Max

  /** Two's-complement truncation to 16 bits, as `x as i16` does. */
  function WrapI16(x: int): (r: I16)
    ensures (r - x) % 0x1_0000 == 0
    ensures I16Min <= x <= I16Max ==> r == x
  {
    (x - I16Min) % 0x1_0000 + I16Min
  }

  /** Truncation to 8 bits, as `x as u8` does. */
  function WrapU8(x: int): (r: bv8)
    ensures 0 <= x < 0x100 ==> r as int == x
  {
    var m := x % 0x100;
    assert 0 <= x < 0x100 ==> m == x;
    m as bv8
  }

  /** `a.saturating_add(b)` on `i32`. */
  function SaturatingAddI32(a: I32, b: I32): (r: I32)
    ensures I32Min <= a + b <= I32Max ==> r == a + b
    ensures a + b > I32Max ==> r == I32Max
    ensures a + b < I32Min ==> r == I32Min
  {
    if a + b > I32Max then I32Max
    else if a + b < I32Min then I32Min
    else a + b
  }

  /** `a.saturating_add(b)` on `i16`. */
  function SaturatingAddI16(a: I16, b: I16): (r: I16)
    ensures I16Min <= a + b <= I16Max ==> r == a + b
    ensures a + b > I16Max ==> r == I16Max
    ensures a + b < I16Min ==> r == I16Min
  {
    if a + b > I16Max then I16Max
    else if a + b < I16Min then I16Min
    else a + b
  }

  /** Rust's integer `/`, which rounds toward zero (Dafny's `/` is Euclidean
      and would round -1 / 2 down to -1). */
  function TruncDiv(a: int, b: int): (q: int)
    requires b != 0
    ensures a >= 0 && b > 0 ==> q == a / b
    ensures a < 0 && b > 0 ==> q == -((-a) / b)
  {
    if (a >= 0) == (b > 0) then
      (if a >= 0 then a else -a) / (if b > 0 then b else -b)
    else
      -((if a >= 0 then a else -a) / (if b > 0 then b else -b))
  }
}
