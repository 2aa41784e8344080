/** Rust's fixed-width integer types, and the arithmetic of an optimised build,
    where `+`, `-`, `*` and `pow` wrap around instead of panicking. */
module Ints {

  const I32_MIN: int := -0x8000_0000
  const I32_MAX: int := 0x7FFF_FFFF
  const I64_MIN: int := -0x8000_0000_0000_0000
  const I64_MAX: int := 0x7FFF_FFFF_FFFF_FFFF
  const TWO_32: int := 0x1_0000_0000
  const TWO_64: int := 0x1_0000_0000_0000_0000

  type i32 = x: int | -0x8000_0000 <= x <= 0x7FFF_FFFF
  type i64 = x: int | -0x8000_0000_0000_0000 <= x <= 0x7FFF_FFFF_FFFF_FFFF
  type u64 = x: int | 0 <= x < 0x1_0000_0000_0000_0000
  /** The targets the service runs on are 64-bit. */
  type usize = u64

  /** Two's-complement wrap-around of an exact result into `i32`. */
  function Wrap32(x: int): (r: i32)
    ensures (x - r) % TWO_32 == 0
    ensures I32_MIN <= x <= I32_MAX ==> r == x
  {
    var m := x % TWO_32;
    if m <= I32_MAX then m else m - TWO_32
  }

  /** Two's-complement wrap-around of an exact result into `i64`. */
  function Wrap64(x: int): (r: i64)
    ensures (x - r) % TWO_64 == 0
    ensures I64_MIN <= x <= I64_MAX ==> r == x
  {
    var m := x % TWO_64;
    if m <= I64_MAX then m else m - TWO_64
  }

  /** Wrap-around of an exact result into `u64` (and `usize`). */
  function WrapU64(x: int): (r: u64)
    ensures 0 <= x < TWO_64 ==> r == x
  {
    x % TWO_64
  }

  /** Adding after a wrap is the same as wrapping once at the end. */
  lemma Wrap32Add(a: int, b: int)
    ensures Wrap32(Wrap32(a) + b) == Wrap32(a + b)
  {
    var w := Wrap32(a);
    assert w == a % TWO_32 || w == a % TWO_32 - TWO_32;
    assert a == TWO_32 * (a / TWO_32) + a % TWO_32;
    ShiftMod32(w + b, a / TWO_32 + (if w == a % TWO_32 then 0 else 1));
  }

  /** Adding after a wrap is the same as wrapping once at the end. */
  lemma Wrap64Add(a: int, b: int)
    ensures Wrap64(Wrap64(a) + b) == Wrap64(a + b)
  {
    var w := Wrap64(a);
    assert w == a % TWO_64 || w == a % TWO_64 - TWO_64;
    assert a == TWO_64 * (a / TWO_64) + a % TWO_64;
    ShiftMod64(w + b, a / TWO_64 + (if w == a % TWO_64 then 0 else 1));
  }

  lemma ShiftMod32(z: int, k: int)
    ensures (z + TWO_32 * k) % TWO_32 == z % TWO_32
  {
  }

  lemma ShiftMod64(z: int, k: int)
    ensures (z + TWO_64 * k) % TWO_64 == z % TWO_64
  {
  }

  /** Values that agree modulo 2^64 wrap to the same `i64`. */
  lemma Wrap64Congruent(a: int, b: int)
    requires (a - b) % TWO_64 == 0
    ensures Wrap64(a) == Wrap64(b)
  {
    var k := (a - b) / TWO_64;
    assert a == b + TWO_64 * k;
    ShiftMod64(b, k);
  }

  /** Differences that are multiples of 2^64 add up to a multiple of 2^64. */
  lemma MultipleSum64(x: int, y: int)
    requires x % TWO_64 == 0 && y % TWO_64 == 0
    ensures (x + y) % TWO_64 == 0 && (0 - x) % TWO_64 == 0
  {
    var i := x / TWO_64;
    var j := y / TWO_64;
    assert x + y == TWO_64 * (i + j);
    assert 0 - x == TWO_64 * (0 - i);
  }

  /** Rust's `/` on a non-negative divisor: the quotient is truncated toward
      zero, so for a negative dividend it differs from Dafny's `/`. */
  function TruncDiv(a: int, b: int): (q: int)
    requires b > 0
    ensures a >= 0 ==> 0 <= q && q * b <= a < q * b + b
    ensures a < 0 ==> q <= 0 && q * b - b < a <= q * b
  {
    if a >= 0 then a / b else -((-a) / b)
  }
}
