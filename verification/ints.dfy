/**
 * Fixed-width machine integers of the source, written out over Dafny's
 * unbounded `int`.  Every wrap-around the Rust code relies on (release
 * build semantics) goes through one of these functions.
 */
module Ints {

  const U8_LIMIT: nat := 0x100
  const U16_LIMIT: nat := 0x1_0000
  const U32_LIMIT: nat := 0x1_0000_0000
  const U64_LIMIT: nat := 0x1_0000_0000_0000_0000
  const I32_MIN: int := -0x8000_0000
  const I32_MAX: int := 0x7FFF_FFFF
  const U32_MAX: nat := 0xFFFF_FFFF

  /** A byte of the input stream. */
  type Byte = b: nat | b < 0x100

  predicate IsU32(x: int) {
    0 <= x < U32_LIMIT
  }

  predicate IsI32(x: int) {
    I32_MIN <= x <= I32_MAX
  }

  /** Reduction modulo 2^32: `wrapping_*` arithmetic on `u32`. */
  function WrapU32(x: int): (r: nat)
    ensures IsU32(r)
    ensures IsU32(x) ==> r == x
    ensures (x - r) % U32_LIMIT == 0
  {
    x % U32_LIMIT
  }

  /** Two wrapping additions in a row are one wrapping addition of the sum. */
  lemma WrapU32AddTwice(x: int, m: int)
    ensures WrapU32(WrapU32(x) + m) == WrapU32(x + m)
  {
    var q := x / U32_LIMIT;
    assert x == q * U32_LIMIT + WrapU32(x);
    assert x + m == q * U32_LIMIT + (WrapU32(x) + m);
  }

  /** Reduction into the `i32` range modulo 2^32: `wrapping_*` arithmetic on `i32`. */
  function WrapI32(x: int): (r: int)
    ensures IsI32(r)
    ensures IsI32(x) ==> r == x
    ensures (x - r) % U32_LIMIT == 0
  {
    var m := x % U32_LIMIT;
    if m <= I32_MAX then m else m - U32_LIMIT
  }

  /** `u32 as i32`: the same 32 bits read as two's complement. */
  function U32AsI32(x: nat): (r: int)
    requires IsU32(x)
    ensures IsI32(r)
    ensures r == x || r == x - U32_LIMIT
  {
    if x <= I32_MAX then x else x - U32_LIMIT
  }

  /** `i32 as u32`: the two's complement bits of `x` read as unsigned. */
  function I32AsU32(x: int): (r: nat)
    requires IsI32(x)
    ensures IsU32(r)
    ensures U32AsI32(r) == x
  {
    if x >= 0 then x else x + U32_LIMIT
  }

  /** `u32 as u8`: the low eight bits. */
  function TruncU8(x: nat): (r: nat)
    ensures r < U8_LIMIT
    ensures x < U8_LIMIT ==> r == x
  {
    x % U8_LIMIT
  }

  /** Two to the power `n`. */
  function Pow2(n: nat): (r: nat)
    ensures r >= 1
  {
    if n == 0 then 1 else 2 * Pow2(n - 1)
  }

  /** `x << s` on a value that does not overflow. */
  function Shl(x: nat, s: nat): nat {
    x * Pow2(s)
  }

  lemma {:induction false} Pow2Add(a: nat, b: nat)
    ensures Pow2(a + b) == Pow2(a) * Pow2(b)
  {
    if a > 0 {
      Pow2Add(a - 1, b);
    }
  }

  lemma {:induction false} Pow2Monotone(a: nat, b: nat)
    requires a <= b
    ensures Pow2(a) <= Pow2(b)
  {
    if a < b {
      Pow2Monotone(a, b - 1);
    }
  }

  /** The powers of two the bit widths of the source use. */
  lemma Pow2Table()
    ensures Pow2(1) == 2 && Pow2(2) == 4 && Pow2(3) == 8 && Pow2(4) == 16 && Pow2(5) == 32
    ensures Pow2(6) == 64 && Pow2(7) == 128 && Pow2(8) == 0x100 && Pow2(10) == 0x400
    ensures Pow2(14) == 0x4000 && Pow2(16) == 0x1_0000 && Pow2(17) == 0x2_0000
    ensures Pow2(20) == 0x10_0000 && Pow2(28) == 0x1000_0000 && Pow2(31) == 0x8000_0000
    ensures Pow2(32) == U32_LIMIT && Pow2(63) == 0x8000_0000_0000_0000 && Pow2(64) == U64_LIMIT
  {
    assert Pow2(8) == 0x100;
    Pow2Add(8, 2);
    Pow2Add(8, 6);
    Pow2Add(8, 8);
    Pow2Add(16, 1);
    Pow2Add(16, 4);
    Pow2Add(16, 12);
    assert Pow2(12) == 0x1000 by { Pow2Add(8, 4); }
    Pow2Add(16, 15);
    assert Pow2(15) == 0x8000 by { Pow2Add(8, 7); }
    Pow2Add(16, 16);
    Pow2Add(32, 31);
    Pow2Add(32, 32);
  }
}
