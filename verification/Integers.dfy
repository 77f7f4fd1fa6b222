/** Signed machine integers: two's complement, and what an overflow does. */
module Integers {
  import opened Bits
  import opened Types
  import opened Wrappers

  type i64 = x: int | -0x8000_0000_0000_0000 <= x < 0x8000_0000_0000_0000

  type i32 = x: int | -0x8000_0000 <= x < 0x8000_0000

  const ALL_ONES: u64 := 0xFFFF_FFFF_FFFF_FFFF

  /** `v as u64`. */
  function AsU64(v: i64): (r: u64)
    ensures r == v % 0x1_0000_0000_0000_0000
  {
    if v < 0 then v + 0x1_0000_0000_0000_0000 else v
  }

  /** `x as i64`. */
  function AsI64(x: u64): (r: i64)
    ensures AsU64(r) == x
  {
    if x < 0x8000_0000_0000_0000 then x else x - 0x1_0000_0000_0000_0000
  }

  /** The low 64 bits of an integer, as a signed number. */
  function Wrap(x: int): (r: i64)
  {
    (x + 0x8000_0000_0000_0000) % 0x1_0000_0000_0000_0000 - 0x8000_0000_0000_0000
  }

  /** It is the one 64-bit number that differs from `x` by a multiple of 2^64. */
  lemma WrapIs(x: int, y: i64)
    ensures Wrap(x) == y <==> (x - y) % 0x1_0000_0000_0000_0000 == 0
    ensures IsI64(x) <==> Wrap(x) == x
  {
    assert x - Wrap(x) == (x + 0x8000_0000_0000_0000) / 0x1_0000_0000_0000_0000 * 0x1_0000_0000_0000_0000;
  }

  predicate IsI64(x: int) {
    -0x8000_0000_0000_0000 <= x < 0x8000_0000_0000_0000
  }

  /** The machine's result for the exact result `x`. */
  function Machine(build: Build, x: int): (r: Result<i64, Error>)
    ensures r.Success? ==> r.value == Wrap(x)
    ensures IsI64(x) ==> r == Success(x)
    ensures build.Checked? ==> (r.Success? <==> IsI64(x))
    ensures build.Wrapping? ==> r.Success?
    ensures r.Failure? ==> r.error == Overflow
  {
    if IsI64(x) then Success(x)
    else if build.Checked? then Failure(Overflow)
    else Success(Wrap(x))
  }
}
