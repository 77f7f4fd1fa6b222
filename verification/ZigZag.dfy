/** The zigzag code of signed integers: small magnitudes get small codes. */
module ZigZags {
  import opened Bits
  import opened Integers

  /** `((v << 1) ^ (v >> 63)) as u64`; the right shift copies the sign bit. */
  function ZigZag(v: i64): (z: u64)
  {
    Xor(Double(AsU64(v)), AsU64(if v < 0 then -1 else 0))
  }

  /** `(z >> 1) ^ -(z & 1)` on signed numbers. */
  function UnZigZag(z: u64): (v: i64)
  {
    var n := AsI64(z);
    AsI64(Xor(AsU64(n / 2), AsU64(-(n % 2))))
  }

  lemma {:induction false} XorOnes(x: nat, w: nat)
    requires x < Pow2(w)
    ensures XorNat(x, Pow2(w) - 1) == Pow2(w) - 1 - x
  {
    hide Pow2;
    Pow2Step(w);
    if w > 0 {
      XorOnes(x / 2, w - 1);
      XorStep(x, Pow2(w - 1) - 1);
    }
  }

  lemma Pow2Step(w: nat)
    ensures Pow2(w) == if w == 0 then 1 else 2 * Pow2(w - 1)
  {
  }

  /** XOR with an odd number turns the last bit. */
  lemma XorStep(x: nat, y: nat)
    ensures XorNat(x, 2 * y + 1) == 2 * XorNat(x / 2, y) + 1 - x % 2
  {
    assert (2 * y + 1) / 2 == y && (2 * y + 1) % 2 == 1;
  }

  /** XOR with the sign: the identity on one side, complement on the other. */
  lemma XorSign(x: u64)
    ensures Xor(x, 0) == x && Xor(x, ALL_ONES) == ALL_ONES - x
  {
    Pow2Of64();
    XorZero(x);
    XorOnes(x, 64);
  }

  /** Small magnitudes get small codes: 0, -1, 1, -2, 2, ... */
  lemma ZigZagOrder(v: i64)
    ensures ZigZag(v) == if v >= 0 then 2 * v else -2 * v - 1
  {
    hide XorNat, Pow2;
    XorSign(Double(AsU64(v)));
  }

  /** A value below 2^60, all that a word can carry, is the code of one number. */
  lemma UnZigZagOf(z: u64)
    requires z < 0x8000_0000_0000_0000
    ensures ZigZag(UnZigZag(z)) == z
    ensures UnZigZag(z) == if z % 2 == 0 then z / 2 else -(z / 2) - 1
  {
    hide XorNat, Pow2;
    XorSign(z / 2);
    ZigZagOrder(UnZigZag(z));
  }

  /**
    The decoder's right shift copies the sign bit, so it undoes the encoder exactly on the
    numbers of 63 bits.
   */
  lemma ZigZagInverse(v: i64)
    ensures UnZigZag(ZigZag(v)) == v <==> -0x4000_0000_0000_0000 <= v < 0x4000_0000_0000_0000
  {
    hide XorNat, Pow2;
    ZigZagOrder(v);
    var n := AsI64(ZigZag(v));
    XorSign(AsU64(n / 2));
  }
}
