/**
  What the bit operations mean in arithmetic: shifting right divides, masking takes the
  remainder, and every bit and byte is a digit of the number.
 */
module Digits {
  import opened Bits
  import opened BitStream

  // ----- Parts of a number -----

  /** `x * 2^n`. */
  function Up(x: nat, n: nat): (r: nat) {
    if n == 0 then x else 2 * Up(x, n - 1)
  }

  lemma {:induction false} UpIsProduct(x: nat, n: nat)
    ensures Up(x, n) == x * Pow2(n)
  {
    if n > 0 {
      UpIsProduct(x, n - 1);
      assert x * (2 * Pow2(n - 1)) == 2 * (x * Pow2(n - 1));
    }
  }

  lemma {:induction false} ShrUp(y: nat, t: nat)
    ensures Shr(Up(y, t), t) == y
  {
    if t > 0 {
      ShrUp(y, t - 1);
    }
  }

  lemma {:induction false} ShrRest(x: nat, k: nat)
    ensures Up(Shr(x, k), k) <= x < Up(Shr(x, k), k) + Pow2(k)
  {
    if k > 0 {
      ShrRest(x / 2, k - 1);
    }
  }

  lemma Multiples(d: int, p: int)
    requires p > 0
    ensures d != 0 ==> d * p >= p || d * p <= -p
  {
    if d >= 1 {
      assert (d - 1) * p >= 0;
    } else if d <= -1 {
      assert (-d - 1) * p >= 0;
    }
  }

  lemma DivUnique(x: nat, p: nat, q: nat, r: nat)
    requires x == q * p + r && r < p
    ensures x / p == q && x % p == r
  {
    var d := x / p - q;
    assert d * p == x / p * p - q * p == r - x % p;
    Multiples(d, p);
  }

  /** `x / p`. */
  function Part(x: nat, p: nat): (q: nat)
    requires p > 0
    ensures p * q <= x < p * q + p
  {
    Multiples(x / p, p);
    assert x == x / p * p + x % p;
    x / p
  }

  /** Shifting right divides. */
  lemma ShrDivides(x: nat, k: nat)
    ensures Shr(x, k) == x / Pow2(k)
    ensures x % Pow2(k) == x - Up(Shr(x, k), k)
  {
    ShrRest(x, k);
    UpIsProduct(Shr(x, k), k);
    DivUnique(x, Pow2(k), Shr(x, k), x - Up(Shr(x, k), k));
  }

  lemma {:induction false} LowRest(x: nat, k: nat)
    ensures Up(Shr(x, k), k) + FromBits(ToBits(x, k)) == x
  {
    if k > 0 {
      LowRest(x / 2, k - 1);
      var s := ToBits(x, k);
      assert s[..k - 1] == ToBits(x / 2, k - 1);
    }
  }

  /** The low `k` bits are the remainder. */
  lemma LowIsRemainder(x: nat, k: nat)
    ensures Low(x, k) == x % Pow2(k)
  {
    LowRest(x, k);
    ShrDivides(x, k);
  }

  /** Two numbers side by side. */
  lemma {:induction false} JoinBits(a: nat, m: nat, b: nat, n: nat)
    requires b < Pow2(n)
    ensures ToBits(Up(a, n) + b, m + n) == ToBits(a, m) + ToBits(b, n)
  {
    if n > 0 {
      JoinBits(a, m, b / 2, n - 1);
      assert (Up(a, n) + b) / 2 == Up(a, n - 1) + b / 2 && (Up(a, n) + b) % 2 == b % 2;
    }
  }

  // ----- Bits and bytes -----

  /** The bit that stands for `2^k` says whether the k-th binary digit is one. */
  lemma {:induction false} BitIsDigit(x: nat, w: nat, k: nat)
    requires k < w
    ensures ToBits(x, w)[w - 1 - k] == (x / Pow2(k) % 2 == 1)
  {
    ShrDivides(x, k);
    BitOfShift(x, w, k);
  }

  lemma {:induction false} BitOfShift(x: nat, w: nat, k: nat)
    requires k < w
    ensures ToBits(x, w)[w - 1 - k] == (Shr(x, k) % 2 == 1)
  {
    if k > 0 {
      BitOfShift(x / 2, w - 1, k - 1);
    }
  }

  /** The streams of the float codec: bytes in order, the highest bit of a byte first. */
  lemma {:induction false} StreamLayout(bytes: seq<u8>, i: nat, k: nat)
    requires i < |bytes| && k < 8
    ensures BytesToBits(bytes)[8 * i + 7 - k] == (bytes[i] / Pow2(k) % 2 == 1)
    decreases |bytes|
  {
    hide ToBits, Pow2;
    var n := |bytes| - 1;
    if i < n {
      StreamLayout(bytes[..n], i, k);
    } else {
      BitIsDigit(bytes[n], 8, k);
    }
  }

  lemma {:induction false} ShrTwice(x: nat, a: nat, b: nat)
    ensures Shr(Shr(x, a), b) == Shr(x, a + b)
  {
    if a > 0 {
      ShrTwice(x / 2, a - 1, b);
    }
  }

  lemma {:induction false} BeByteShift(x: nat, n: nat, i: nat)
    requires i < n
    ensures BeBytes(x, n)[i] == AsU8(Shr(x, 8 * (n - 1 - i)))
  {
    hide AsU8, Shr;
    if i < n - 1 {
      BeByteShift(Shr(x, 8), n - 1, i);
      ShrTwice(x, 8, 8 * (n - 2 - i));
    } else {
      NoShift(x);
    }
  }

  lemma NoShift(x: nat)
    ensures Shr(x, 0) == x
  {
  }

  lemma AsU8IsRemainder(x: nat)
    ensures AsU8(x) == x % 0x100
  {
    assert Pow2(8) == 0x100 by { Pow2Byte(0); }
    LowIsRemainder(x, 8);
  }

  /** `to_be_bytes`: the highest byte comes first. */
  lemma BeByteIs(x: nat, n: nat, i: nat)
    requires i < n
    ensures BeBytes(x, n)[i] == x / Pow2(8 * (n - 1 - i)) % 0x100
  {
    hide BeBytes, AsU8, Shr, Pow2;
    BeByteShift(x, n, i);
    AsU8IsRemainder(Shr(x, 8 * (n - 1 - i)));
    ShrDivides(x, 8 * (n - 1 - i));
  }

  /** XOR compares digit by digit. */
  lemma {:induction false} XorBits(x: nat, y: nat, w: nat, i: nat)
    requires i < w
    ensures ToBits(XorNat(x, y), w)[i] == (ToBits(x, w)[i] != ToBits(y, w)[i])
  {
    assert XorNat(x, y) / 2 == XorNat(x / 2, y / 2);
    assert XorNat(x, y) % 2 == if x % 2 != y % 2 then 1 else 0;
    if i < w - 1 {
      XorBits(x / 2, y / 2, w - 1, i);
    }
  }

  /** Shifting left multiplies, as far as 64 bits hold. */
  lemma {:induction false} ShlIsProduct(x: u64, k: nat)
    ensures Shl(x, k) == x * Pow2(k) % 0x1_0000_0000_0000_0000
  {
    hide Pow2;
    Pow2Next(k);
    if k > 0 {
      ShlIsProduct(x, k - 1);
      DoubleMod(x * Pow2(k - 1));
      assert x * Pow2(k) == 2 * (x * Pow2(k - 1));
    } else {
      assert x * 1 == x;
    }
  }

  lemma Pow2Next(k: nat)
    ensures Pow2(k) == if k == 0 then 1 else 2 * Pow2(k - 1)
  {
  }

  lemma DoubleMod(y: nat)
    ensures Double(y % 0x1_0000_0000_0000_0000) == 2 * y % 0x1_0000_0000_0000_0000
  {
    var p := 0x1_0000_0000_0000_0000;
    var q, z := y / p, y % p;
    DivUnique(2 * y, p, if z < 0x8000_0000_0000_0000 then 2 * q else 2 * q + 1, Double(z));
  }

  // ----- Leading and trailing zeros -----

  /** `x` has at least `w - n` leading zeros in `w` bits exactly if it is below `2^n`. */
  lemma BitLengthBelow(x: nat, n: nat)
    ensures x < Pow2(n) <==> BitLength(x) <= n
  {
    BitLengthSpec(x);
    if x < Pow2(n) {
      BitLengthBound(x, n);
    } else if BitLength(x) <= n {
      Pow2Monotone(BitLength(x), n);
    }
  }

  lemma {:induction false} BitLengthIs(x: nat, n: nat)
    requires n > 0 && Pow2(n - 1) <= x < Pow2(n)
    ensures BitLength(x) == n
  {
    if n > 1 {
      BitLengthIs(x / 2, n - 1);
    }
  }

  /** A positive number has at least `t` trailing zeros exactly if `2^t` divides it. */
  lemma TrailingZerosDivide(x: nat, t: nat)
    requires x > 0
    ensures x % Pow2(t) == 0 <==> t <= TrailingZeros(x)
  {
    ShrDivides(x, t);
    ZerosAreUp(x, t);
  }

  lemma {:induction false} ZerosAreUp(x: nat, t: nat)
    requires x > 0
    ensures Up(Shr(x, t), t) == x <==> t <= TrailingZeros(x)
  {
    if t > 0 {
      ShrRest(x / 2, t - 1);
      if x % 2 == 0 {
        ZerosAreUp(x / 2, t - 1);
      }
    }
  }

  /** Exactly `t` of them, if the quotient is odd. */
  lemma TrailingZerosExact(x: nat, t: nat)
    requires x > 0
    ensures x % Pow2(t) == 0 && x / Pow2(t) % 2 == 1 <==> t == TrailingZeros(x)
  {
    TrailingZerosDivide(x, t);
    ShrDivides(x, t);
    if t <= TrailingZeros(x) {
      OddPart(x, t);
    }
  }

  lemma {:induction false} OddPart(x: nat, t: nat)
    requires x > 0 && t <= TrailingZeros(x)
    ensures Shr(x, t) % 2 == 1 <==> t == TrailingZeros(x)
  {
    if t > 0 {
      OddPart(x / 2, t - 1);
    }
  }
}
