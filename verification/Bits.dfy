/**
  Unsigned machine integers and their binary expansions.

  A `u64` is a number; its bits are the sequence `ToBits(x, 64)`, most significant bit
  first.  A shift is that many halvings or wrapping doublings, OR and XOR work digit by
  digit, and the lemmas below say what each operation does to the bits.
 */
module Bits {

  type u8 = x: nat | x < 0x100
  type u32 = x: nat | x < 0x1_0000_0000
  type u64 = x: nat | x < 0x1_0000_0000_0000_0000

  // ----- Powers of two -----

  function Pow2(n: nat): (r: nat)
    ensures r > 0
  {
    if n == 0 then 1 else 2 * Pow2(n - 1)
  }

  lemma {:induction false} Pow2Monotone(a: nat, b: nat)
    requires a <= b
    ensures Pow2(a) <= Pow2(b)
  {
    if a < b {
      Pow2Monotone(a, b - 1);
    }
  }

  lemma Pow2Byte(n: nat)
    ensures Pow2(n + 8) == 0x100 * Pow2(n)
  {
    assert Pow2(n + 4) == 0x10 * Pow2(n) by {
      assert Pow2(n + 2) == 4 * Pow2(n);
      assert Pow2(n + 4) == 4 * Pow2(n + 2);
    }
    assert Pow2(n + 6) == 4 * Pow2(n + 4);
    assert Pow2(n + 8) == 4 * Pow2(n + 6);
  }

  lemma Pow2Of64()
    ensures Pow2(32) == 0x1_0000_0000
    ensures Pow2(64) == 0x1_0000_0000_0000_0000
  {
    Pow2Byte(0);
    Pow2Byte(8);
    Pow2Byte(16);
    Pow2Byte(24);
    Pow2Byte(32);
    Pow2Byte(40);
    Pow2Byte(48);
    Pow2Byte(56);
  }

  // ----- Bits of a number -----

  /** The low `w` bits of `x`, most significant first. */
  function ToBits(x: nat, w: nat): (s: seq<bool>)
    ensures |s| == w
  {
    if w == 0 then [] else ToBits(x / 2, w - 1) + [x % 2 == 1]
  }

  /** The number that a bit string writes, most significant bit first. */
  function FromBits(s: seq<bool>): (x: nat)
  {
    if |s| == 0 then 0 else 2 * FromBits(s[..|s| - 1]) + if s[|s| - 1] then 1 else 0
  }

  function Zeros(n: nat): (s: seq<bool>)
    ensures |s| == n && forall i :: 0 <= i < n ==> !s[i]
  {
    seq(n, i => false)
  }

  /** Reading a field back: a value that fits in `w` bits is recovered from its bits. */
  lemma {:induction false} FieldRoundTrip(x: nat, w: nat)
    requires x < Pow2(w)
    ensures FromBits(ToBits(x, w)) == x
  {
    if w > 0 {
      FieldRoundTrip(x / 2, w - 1);
      var s := ToBits(x, w);
      assert s[..|s| - 1] == ToBits(x / 2, w - 1);
    }
  }

  lemma {:induction false} ToFromBits(s: seq<bool>)
    ensures FromBits(s) < Pow2(|s|)
    ensures ToBits(FromBits(s), |s|) == s
  {
    if |s| > 0 {
      var t := s[..|s| - 1];
      ToFromBits(t);
      assert s == t + [s[|s| - 1]];
    }
  }

  /** Numbers of `w` bits are told apart by their bits. */
  lemma BitsInjective(x: nat, y: nat, w: nat)
    requires x < Pow2(w) && y < Pow2(w) && ToBits(x, w) == ToBits(y, w)
    ensures x == y
  {
    FieldRoundTrip(x, w);
    FieldRoundTrip(y, w);
  }

  lemma {:induction false} ZeroBits(w: nat)
    ensures ToBits(0, w) == Zeros(w)
  {
    if w > 0 {
      ZeroBits(w - 1);
    }
  }

  /** The bits of `x` are those of `x >> b` followed by the low `b` bits. */
  lemma {:induction false} SplitBits(x: nat, a: nat, b: nat)
    ensures ToBits(x, a + b) == ToBits(Shr(x, b), a) + ToBits(x, b)
  {
    if b > 0 {
      SplitBits(x / 2, a, b - 1);
      assert ToBits(x, a + b) == ToBits(x / 2, a + b - 1) + [x % 2 == 1];
      assert ToBits(x, b) == ToBits(x / 2, b - 1) + [x % 2 == 1];
    } else {
      assert ToBits(x, b) == [];
    }
  }

  /** `x & ((1 << k) - 1)`: the low `k` bits. */
  function Low(x: nat, k: nat): (r: nat)
    ensures r < Pow2(k) && ToBits(r, k) == ToBits(x, k)
  {
    ToFromBits(ToBits(x, k));
    FromBits(ToBits(x, k))
  }

  lemma SmallBits(x: nat, a: nat, w: nat)
    requires x < Pow2(w)
    ensures ToBits(x, a + w) == Zeros(a) + ToBits(x, w)
  {
    SplitBits(x, a, w);
    ShrBound(x, 0, w);
    ZeroBits(a);
  }

  // ----- Shifts -----

  /** `x >> k`. */
  function Shr(x: nat, k: nat): (r: nat)
    ensures r <= x
  {
    if k == 0 then x else Shr(x / 2, k - 1)
  }

  /** One place to the left in 64 bits; the top bit is lost. */
  function Double(x: u64): (r: u64)
  {
    if x < 0x8000_0000_0000_0000 then 2 * x else 2 * x - 0x1_0000_0000_0000_0000
  }

  /** `x << k` in 64 bits. */
  function Shl(x: u64, k: nat): (r: u64)
  {
    if k == 0 then x else Double(Shl(x, k - 1))
  }

  lemma {:induction false} ShrBound(x: nat, n: nat, k: nat)
    requires x < Pow2(n + k)
    ensures Shr(x, k) < Pow2(n)
  {
    if k > 0 {
      ShrBound(x / 2, n, k - 1);
    }
  }

  lemma {:induction false} DropPow2(x: nat, w: nat)
    requires x >= Pow2(w)
    ensures ToBits(x - Pow2(w), w) == ToBits(x, w)
  {
    if w > 0 {
      DropPow2(x / 2, w - 1);
    }
  }

  lemma TwiceBits(x: nat, w: nat)
    ensures ToBits(2 * x, w + 1) == ToBits(x, w) + [false]
  {
  }

  lemma DoubleBits(x: u64)
    ensures ToBits(Double(x), 64) == ToBits(x, 64)[1..] + [false]
  {
    Pow2Of64();
    SplitBits(x, 1, 63);
    TwiceBits(x, 63);
    if x >= 0x8000_0000_0000_0000 {
      DropPow2(2 * x, 64);
    }
  }

  lemma {:induction false} ShlBits(x: u64, k: nat)
    requires k <= 64
    ensures ToBits(Shl(x, k), 64) == ToBits(x, 64)[k..] + Zeros(k)
  {
    if k > 0 {
      ShlBits(x, k - 1);
      DoubleBits(Shl(x, k - 1));
    }
  }

  lemma ShrBits(x: nat, k: nat)
    requires k <= 64
    ensures ToBits(Shr(x, k), 64 - k) == ToBits(x, 64)[..64 - k]
  {
    SplitBits(x, 64 - k, k);
  }

  // ----- OR and XOR -----

  function BitOr(s: seq<bool>, t: seq<bool>): (r: seq<bool>)
    requires |s| == |t|
    ensures |r| == |s| && forall i :: 0 <= i < |s| ==> r[i] == (s[i] || t[i])
  {
    seq(|s|, i requires 0 <= i < |s| => s[i] || t[i])
  }

  function OrNat(x: nat, y: nat): (r: nat)
    decreases x + y
  {
    if x == 0 && y == 0 then 0
    else 2 * OrNat(x / 2, y / 2) + if x % 2 == 1 || y % 2 == 1 then 1 else 0
  }

  function XorNat(x: nat, y: nat): (r: nat)
    decreases x + y
  {
    if x == 0 && y == 0 then 0
    else 2 * XorNat(x / 2, y / 2) + if x % 2 != y % 2 then 1 else 0
  }

  lemma {:induction false} OrBits(x: nat, y: nat, w: nat)
    ensures ToBits(OrNat(x, y), w) == BitOr(ToBits(x, w), ToBits(y, w))
  {
    if w > 0 {
      OrBits(x / 2, y / 2, w - 1);
      assert OrNat(x, y) / 2 == OrNat(x / 2, y / 2);
      assert OrNat(x, y) % 2 == if x % 2 == 1 || y % 2 == 1 then 1 else 0;
    }
  }

  lemma {:induction false} OrBound(x: nat, y: nat, w: nat)
    requires x < Pow2(w) && y < Pow2(w)
    ensures OrNat(x, y) < Pow2(w)
  {
    if w > 0 {
      OrBound(x / 2, y / 2, w - 1);
    }
  }

  lemma {:induction false} XorBound(x: nat, y: nat, w: nat)
    requires x < Pow2(w) && y < Pow2(w)
    ensures XorNat(x, y) < Pow2(w)
  {
    if w > 0 {
      XorBound(x / 2, y / 2, w - 1);
    }
  }

  /** XOR undoes itself, and is zero only on equal arguments. */
  lemma {:induction false} XorUndo(x: nat, y: nat)
    ensures XorNat(x, XorNat(y, x)) == y
    ensures XorNat(y, x) == 0 <==> x == y
    decreases x + y
  {
    if x != 0 || y != 0 {
      XorUndo(x / 2, y / 2);
      assert XorNat(y, x) / 2 == XorNat(y / 2, x / 2);
      assert XorNat(y, x) % 2 == if x % 2 != y % 2 then 1 else 0;
    }
  }

  lemma {:induction false} XorCancel(x: nat, z: nat)
    ensures XorNat(XorNat(x, z), x) == z
    decreases x + z
  {
    if x != 0 || z != 0 {
      XorCancel(x / 2, z / 2);
      assert XorNat(x, z) / 2 == XorNat(x / 2, z / 2);
      assert XorNat(x, z) % 2 == if x % 2 != z % 2 then 1 else 0;
    }
  }

  lemma {:induction false} XorZero(x: nat)
    ensures XorNat(x, 0) == x
  {
    if x > 0 {
      XorZero(x / 2);
    }
  }

  /** `x | y`. */
  function Or(x: u64, y: u64): (r: u64)
  {
    Pow2Of64();
    OrBound(x, y, 64);
    OrNat(x, y)
  }

  /** `x ^ y`. */
  function Xor(x: u64, y: u64): (r: u64)
  {
    Pow2Of64();
    XorBound(x, y, 64);
    XorNat(x, y)
  }

  // ----- Leading and trailing zeros -----

  function BitLength(x: nat): (n: nat)
  {
    if x == 0 then 0 else 1 + BitLength(x / 2)
  }

  lemma {:induction false} BitLengthSpec(x: nat)
    ensures x < Pow2(BitLength(x))
    ensures x > 0 ==> BitLength(x) > 0 && x >= Pow2(BitLength(x) - 1)
  {
    if x > 0 {
      BitLengthSpec(x / 2);
    }
  }

  lemma {:induction false} BitLengthBound(x: nat, w: nat)
    requires x < Pow2(w)
    ensures BitLength(x) <= w
  {
    if x > 0 {
      BitLengthBound(x / 2, w - 1);
    }
  }

  /** `leading_zeros` of a `w`-bit number. */
  function LeadingZeros(x: nat, w: nat): (n: nat)
    requires x < Pow2(w)
    ensures n <= w
  {
    BitLengthBound(x, w);
    w - BitLength(x)
  }

  /** `trailing_zeros` of a non-zero number. */
  function TrailingZeros(x: nat): (n: nat)
    requires x > 0
  {
    if x % 2 == 1 then 0 else 1 + TrailingZeros(x / 2)
  }

  lemma {:induction false} ShrBitLength(x: nat, t: nat)
    requires x > 0 && t <= TrailingZeros(x)
    ensures t < BitLength(x) && BitLength(Shr(x, t)) == BitLength(x) - t
    ensures Shr(x, TrailingZeros(x)) % 2 == 1
  {
    if x % 2 == 0 {
      ShrBitLength(x / 2, if t > 0 then t - 1 else 0);
    }
  }

  /** Shifting out trailing zeros loses nothing. */
  lemma {:induction false} ShlShr(x: u64, t: nat)
    requires x > 0 && t <= TrailingZeros(x)
    ensures Shl(Shr(x, t), t) == x
  {
    if t > 0 {
      ShlShr(x / 2, t - 1);
    }
  }

  /**
    What a window may drop: if `x` has at least `l` leading and `t` trailing zeros, the
    `w - l - t` bits between them are enough to rebuild it.
   */
  lemma WindowHoldsAll(x: u64, w: nat, l: nat, t: nat)
    requires 0 < x < Pow2(w) && l <= LeadingZeros(x, w) && t <= TrailingZeros(x)
    ensures l + t < w
    ensures Shr(x, t) < Pow2(w - l - t)
    ensures Shl(Shr(x, t), t) == x
  {
    ShrBitLength(x, t);
    ShlShr(x, t);
    BitLengthSpec(Shr(x, t));
    Pow2Monotone(BitLength(x) - t, w - l - t);
  }

  /** With the exact counts, the field starts and ends with a one. */
  lemma ExactWindow(x: nat, w: nat)
    requires 0 < x < Pow2(w)
    ensures var l, t := LeadingZeros(x, w), TrailingZeros(x);
            && l + t < w && Shr(x, t) % 2 == 1
            && Pow2(w - l - t - 1) <= Shr(x, t) < Pow2(w - l - t)
  {
    var t := TrailingZeros(x);
    ShrBitLength(x, t);
    BitLengthSpec(Shr(x, t));
  }
}
