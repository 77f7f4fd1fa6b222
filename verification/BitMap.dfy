/** The packed null bitmap of a column: one bit per row, eight rows in a byte. */
module BitMaps {
  import opened Bits
  import Digits

  // ----- Single bytes -----

  function BitAnd(s: seq<bool>, t: seq<bool>): (r: seq<bool>)
    requires |s| == |t|
    ensures |r| == |s| && forall i :: 0 <= i < |s| ==> r[i] == (s[i] && t[i])
  {
    seq(|s|, i requires 0 <= i < |s| => s[i] && t[i])
  }

  function AndNat(x: nat, y: nat): (r: nat)
    ensures r <= x
  {
    if x == 0 || y == 0 then 0
    else 2 * AndNat(x / 2, y / 2) + if x % 2 == 1 && y % 2 == 1 then 1 else 0
  }

  lemma {:induction false} AndBits(x: nat, y: nat, w: nat)
    ensures ToBits(AndNat(x, y), w) == BitAnd(ToBits(x, w), ToBits(y, w))
  {
    if w > 0 {
      if x == 0 || y == 0 {
        ZeroBits(w);
      } else {
        AndBits(x / 2, y / 2, w - 1);
        assert AndNat(x, y) / 2 == AndNat(x / 2, y / 2);
        assert AndNat(x, y) % 2 == if x % 2 == 1 && y % 2 == 1 then 1 else 0;
      }
    }
  }

  /** `!x` on a `w`-bit number turns every bit. */
  lemma {:induction false} NotBits(x: nat, w: nat)
    requires x < Pow2(w)
    ensures |ToBits(Pow2(w) - 1 - x, w)| == w
    ensures forall i :: 0 <= i < w ==> ToBits(Pow2(w) - 1 - x, w)[i] == !ToBits(x, w)[i]
  {
    if w > 0 {
      NotBits(x / 2, w - 1);
      var p := Pow2(w - 1);
      assert (2 * p - 1 - x) / 2 == p - 1 - x / 2;
    }
  }

  /** `1 << k` has one bit, `k` places from the right. */
  lemma {:induction false} OneBit(k: nat, w: nat)
    requires k < w
    ensures Pow2(k) < Pow2(w)
    ensures forall i :: 0 <= i < w ==> ToBits(Pow2(k), w)[i] == (i == w - 1 - k)
  {
    if k > 0 {
      OneBit(k - 1, w - 1);
    } else {
      ZeroBits(w - 1);
      Pow2Monotone(1, w);
    }
  }

  /** Bit `k` of a byte, counted from the lowest. */
  function Bit(b: u8, k: nat): (r: bool)
    requires k < 8
  {
    ToBits(b, 8)[7 - k]
  }

  function Mask(k: nat): (m: u8)
    requires k < 8
    ensures forall i :: 0 <= i < 8 ==> Bit(m, i) == (i == k)
  {
    assert Pow2(8) == 256;
    OneBit(k, 8);
    Pow2(k)
  }

  lemma ByteZero(b: u8)
    ensures b == 0 <==> forall k :: 0 <= k < 8 ==> !Bit(b, k)
  {
    ZeroBits(8);
    if forall k :: 0 <= k < 8 ==> !Bit(b, k) {
      forall i | 0 <= i < 8
        ensures ToBits(b, 8)[i] == ToBits(0, 8)[i]
      {
        assert !Bit(b, 7 - i);
      }
      assert Pow2(8) == 256;
      BitsInjective(b, 0, 8);
    }
  }

  lemma NotMask(m: u8)
    ensures forall i :: 0 <= i < 8 ==> Bit(255 - m, i) == !Bit(m, i)
  {
    assert Pow2(8) == 256;
    hide ToBits, Pow2;
    NotBits(m, 8);
  }

  /** `!m` on a byte. */
  function Not(m: u8): (r: u8)
    ensures forall i :: 0 <= i < 8 ==> Bit(r, i) == !Bit(m, i)
  {
    NotMask(m);
    255 - m
  }

  /** `b | 1 << k`. */
  function SetBit(b: u8, k: nat): (r: u8)
    requires k < 8
    ensures forall i :: 0 <= i < 8 ==> Bit(r, i) == (Bit(b, i) || i == k)
  {
    OrMask(b, Mask(k));
    OrNat(b, Mask(k))
  }

  /** `b & !(1 << k)`. */
  function ClearBit(b: u8, k: nat): (r: u8)
    requires k < 8
    ensures forall i :: 0 <= i < 8 ==> Bit(r, i) == (Bit(b, i) && i != k)
  {
    AndMask(b, Not(Mask(k)));
    AndNat(b, Not(Mask(k)))
  }

  /** `(b & 1 << k) != 0`. */
  predicate TestBit(b: u8, k: nat)
    requires k < 8
    ensures TestBit(b, k) == Bit(b, k)
  {
    AndMask(b, Mask(k));
    ByteZero(AndNat(b, Mask(k)));
    AndNat(b, Mask(k)) != 0
  }

  lemma OrMask(b: u8, m: u8)
    ensures OrNat(b, m) < 256
    ensures forall i :: 0 <= i < 8 ==> Bit(OrNat(b, m), i) == (Bit(b, i) || Bit(m, i))
  {
    assert Pow2(8) == 256;
    hide ToBits, OrNat, Pow2;
    OrBound(b, m, 8);
    OrBits(b, m, 8);
  }

  lemma AndMask(b: u8, m: u8)
    ensures forall i :: 0 <= i < 8 ==> Bit(AndNat(b, m), i) == (Bit(b, i) && Bit(m, i))
  {
    hide ToBits, AndNat;
    AndBits(b, m, 8);
  }

  // ----- Bytes -----

  function DivCeil(n: nat): (r: nat)
    ensures 8 * r - 8 < n <= 8 * r
  {
    (n + 7) / 8
  }

  /** The bits of a byte array by index: the lowest bit of a byte comes first. */
  function Unpacked(bytes: seq<u8>): (s: seq<bool>)
    ensures |s| == 8 * |bytes|
  {
    seq(8 * |bytes|, i requires 0 <= i < 8 * |bytes| => Bit(bytes[i / 8], i % 8))
  }

  /** Index `i` is the binary digit for `2^(i % 8)` of byte `i / 8`. */
  lemma FlagIsDigit(bytes: seq<u8>, i: nat)
    requires i < 8 * |bytes|
    ensures Unpacked(bytes)[i] == (bytes[i / 8] / Pow2(i % 8) % 2 == 1)
  {
    hide ToBits, Pow2;
    Digits.BitIsDigit(bytes[i / 8], 8, i % 8);
  }

  /** Changing one bit of one byte changes one index. */
  lemma UpdateByte(bytes: seq<u8>, index: nat, b: u8, v: bool)
    requires index < 8 * |bytes|
    requires forall k :: 0 <= k < 8 ==> Bit(b, k) == if k == index % 8 then v else Bit(bytes[index / 8], k)
    ensures Unpacked(bytes[index / 8 := b]) == Unpacked(bytes)[index := v]
  {
    hide Bit;
    var s, t := Unpacked(bytes[index / 8 := b]), Unpacked(bytes)[index := v];
    forall i | 0 <= i < 8 * |bytes|
      ensures s[i] == t[i]
    {
      if i / 8 == index / 8 {
        assert i == index <==> i % 8 == index % 8;
      }
    }
  }

  class BitMap {
    const bits: array<u8>
    const size: nat

    /** No bit past `size` is ever set. */
    ghost predicate Valid()
      reads bits
    {
      && bits.Length == DivCeil(size)
      && forall i :: size <= i < |Unpacked(bits[..])| ==> !Unpacked(bits[..])[i]
    }

    /** Which indices are null. */
    ghost function Nulls(): (s: seq<bool>)
      reads bits
      requires Valid()
      ensures |s| == size
    {
      Unpacked(bits[..])[..size]
    }

    constructor (size: nat)
      ensures Valid() && fresh(bits) && this.size == size
      ensures Nulls() == seq(size, i => false)
    {
      this.size := size;
      bits := new u8[DivCeil(size)](_ => 0);
      new;
      ByteZero(0);
      assert forall i :: 0 <= i < |Unpacked(bits[..])| ==> !Unpacked(bits[..])[i];
    }

    /** Sets one index; an index out of range changes nothing. */
    method Set(index: nat, isNull: bool)
      requires Valid()
      modifies bits
      ensures Valid()
      ensures Nulls() == if index < size then old(Nulls())[index := isNull] else old(Nulls())
    {
      hide Bit, SetBit, ClearBit, Unpacked;
      if index >= size {
        return;
      }
      ghost var before := bits[..];
      var byteIdx, bitIdx := index / 8, index % 8;
      if isNull {
        bits[byteIdx] := SetBit(bits[byteIdx], bitIdx);
      } else {
        bits[byteIdx] := ClearBit(bits[byteIdx], bitIdx);
      }
      UpdateByte(before, index, bits[byteIdx], isNull);
      assert bits[..] == before[byteIdx := bits[byteIdx]];
    }

    method Get(index: nat) returns (isNull: bool)
      requires Valid()
      ensures isNull == (index < size && Nulls()[index])
    {
      hide Bit;
      if index >= size {
        return false;
      }
      isNull := TestBit(bits[index / 8], index % 8);
      assert Unpacked(bits[..])[index] == isNull;
    }

    /** Looks at the bytes only; right because the padding is zero. */
    method IsAllNotNull() returns (r: bool)
      requires Valid()
      ensures r <==> forall i :: 0 <= i < size ==> !Nulls()[i]
    {
      hide Bit;
      r := true;
      var i := 0;
      while i < bits.Length
        invariant 0 <= i <= bits.Length
        invariant forall k :: 0 <= k < 8 * i ==> !Unpacked(bits[..])[k]
      {
        ByteZero(bits[i]);
        if bits[i] != 0 {
          var k :| 0 <= k < 8 && Bit(bits[i], k);
          assert Unpacked(bits[..])[8 * i + k];
          assert 8 * i + k < size && Nulls()[8 * i + k];
          return false;
        }
        forall k | 8 * i <= k < 8 * i + 8
          ensures !Unpacked(bits[..])[k]
        {
          assert !Bit(bits[i], k - 8 * i);
        }
        i := i + 1;
      }
    }
  }
}
