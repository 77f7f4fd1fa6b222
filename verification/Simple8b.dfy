/**
  The Simple8b word codec: integers are zigzag-mapped and packed, as many as fit, into
  64-bit words with a 4-bit selector.
 */
module Simple8b {
  import opened Bits
  import opened BitStream
  import opened Digits

  // ----- Selectors -----

  /** Values per word and bits per value. */
  const SELECTORS: seq<(nat, nat)> := [
    (240, 0), (120, 0), (60, 1), (30, 2), (20, 3), (15, 4), (12, 5), (10, 6),
    (8, 7), (7, 8), (6, 10), (5, 12), (4, 15), (3, 20), (2, 30), (1, 60)]

  const MAX_VALUES: seq<u64> := [
    0, 0, 1, 3, 7, 15, 31, 63, 127, 255, 1023, 4095, 32767, 1048575, 1073741823,
    1152921504606846975]

  function CountOf(selector: nat): (n: nat)
    requires selector < 16
    ensures n > 0
  {
    SELECTORS[selector].0
  }

  function BitsOf(selector: nat): (n: nat)
    requires selector < 16
    ensures CountOf(selector) * n <= 60
  {
    SELECTORS[selector].1
  }

  lemma MaxValueBits(selector: nat)
    requires selector < 16
    ensures MAX_VALUES[selector] == Pow2(BitsOf(selector)) - 1
  {
    Pow2Of64();
    Pow2Byte(0);
    Pow2Byte(2);
    Pow2Byte(7);
    Pow2Byte(4);
    Pow2Byte(12);
    Pow2Byte(22);
    Pow2Byte(14);
    Pow2Byte(6);
    Pow2Byte(52);
    Pow2Byte(44);
    Pow2Byte(36);
    Pow2Byte(28);
    Pow2Byte(20);
  }

  /**
    The table: the runs of zeros and ones, and then, in order of decreasing count, every pair
    of a count and a width that fills 60 bits as far as it can.
   */
  lemma SelectorTable(selector: nat)
    requires selector < 16
    ensures CountOf(0) == 240 && BitsOf(0) == 0 && CountOf(1) == 120 && BitsOf(1) == 0
    ensures 1 < selector ==>
      var n, bits := CountOf(selector), BitsOf(selector);
      n * bits <= 60 < (n + 1) * bits && 60 < n * (bits + 1)
    ensures selector < 15 ==> CountOf(selector) > CountOf(selector + 1)
  {
  }

  /** For every width the first selector wide enough packs as many values as 60 bits hold. */
  lemma WidthSelector(b: nat) returns (selector: nat)
    requires 1 <= b <= 60
    ensures 1 < selector < 16 && b <= BitsOf(selector)
    ensures forall i :: 2 <= i < selector ==> BitsOf(i) < b
    ensures CountOf(selector) == 60 / b
  {
    selector := 2;
    while BitsOf(selector) < b
      invariant 2 <= selector < 16 && forall i :: 2 <= i < selector ==> BitsOf(i) < b
      decreases 16 - selector
    {
      selector := selector + 1;
    }
    var n := CountOf(selector);
    assert selector > 2 ==> BitsOf(selector - 1) < b;
    assert n * b <= 60 < (n + 1) * b;
    DivUnique(60, b, n, 60 - n * b);
  }

  // ----- Words -----

  function SelectorOf(word: u64): (selector: nat)
    ensures selector < 16
  {
    assert Pow2(4) == 16;
    Low(Shr(word, 60), 4)
  }

  function ValueAt(word: u64, selector: nat, i: nat): (v: nat)
    requires selector < 16
    ensures v < Pow2(60)
  {
    if BitsOf(selector) == 0 then
      Pow2Monotone(1, 60);
      if selector == 1 then 1 else 0
    else
      Pow2Monotone(BitsOf(selector), 60);
      Low(Shr(word, i * BitsOf(selector)), BitsOf(selector))
  }

  /** The values that a decoder reads from a word. */
  function Unpack(word: u64): (vs: seq<nat>)
    ensures |vs| > 0 && forall i :: 0 <= i < |vs| ==> vs[i] < Pow2(60)
  {
    seq(CountOf(SelectorOf(word)), i requires 0 <= i < CountOf(SelectorOf(word)) =>
      ValueAt(word, SelectorOf(word), i))
  }

  function UnpackAll(words: seq<u64>): (vs: seq<nat>)
    ensures forall i :: 0 <= i < |vs| ==> vs[i] < Pow2(60)
  {
    if |words| == 0 then [] else Unpack(words[0]) + UnpackAll(words[1..])
  }

  lemma {:induction false} UnpackAllSnoc(words: seq<u64>, word: u64)
    ensures UnpackAll(words + [word]) == UnpackAll(words) + Unpack(word)
    decreases |words|
  {
    if |words| == 0 {
      assert words + [word] == [word] && [word][1..] == [];
    } else {
      assert (words + [word])[1..] == words[1..] + [word];
      UnpackAllSnoc(words[1..], word);
      SeqAssoc(Unpack(words[0]), UnpackAll(words[1..]), Unpack(word));
    }
  }

  // ----- Packing -----

  /** The payload: the first value is the lowest. */
  function PackBits(vs: seq<nat>, bits: nat): (s: seq<bool>)
    ensures |s| == |vs| * bits
  {
    if |vs| == 0 then [] else ToBits(vs[|vs| - 1], bits) + PackBits(vs[..|vs| - 1], bits)
  }

  /** A word with `vs` packed behind the selector. */
  ghost predicate Packed(word: u64, selector: nat, vs: seq<nat>, bits: nat)
  {
    && |vs| * bits <= 60
    && ToBits(word, 64) == ToBits(selector, 4) + Zeros(60 - |vs| * bits) + PackBits(vs, bits)
  }

  lemma SelectorWord(selector: nat, bits: nat)
    requires selector < 16
    ensures selector < 0x1_0000_0000_0000_0000 && Packed(Shl(selector, 60), selector, [], bits)
  {
    ShlBits(selector, 60);
    SplitBits(selector, 60, 4);
    assert 0 * bits == 0;
    assert ToBits(selector, 64)[60..] == ToBits(selector, 4);
  }

  lemma SeqOr(head: seq<bool>, field: seq<bool>, tail: seq<bool>)
    requires |head| == 4 && |field| + |tail| <= 60
    ensures BitOr(head + Zeros(60 - |tail|) + tail,
                  Zeros(64 - |field| - |tail|) + field + Zeros(|tail|))
         == head + Zeros(60 - |field| - |tail|) + (field + tail)
  {
  }

  /** OR-ing in one more value. */
  lemma PackOne(word: u64, selector: nat, vs: seq<nat>, bits: nat, v: u64)
    requires selector < 16 && Packed(word, selector, vs, bits)
    requires (|vs| + 1) * bits <= 60 && v < Pow2(bits)
    ensures |vs| * bits <= 60 && Packed(Or(word, Shl(v, |vs| * bits)), selector, vs + [v], bits)
  {
    hide ToBits, Shl, Zeros, BitOr, Pow2, OrNat, PackBits;
    var k := |vs| * bits;
    assert (|vs| + 1) * bits == k + bits;
    PackBitsMore(vs, v, bits);
    OrBits(word, Shl(v, k), 64);
    ShiftedBits(Field(v, bits), 64 - bits - k);
    SeqOr(ToBits(selector, 4), ToBits(v, bits), PackBits(vs, bits));
    assert |vs + [v]| * bits == k + bits;
  }

  lemma PackBitsMore(vs: seq<nat>, v: nat, bits: nat)
    ensures PackBits(vs + [v], bits) == ToBits(v, bits) + PackBits(vs, bits)
  {
    assert (vs + [v])[..|vs|] == vs;
  }

  lemma {:induction false} PackedValue(vs: seq<nat>, bits: nat, i: nat)
    requires i < |vs|
    ensures (i + 1) * bits <= |vs| * bits
    ensures var s := PackBits(vs, bits);
            s[|s| - (i + 1) * bits..|s| - i * bits] == ToBits(vs[i], bits)
    decreases |vs|
  {
    hide ToBits;
    var s, n := PackBits(vs, bits), |vs| - 1;
    var rest := PackBits(vs[..n], bits);
    assert (n + 1) * bits == n * bits + bits && (i + 1) * bits == i * bits + bits;
    assert s == ToBits(vs[n], bits) + rest;
    if i < n {
      PackedValue(vs[..n], bits, i);
      TailSlice(ToBits(vs[n], bits), rest, (i + 1) * bits, i * bits);
    }
  }

  /** A number's bits below bit `k`, and the `bits` of them above that. */
  lemma FieldOfWord(word: u64, k: nat, bits: nat)
    requires k + bits <= 64
    ensures ToBits(Shr(word, k), bits) == ToBits(word, 64)[64 - k - bits..64 - k]
  {
    ShrBits(word, k);
    SplitBits(Shr(word, k), 64 - k - bits, bits);
  }

  lemma UnpackOne(word: u64, selector: nat, vs: seq<nat>, i: nat)
    requires selector < 16 && BitsOf(selector) > 0 && Packed(word, selector, vs, BitsOf(selector))
    requires i < |vs| && vs[i] < Pow2(BitsOf(selector))
    ensures ValueAt(word, selector, i) == vs[i]
  {
    hide ToBits, Shr, Low, PackBits;
    var bits := BitsOf(selector);
    PackedValue(vs, bits, i);
    assert (i + 1) * bits == i * bits + bits;
    FieldOfWord(word, i * bits, bits);
    var s := PackBits(vs, bits);
    TailSlice(ToBits(selector, 4) + Zeros(60 - |vs| * bits), s, (i + 1) * bits, i * bits);
    LowBits(Shr(word, i * bits), vs[i], bits);
  }

  lemma TailSlice<T>(a: seq<T>, b: seq<T>, i: nat, j: nat)
    requires j <= i <= |b|
    ensures (a + b)[|a + b| - i..|a + b| - j] == b[|b| - i..|b| - j]
  {
  }

  lemma LowBits(x: nat, v: nat, bits: nat)
    requires v < Pow2(bits) && ToBits(x, bits) == ToBits(v, bits)
    ensures Low(x, bits) == v
  {
    BitsInjective(Low(x, bits), v, bits);
  }

  lemma SelectorUnpacks(word: u64, selector: nat, vs: seq<nat>, bits: nat)
    requires selector < 16 && Packed(word, selector, vs, bits)
    ensures SelectorOf(word) == selector
  {
    hide ToBits, Shr, PackBits, Low;
    FieldOfWord(word, 60, 4);
    assert Pow2(4) == 16;
    assert ToBits(word, 64)[0..4] == ToBits(selector, 4);
    LowBits(Shr(word, 60), selector, 4);
  }

  /** A full word of packed values reads back as those values. */
  lemma UnpackPacked(word: u64, selector: nat, vs: seq<nat>)
    requires 1 < selector < 16 && |vs| == CountOf(selector)
    requires Packed(word, selector, vs, BitsOf(selector))
    requires forall i :: 0 <= i < |vs| ==> vs[i] < Pow2(BitsOf(selector))
    ensures Unpack(word) == vs
  {
    hide Packed, ValueAt, SelectorOf;
    SelectorUnpacks(word, selector, vs, BitsOf(selector));
    forall i | 0 <= i < |vs|
      ensures Unpack(word)[i] == vs[i]
    {
      UnpackOne(word, selector, vs, i);
    }
  }

  lemma UnpackZeros(word: u64)
    requires Packed(word, 0, [], 0)
    ensures |Unpack(word)| == 240 && forall i :: 0 <= i < 240 ==> Unpack(word)[i] == 0
  {
    hide Packed;
    SelectorUnpacks(word, 0, [], 0);
  }

  // ----- The word for a group of values -----

  /** The 60 bits behind the selector; selector 1 fills them with ones. */
  function Payload(selector: nat, vs: seq<nat>): (s: seq<bool>)
    requires selector < 16 && |vs| == CountOf(selector)
    ensures |s| == 60
  {
    if selector == 1 then seq(60, i => true)
    else Zeros(60 - |vs| * BitsOf(selector)) + PackBits(vs, BitsOf(selector))
  }

  function WordOf(selector: nat, vs: seq<nat>): (word: u64)
    requires selector < 16 && |vs| == CountOf(selector)
    ensures ToBits(word, 64) == ToBits(selector, 4) + Payload(selector, vs)
  {
    Pow2Of64();
    ToFromBits(ToBits(selector, 4) + Payload(selector, vs));
    FromBits(ToBits(selector, 4) + Payload(selector, vs))
  }

  /** The values as digits, the first one lowest. */
  function PackedSum(vs: seq<nat>, bits: nat): (x: nat)
  {
    if |vs| == 0 then 0
    else Up(vs[|vs| - 1], (|vs| - 1) * bits) + PackedSum(vs[..|vs| - 1], bits)
  }

  lemma {:induction false} PackBitsNumber(vs: seq<nat>, bits: nat)
    requires forall i :: 0 <= i < |vs| ==> vs[i] < Pow2(bits)
    ensures PackedSum(vs, bits) < Pow2(|vs| * bits)
    ensures PackBits(vs, bits) == ToBits(PackedSum(vs, bits), |vs| * bits)
    decreases |vs|
  {
    if |vs| > 0 {
      hide ToBits;
      var n := |vs| - 1;
      PackBitsNumber(vs[..n], bits);
      assert (n + 1) * bits == bits + n * bits;
      JoinBits(vs[n], bits, PackedSum(vs[..n], bits), n * bits);
      UpBound(vs[n], bits, n * bits);
    }
  }

  lemma {:induction false} UpBound(x: nat, n: nat, k: nat)
    requires x < Pow2(n)
    ensures Up(x, k) + Pow2(k) <= Pow2(n + k)
  {
    if k > 0 {
      UpBound(x, n, k - 1);
    }
  }

  /** The word as a number: `selector * 2^60` and each value shifted to its place. */
  lemma WordNumber(selector: nat, vs: seq<nat>)
    requires 1 < selector < 16 && |vs| == CountOf(selector)
    requires forall i :: 0 <= i < |vs| ==> vs[i] <= MAX_VALUES[selector]
    ensures WordOf(selector, vs) == Up(selector, 60) + PackedSum(vs, BitsOf(selector))
  {
    hide ToBits, WordOf, PackBits, PackedSum, Up, Pow2;
    var bits := BitsOf(selector);
    MaxValueBits(selector);
    PackBitsNumber(vs, bits);
    var sum, used := PackedSum(vs, bits), |vs| * bits;
    Pow2Monotone(used, 60);
    SmallBits(sum, 60 - used, used);
    JoinBits(selector, 4, sum, 60);
    FourBits(selector);
    UpBound(selector, 4, 60);
    Pow2Of64();
    BitsInjective(WordOf(selector, vs), Up(selector, 60) + sum, 64);
  }

  lemma FourBits(selector: nat)
    requires selector < 16
    ensures selector < Pow2(4)
  {
  }

  /** What a decoder makes of such a word, if every value fits its slot. */
  lemma WordUnpacks(selector: nat, vs: seq<nat>)
    requires selector < 16 && selector != 1 && |vs| == CountOf(selector)
    requires forall i :: 0 <= i < |vs| ==> vs[i] <= MAX_VALUES[selector]
    ensures Unpack(WordOf(selector, vs)) == vs
  {
    hide WordOf, Unpack, PackBits, ToBits;
    MaxValueBits(selector);
    if selector == 0 {
      assert PackBits([], 0) == PackBits(vs, 0) == [];
      UnpackZeros(WordOf(0, vs));
    } else {
      UnpackPacked(WordOf(selector, vs), selector, vs);
    }
  }

  /** Selector 1 writes ones and reads ones, although only zeros are packed with it. */
  lemma OnesUnpack(vs: seq<nat>)
    requires |vs| == 120
    ensures |Unpack(WordOf(1, vs))| == 120 && forall i :: 0 <= i < 120 ==> Unpack(WordOf(1, vs))[i] == 1
  {
    hide WordOf, ToBits, Low, Shr;
    var word := WordOf(1, vs);
    FieldOfWord(word, 60, 4);
    assert Pow2(4) == 16;
    assert ToBits(word, 64)[0..4] == ToBits(1, 4);
    LowBits(Shr(word, 60), 1, 4);
  }
}
