/**
  A value that does not fit can come back by chance.  Eight doubles are encoded; the field of
  the sixth is two bits too long for the accumulator, and a decoder still returns all eight: it
  takes the garbled code for another one, and twelve bits of later values for the rest of the
  field.  The first six values alone do not come back.
 */
module ChimpChance {
  import opened Bits
  import opened BitStream
  import opened Digits
  import opened Wrappers
  import opened Types
  import opened Chimp
  import opened ChimpRoundTrip
  import opened ChimpCode
  import opened ChimpLoss
  import opened ChimpDomain

  const A: u64 := 0x2000_0000_0000_0008
  const B: u64 := 0x181c_1c0e_0e07_0708
  const C: u64 := 0x581c_1c0e_0e07_0f08

  /** The five values that fit. */
  const FIRST_FIVE: seq<u64> := [0, 0, A, A, A]

  const EIGHT: seq<u64> := [0, 0, A, A, A, B, B, C]

  // ----- Numbers in parts -----

  /** Two numbers side by side are one number. */
  lemma Join(a: nat, m: nat, b: nat, n: nat, p: nat, x: nat)
    requires p == Pow2(n) && b < p && x == a * p + b
    ensures ToBits(x, m + n) == ToBits(a, m) + ToBits(b, n)
  {
    hide ToBits, Pow2;
    UpIsProduct(a, n);
    JoinBits(a, m, b, n);
  }

  lemma {:induction false} XorUp(a: nat, b: nat, c: nat, d: nat, n: nat)
    requires b < Pow2(n) && d < Pow2(n)
    ensures XorNat(Up(a, n) + b, Up(c, n) + d) == Up(XorNat(a, c), n) + XorNat(b, d)
  {
    hide XorNat;
    if n > 0 {
      XorUp(a, b / 2, c, d / 2, n - 1);
      var x, y := Up(a, n) + b, Up(c, n) + d;
      assert x / 2 == Up(a, n - 1) + b / 2 && x % 2 == b % 2;
      assert y / 2 == Up(c, n - 1) + d / 2 && y % 2 == d % 2;
      XorHalf(x, y);
      XorHalf(b, d);
    } else {
      XorZero(0);
    }
  }

  lemma XorHalf(x: nat, y: nat)
    ensures XorNat(x, y) == 2 * XorNat(x / 2, y / 2) + if x % 2 != y % 2 then 1 else 0
  {
  }

  /** XOR works part by part. */
  lemma XorParts(a: nat, b: nat, c: nat, d: nat, n: nat, p: nat, x: nat, y: nat)
    requires p == Pow2(n) && b < p && d < p && x == a * p + b && y == c * p + d
    ensures XorNat(x, y) == XorNat(a, c) * p + XorNat(b, d)
  {
    hide XorNat, Pow2;
    UpIsProduct(a, n);
    UpIsProduct(c, n);
    UpIsProduct(XorNat(a, c), n);
    XorUp(a, b, c, d, n);
  }

  lemma {:induction false} ShiftUp(y: nat, t: nat)
    requires y % 2 == 1
    ensures Up(y, t) > 0 && TrailingZeros(Up(y, t)) == t
  {
    if t > 0 {
      ShiftUp(y, t - 1);
    }
  }

  lemma {:induction false} ShlUp(y: u64, t: nat)
    requires Up(y, t) < 0x1_0000_0000_0000_0000
    ensures Shl(y, t) == Up(y, t)
  {
    if t > 0 {
      ShlUp(y, t - 1);
    }
  }

  lemma Powers()
    ensures Pow2(1) == 2 && Pow2(3) == 8 && Pow2(4) == 16 && Pow2(6) == 64
    ensures Pow2(8) == 0x100 && Pow2(11) == 0x800 && Pow2(48) == 0x1_0000_0000_0000
    ensures Pow2(40) == 0x100_0000_0000 && Pow2(52) == 0x10_0000_0000_0000 && Pow2(56) == 0x100_0000_0000_0000
    ensures Pow2(57) == 0x200_0000_0000_0000 && Pow2(59) == 0x800_0000_0000_0000
    ensures Pow2(61) == 0x2000_0000_0000_0000 && Pow2(62) == 0x4000_0000_0000_0000
    ensures Pow2(63) == 0x8000_0000_0000_0000 && Pow2(64) == 0x1_0000_0000_0000_0000
  {
    Pow2Of64();
    Pow2Byte(0);
    Pow2Byte(3);
    Pow2Byte(8);
    Pow2Byte(16);
    Pow2Byte(24);
    Pow2Byte(32);
    Pow2Byte(40);
    Pow2Byte(48);
    assert Pow2(57) == 2 * Pow2(56) && Pow2(59) == 4 * Pow2(57) && Pow2(61) == 4 * Pow2(59);
    assert Pow2(63) == 4 * Pow2(61) && Pow2(56) == 16 * Pow2(52) by {
      assert Pow2(54) == 4 * Pow2(52) && Pow2(56) == 4 * Pow2(54);
    }
  }

  // ----- The XORs -----

  lemma XorOfA()
    ensures XorNat(A, 0) == A && BitLength(A) == 62
    ensures TrailingZeros(A) == 3 && Shr(A, 3) == 0x400_0000_0000_0001
  {
    hide BitLength, TrailingZeros, Shr, Pow2, XorNat, Up;
    Powers();
    XorZero(A);
    BitLengthIs(A, 62);
    UpIsProduct(0x400_0000_0000_0001, 3);
    ShiftUp(0x400_0000_0000_0001, 3);
    ShrUp(0x400_0000_0000_0001, 3);
  }

  lemma XorOfB()
    ensures var x := 0x381c_1c0e_0e07_0700;
            && XorNat(B, A) == x && BitLength(x) == 62
            && TrailingZeros(x) == 8 && Shr(x, 3) == 0x703_8381_c1c0_e0e0
  {
    hide BitLength, TrailingZeros, Shr, Pow2, Up, XorNat;
    Powers();
    var x := 0x381c_1c0e_0e07_0700;
    XorParts(0x181_c1c0_e0e0_7070, 8, 0x200_0000_0000_0000, 8, 4, 16, B, A);
    XorParts(0, 0x181_c1c0_e0e0_7070, 1, 0, 57, 0x200_0000_0000_0000, 0x181_c1c0_e0e0_7070, 0x200_0000_0000_0000);
    XorZero(0x181_c1c0_e0e0_7070);
    XorUndo(8, 8);
    SmallXors();
    BitLengthIs(x, 62);
    UpIsProduct(0x38_1c1c_0e0e_0707, 8);
    ShiftUp(0x38_1c1c_0e0e_0707, 8);
    UpIsProduct(0x703_8381_c1c0_e0e0, 3);
    ShrUp(0x703_8381_c1c0_e0e0, 3);
  }

  lemma SmallXors()
    ensures XorNat(0, 1) == 1 && XorNat(5, 1) == 4 && XorNat(0xf, 7) == 8
  {
  }

  lemma XorOfC()
    ensures var x := 0x4000_0000_0000_0800;
            && XorNat(C, B) == x && BitLength(x) == 63
            && TrailingZeros(x) == 11 && Shr(x, 11) == 0x8_0000_0000_0001
  {
    hide BitLength, TrailingZeros, Shr, Pow2, Up, XorNat;
    Powers();
    SmallXors();
    var x := 0x4000_0000_0000_0800;
    XorUndo(8, 8);
    XorUndo(0x381c_1c0e_0e07, 0x381c_1c0e_0e07);
    XorParts(0x58_1c1c_0e0e_070f, 8, 0x18_1c1c_0e0e_0707, 8, 8, 0x100, C, B);
    XorParts(0x5_81c1_c0e0_e070, 0xf, 0x1_81c1_c0e0_e070, 7, 4, 16, 0x58_1c1c_0e0e_070f, 0x18_1c1c_0e0e_0707);
    XorTop();
    BitLengthIs(x, 63);
    UpIsProduct(0x8_0000_0000_0001, 11);
    ShiftUp(0x8_0000_0000_0001, 11);
    ShrUp(0x8_0000_0000_0001, 11);
  }

  lemma XorTop()
    ensures XorNat(0x5_81c1_c0e0_e070, 0x1_81c1_c0e0_e070) == 0x4_0000_0000_0000
  {
    hide XorNat, Pow2;
    Powers();
    SmallXors();
    XorUndo(0x81c1_c0e0_e070, 0x81c1_c0e0_e070);
    XorParts(5, 0x81c1_c0e0_e070, 1, 0x81c1_c0e0_e070, 48, 0x1_0000_0000_0000,
             0x5_81c1_c0e0_e070, 0x1_81c1_c0e0_e070);
  }

  // ----- The stream -----

  /** Values that fit, the state after them, and the length of their stream. */
  ghost predicate Reached(width: nat, vs: seq<u64>, c: Coder, n: nat) {
    && IsWidth(width) && AreValues(width, vs) && Fits(width, vs)
    && CoderAfter(width, START, vs) == c && |Encode(width, vs)| == n
  }

  lemma ReachedMore(width: nat, vs: seq<u64>, c: Coder, n: nat, v: u64)
    requires Reached(width, vs, c, n) && IsValue(width, v)
    ensures CoderOk(width, c) && AreValues(width, vs + [v])
    ensures DataFits(width, c, v, n) ==> Reached(width, vs + [v], NextCoder(width, c, v), n + Cost(width, c, v))
    ensures !DataFits(width, c, v, n) ==> !Fits(width, vs + [v])
  {
    hide NextCoder, DataFits, Cost, EncodeStep, CodeBits;
    StartOk(width);
    EncodeSnoc(width, START, [], vs, v);
    FitsConcat(width, START, 0, vs, [v]);
    EncodeAppends(width, START, [], vs);
    assert [v][1..] == [];
    if DataFits(width, c, v, n) {
      StepAppends(width, c, v, Encode(width, vs));
    }
  }

  lemma SameCode(c: Coder, n: nat)
    requires CoderOk(64, c) && c.count > 0
    ensures CaseOf(64, c, c.prev) == Same && NextCoder(64, c, c.prev) == c.(count := c.count + 1)
    ensures DataFits(64, c, c.prev, n) && Cost(64, c, c.prev) == 1
  {
    XorUndo(c.prev, c.prev);
  }

  /** The code of the third value, a fresh window. */
  lemma CodeOfA()
    ensures var c := Coder(2, 0, UNSET, 0);
            && CoderOk(64, c) && IsValue(64, A) && NextCoder(64, c, A) == Coder(3, A, 2, 3)
            && DataFits(64, c, A, 65) && Cost(64, c, A) == 74
  {
    hide XorNat, BitLength, TrailingZeros, Shr;
    Pow2Of64();
    XorOfA();
  }

  lemma FirstFive()
    ensures Reached(64, FIRST_FIVE, Coder(5, A, 2, 3), 141)
  {
    hide Reached, CaseOf, NextCoder, Cost, DataFits, Encode, Fits, CoderAfter, Pow2;
    assert [0] + [0] == [0, 0] && [0, 0] + [A] == [0, 0, A];
    assert [0, 0, A] + [A] == [0, 0, A, A] && [0, 0, A, A] + [A] == FIRST_FIVE;
    FirstValue();
    ReachedRepeat([0], Coder(1, 0, UNSET, 0), 64);
    CodeOfA();
    ReachedMore(64, [0, 0], Coder(2, 0, UNSET, 0), 65, A);
    ReachedRepeat([0, 0, A], Coder(3, A, 2, 3), 139);
    ReachedRepeat([0, 0, A, A], Coder(4, A, 2, 3), 140);
  }

  lemma FirstValue()
    ensures Reached(64, [0], Coder(1, 0, UNSET, 0), 64)
  {
    StartWithZero();
  }

  lemma ReachedRepeat(vs: seq<u64>, c: Coder, n: nat)
    requires Reached(64, vs, c, n) && c.count > 0
    ensures Reached(64, vs + [c.prev], c.(count := c.count + 1), n + 1)
  {
    hide NextCoder, Cost, DataFits, CaseOf;
    StartOk(64);
    ReachedMore(64, vs, c, n, c.prev);
    SameCode(c, n);
  }

  // ----- The value that does not fit -----

  /** The field begins with two ones, which is what the overlap holds anyway. */
  lemma TopOfB()
    ensures 0x703_8381_c1c0_e0e0 < Pow2(59)
    ensures ToBits(0x703_8381_c1c0_e0e0, 59)[0] && ToBits(0x703_8381_c1c0_e0e0, 59)[1]
  {
    Powers();
    hide Pow2;
    Join(3, 2, 0x103_8381_c1c0_e0e0, 57, 0x200_0000_0000_0000, 0x703_8381_c1c0_e0e0);
    assert ToBits(3, 2) == [true, true];
  }

  lemma CodeOfB()
    ensures var c := Coder(5, A, 2, 3);
            && CoderOk(64, c) && IsValue(64, B) && NextCoder(64, c, B) == Coder(6, B, 2, 3)
            && CaseOf(64, c, B) == Reuse && DataField(64, c, B) == Field(0x703_8381_c1c0_e0e0, 59)
  {
    hide XorNat, BitLength, TrailingZeros, Shr;
    Pow2Of64();
    XorOfB();
  }

  lemma StepOfB(s: seq<bool>)
    requires |s| == 141
    ensures var c := Coder(5, A, 2, 3);
            && CoderOk(64, c) && IsValue(64, B) && !DataFits(64, c, B, 141)
            && EncodeStep(64, c, B, s) == s + ToBits(0x703_8381_c1c0_e0e0, 59)
  {
    hide CaseOf, DataField, HeadFields, PutAll, EncodeStep, Pow2, ToBits, CoderOk, IsValue;
    CodeOfB();
    TopOfB();
    var c, field := Coder(5, A, 2, 3), ToBits(0x703_8381_c1c0_e0e0, 59);
    OverflowStream(c, B, s);
    var p, a := PutAll(s, HeadFields(64, c, B)), EncodeStep(64, c, B, s);
    assert p == s + [true, false];
    assert Garbled(p, field, 2, a);
    assert |a| == 200 && forall k :: 0 <= k < 200 ==> a[k] == (s + field)[k];
  }

  // ----- The whole stream -----

  lemma CodeOfC()
    ensures var c := Coder(7, B, 2, 3);
            && CoderOk(64, c) && IsValue(64, C) && CaseOf(64, c, C) == Fresh
            && HeadFields(64, c, C) == [Bit(true), Bit(true), Bit(true), Field(1, 6), Field(52, 6)]
            && DataField(64, c, C) == Field(0x8_0000_0000_0001, 52)
  {
    hide XorNat, BitLength, TrailingZeros, Shr;
    Pow2Of64();
    XorOfC();
  }

  lemma StepOfC(s: seq<bool>)
    requires |s| == 201
    ensures var c := Coder(7, B, 2, 3);
            && CoderOk(64, c) && IsValue(64, C)
            && EncodeStep(64, c, C, s)
               == s + ([true, true, true] + ToBits(1, 6) + ToBits(52, 6) + ToBits(0x8_0000_0000_0001, 52))
  {
    hide CaseOf, DataField, HeadFields, EncodeStep, Pow2, ToBits, CoderOk, IsValue, Fields;
    CodeOfC();
    var c := Coder(7, B, 2, 3);
    StepAppends(64, c, C, s);
    CodeBitsOfC();
  }

  lemma CodeBitsOfC()
    ensures CoderOk(64, Coder(7, B, 2, 3)) && IsValue(64, C)
    ensures CodeBits(64, Coder(7, B, 2, 3), C)
         == [true, true, true] + ToBits(1, 6) + ToBits(52, 6) + ToBits(0x8_0000_0000_0001, 52)
  {
    hide CaseOf, DataField, HeadFields, Pow2, ToBits, CoderOk, IsValue, FieldBits, ConcatFields;
    CodeOfC();
    var one, l, n, data := Bit(true), Field(1, 6), Field(52, 6), Field(0x8_0000_0000_0001, 52);
    BitFieldBits(true);
    SixFields(one, one, one, l, n, data);
    assert Fields(64, Coder(7, B, 2, 3), C) == [one, one, one, l, n, data];
    FieldBitsAre(l);
    FieldBitsAre(n);
    FieldBitsAre(data);
  }

  /** Everything after the first five values is one number. */
  function Tail(): (s: seq<bool>)
    ensures |s| == 131
  {
    ToBits(0x7038381c1c0e0e0707480000000000010, 131)
  }

  lemma TailIsNumber()
    ensures ToBits(0x703_8381_c1c0_e0e0, 59) + ToBits(7, 4) + ToBits(1, 6) + ToBits(52, 6)
            + ToBits(0x8_0000_0000_0001, 52) + ToBits(0, 4) == Tail()
  {
    Powers();
    hide Pow2, ToBits;
    Join(0x703_8381_c1c0_e0e0, 59, 7, 4, 16, 0x7038381c1c0e0e07);
    Join(0x7038381c1c0e0e07, 63, 1, 6, 64, 0x1c0e0e0707038381c1);
    Join(0x1c0e0e0707038381c1, 69, 52, 6, 64, 0x7038381c1c0e0e07074);
    Join(0x7038381c1c0e0e07074, 75, 0x8_0000_0000_0001, 52, 0x10_0000_0000_0000, 0x7038381c1c0e0e070748000000000001);
    Join(0x7038381c1c0e0e070748000000000001, 127, 0, 4, 16, 0x7038381c1c0e0e0707480000000000010);
  }

  lemma TailAt(s: seq<bool>, x: seq<bool>, l: seq<bool>, n: seq<bool>, y: seq<bool>, z: seq<bool>)
    ensures s + x + [false] + ([true, true, true] + l + n + y) + z
         == s + (x + [false, true, true, true] + l + n + y + z)
  {
  }

  lemma Sevens()
    ensures ToBits(7, 4) == [false, true, true, true]
  {
  }

  function CodeOfLast(): (s: seq<bool>)
    ensures |s| == 67
  {
    [true, true, true] + ToBits(1, 6) + ToBits(52, 6) + ToBits(0x8_0000_0000_0001, 52)
  }

  lemma EncodedEight()
    ensures AreValues(64, EIGHT) && AreValues(64, FIRST_FIVE) && AreValues(64, FIRST_FIVE + [B])
    ensures Encode(64, EIGHT)
         == Encode(64, FIRST_FIVE) + ToBits(0x703_8381_c1c0_e0e0, 59) + [false] + CodeOfLast()
    ensures |Encode(64, FIRST_FIVE)| == 141 && !Fits(64, FIRST_FIVE + [B])
  {
    hide EncodeStep, NextCoder, CaseOf, ToBits, Pow2, Encode, Fits, CoderAfter, CoderOk, IsValue;
    FirstFive();
    CodeOfB();
    CodeOfC();
    var s := Encode(64, FIRST_FIVE);
    var six := FIRST_FIVE + [B];
    assert six + [B] + [C] == EIGHT;
    ReachedMore(64, FIRST_FIVE, Coder(5, A, 2, 3), 141, B);
    StepOfB(s);
    OneMore(64, FIRST_FIVE, B);
    SameStream(Coder(6, B, 2, 3), Encode(64, six));
    OneMore(64, six, B);
    StepOfC(Encode(64, six + [B]));
    OneMore(64, six + [B], C);
  }

  lemma StreamOfEight()
    ensures AreValues(64, EIGHT) && AreValues(64, FIRST_FIVE)
    ensures Pad(Encode(64, EIGHT)) == Encode(64, FIRST_FIVE) + Tail()
  {
    hide ToBits, Pow2, Encode, Tail, Zeros;
    EncodedEight();
    TailIsNumber();
    Sevens();
    ZeroBits(4);
    TailAt(Encode(64, FIRST_FIVE), ToBits(0x703_8381_c1c0_e0e0, 59), ToBits(1, 6), ToBits(52, 6),
           ToBits(0x8_0000_0000_0001, 52), Zeros(4));
  }

  lemma OneMore(width: nat, vs: seq<u64>, v: u64)
    requires IsWidth(width) && AreValues(width, vs) && IsValue(width, v)
    ensures AreValues(width, vs + [v]) && CoderOk(width, START)
    ensures CoderOk(width, CoderAfter(width, START, vs))
    ensures Encode(width, vs + [v]) == EncodeStep(width, CoderAfter(width, START, vs), v, Encode(width, vs))
    ensures CoderAfter(width, START, vs + [v]) == NextCoder(width, CoderAfter(width, START, vs), v)
  {
    hide EncodeStep, NextCoder;
    StartOk(width);
    EncodeSnoc(width, START, [], vs, v);
  }

  lemma SameStream(c: Coder, s: seq<bool>)
    requires CoderOk(64, c) && c.count > 0
    ensures EncodeStep(64, c, c.prev, s) == s + [false]
    ensures NextCoder(64, c, c.prev) == c.(count := c.count + 1)
  {
    hide EncodeStep;
    SameCode(c, |s|);
    StepAppends(64, c, c.prev, s);
    BitFieldBits(false);
    var fs := Fields(64, c, c.prev);
    assert fs == [Bit(false)] + [Field(0, 0)];
    ConcatFieldsSnoc([Bit(false)], Field(0, 0));
    ConcatFieldsSnoc([], Bit(false));
    assert [] + [Bit(false)] == [Bit(false)];
  }

  // ----- What the decoder makes of it -----

  /** The last field of a number that stands at `pos`. */
  lemma LastField(s: seq<bool>, pos: nat, y: nat, m: nat, b: nat, n: nat, p: nat, x: nat)
    requires p == Pow2(n) && b < p && x == y * p + b && 0 < n && (pos + m) % 8 + n <= 64
    requires At(s, pos, ToBits(x, m + n))
    ensures At(s, pos, ToBits(y, m)) && ReadField(s, pos + m, n) == Success(b)
  {
    hide ToBits, Pow2, Readable, ReadAt;
    Join(y, m, b, n, p, x);
    AtSplit(s, pos, ToBits(y, m), ToBits(b, n));
    Pow2Of64();
    Pow2Monotone(n, 64);
    ReadBack(s, pos + m, Field(b, n));
  }

  lemma TailReads(s: seq<bool>)
    requires At(s, 141, Tail())
    ensures ReadField(s, 141, 1) == ReadField(s, 142, 1) == ReadField(s, 143, 1) == Success(1)
    ensures ReadField(s, 144, 6) == Success(0) && ReadField(s, 150, 6) == Success(56)
    ensures ReadField(s, 156, 56) == Success(0x38_1c1c_0e0e_0707)
    ensures ReadField(s, 212, 1) == Success(0)
    ensures ReadField(s, 213, 1) == Success(1) && ReadField(s, 214, 1) == Success(0)
    ensures ReadField(s, 215, 56) == Success(0x40_0000_0000_0008)
  {
    Powers();
    hide Pow2, ToBits, ReadField, At;
    LastField(s, 141, 0x381c1c0e0e07070383a40000000000008, 130, 0, 1, 2, 0x7038381c1c0e0e0707480000000000010);
    LastField(s, 141, 0x381c1c0e0e07070383a, 74, 0x40_0000_0000_0008, 56, 0x100_0000_0000_0000,
              0x381c1c0e0e07070383a40000000000008);
    LastField(s, 141, 0x1c0e0e0707038381c1d, 73, 0, 1, 2, 0x381c1c0e0e07070383a);
    LastField(s, 141, 0xe0707038381c1c0e0e, 72, 1, 1, 2, 0x1c0e0e0707038381c1d);
    LastField(s, 141, 0x7038381c1c0e0e0707, 71, 0, 1, 2, 0xe0707038381c1c0e0e);
    LastField(s, 141, 0x7038, 15, 0x38_1c1c_0e0e_0707, 56, 0x100_0000_0000_0000, 0x7038381c1c0e0e0707);
    LastField(s, 141, 0x1c0, 9, 56, 6, 64, 0x7038);
    LastField(s, 141, 7, 3, 0, 6, 64, 0x1c0);
    LastField(s, 141, 3, 2, 1, 1, 2, 7);
    LastField(s, 141, 1, 1, 1, 1, 2, 3);
    LastField(s, 141, 0, 0, 1, 1, 2, 1);
  }

  /** The garbled code reads as a fresh window of 56 bits. */
  lemma ReadsB(build: Build, s: seq<bool>)
    requires At(s, 141, Tail())
    ensures DecodeStep(build, 64, Coder(5, A, 2, 3), s, 141) == Success(Decoded(B, Coder(6, B, 0, 8), 212))
  {
    hide ReadField, Tail, At, DecodeStep, PlanAt, PlanFresh, Shl, Xor, CoderOk, CaseOf, DataField, NextCoder;
    var c := Coder(5, A, 2, 3);
    CodeOfB();
    ShiftOfB();
    TailReads(s);
    PlanOfB(build, s);
    PlanOfFresh(build, 64, c, s, 142, Plan(0, 8, 56, 156));
    StepFromPlan(build, 64, c, s, 141, Plan(0, 8, 56, 156), 0x38_1c1c_0e0e_0707);
  }

  lemma PlanOfB(build: Build, s: seq<bool>)
    requires ReadField(s, 144, 6) == Success(0) && ReadField(s, 150, 6) == Success(56)
    ensures PlanFresh(build, 64, s, 144) == Success(Plan(0, 8, 56, 156))
  {
    hide ReadField, AsU8;
    AsU8Small(0);
    AsU8Small(56);
  }

  lemma ShiftOfB()
    ensures Shl(0x38_1c1c_0e0e_0707, 8) == 0x381c_1c0e_0e07_0700
    ensures Xor(A, 0x381c_1c0e_0e07_0700) == B
  {
    Powers();
    hide Pow2, Shl, XorNat, Up;
    UpIsProduct(0x38_1c1c_0e0e_0707, 8);
    ShlUp(0x38_1c1c_0e0e_0707, 8);
    XorOfB();
    XorUndo(A, B);
  }

  lemma ShiftOfC()
    ensures Shl(0x40_0000_0000_0008, 8) == 0x4000_0000_0000_0800
    ensures Xor(B, 0x4000_0000_0000_0800) == C
  {
    Powers();
    hide Pow2, Shl, XorNat, Up;
    UpIsProduct(0x40_0000_0000_0008, 8);
    ShlUp(0x40_0000_0000_0008, 8);
    XorOfC();
    XorUndo(B, C);
  }

  /** The last value is read as a reused window. */
  lemma ReadsC(build: Build, s: seq<bool>)
    requires At(s, 141, Tail())
    ensures DecodeStep(build, 64, Coder(7, B, 0, 8), s, 213) == Success(Decoded(C, Coder(8, C, 0, 8), 271))
  {
    hide ReadField, Tail, At, DecodeStep, PlanAt, Shl, Xor, CaseOf, DataField, HeadFields;
    var c := Coder(7, B, 0, 8);
    CodeOfC();
    ShiftOfC();
    TailReads(s);
    PlanOfReuse(build, 64, c, s, 214);
    StepFromPlan(build, 64, c, s, 213, Plan(0, 8, 56, 215), 0x40_0000_0000_0008);
  }

  lemma ReadsRepeat(build: Build, s: seq<bool>)
    requires At(s, 141, Tail())
    ensures DecodeStep(build, 64, Coder(6, B, 0, 8), s, 212) == Success(Decoded(B, Coder(7, B, 0, 8), 213))
  {
    TailReads(s);
  }

  lemma ReadsThree(build: Build, s: seq<bool>)
    requires At(s, 141, Tail())
    ensures DecodeFrom(build, 64, Coder(5, A, 2, 3), s, 141, 3) == Success(Run([B, B, C], Coder(8, C, 0, 8), 271))
  {
    hide DecodeStep, At, Tail;
    var c6, c7, c8 := Coder(6, B, 0, 8), Coder(7, B, 0, 8), Coder(8, C, 0, 8);
    assert [C] + [] == [C] && [B] + [C] == [B, C] && [B] + [B, C] == [B, B, C];
    ReadsB(build, s);
    ReadsRepeat(build, s);
    ReadsC(build, s);
    DecodeCons(build, 64, c7, s, 213, 0, Decoded(C, c8, 271), Run([], c8, 271));
    DecodeCons(build, 64, c6, s, 212, 1, Decoded(B, c7, 213), Run([C], c8, 271));
    DecodeCons(build, 64, Coder(5, A, 2, 3), s, 141, 2, Decoded(B, c6, 212), Run([B, C], c8, 271));
  }

  /**
    Eight doubles that come back although the sixth does not fit, while the first six alone do
    not: the exact domain has to speak of prefixes.
   */
  lemma ComesBackByChance(build: Build, vs: seq<u64>)
    requires vs == EIGHT
    ensures AreValues(64, vs) && AreValues(64, vs[..6])
    ensures RoundTrips(build, 64, vs) && !RoundTrips(build, 64, vs[..6]) && !Fits(64, vs)
  {
    hide Encode, Fits, CoderAfter, ToBits, Tail, DecodeFrom, NextCoder, EncodeStep;
    StartOk(64);
    FirstFive();
    EncodedEight();
    StreamOfEight();
    var s := Pad(Encode(64, EIGHT));
    assert At(s, 141, Tail());
    assert DecodeFrom(build, 64, START, s, 0, 5) == Success(Run(FIRST_FIVE, Coder(5, A, 2, 3), 141)) by {
      DecodeFirstFive(build, s);
    }
    ReadsThree(build, s);
    DecodeConcat(build, 64, START, s, 0, 5, 3);
    assert FIRST_FIVE + [B, B, C] == EIGHT;
    SixFail(build, vs);
  }

  lemma DecodeFirstFive(build: Build, s: seq<bool>)
    requires AreValues(64, FIRST_FIVE) && Encode(64, FIRST_FIVE) <= s
    ensures DecodeFrom(build, 64, START, s, 0, 5) == Success(Run(FIRST_FIVE, Coder(5, A, 2, 3), 141))
  {
    hide FitsFrom, CoderAfter, DecodeFrom, EncodeFrom;
    StartOk(64);
    FirstFive();
    DecodeFollows(build, 64, START, [], FIRST_FIVE, s);
  }

  lemma SixFail(build: Build, vs: seq<u64>)
    requires vs == EIGHT
    ensures AreValues(64, vs) && !Fits(64, vs) && !RoundTrips(build, 64, vs[..6])
  {
    hide Fits, Encode, CoderAfter, RoundTrips, DataFits, EncodeStep, CaseOf, DataField, NextCoder, ToBits, Pow2;
    StartOk(64);
    EncodedEight();
    FirstFive();
    CodeOfB();
    StepOfB(Encode(64, FIRST_FIVE));
    assert vs[..6] == FIRST_FIVE + [B];
    LastValueLost(build, FIRST_FIVE, B);
    if Fits(64, vs) {
      assert vs == (FIRST_FIVE + [B]) + [B, C];
      PrefixStream(64, FIRST_FIVE + [B], [B, C]);
    }
  }
}
