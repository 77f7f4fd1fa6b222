/**
  The code of a value in plain arithmetic: which branch is taken, which bits it writes, and
  which window it leaves, told by the size and the divisibility of the XOR alone.
 */
module ChimpCode {
  import opened Bits
  import opened BitStream
  import opened Digits
  import opened Types
  import opened Wrappers
  import opened Chimp
  import opened ChimpRoundTrip

  // ----- Conditions on the XOR -----

  /** `x / 2^t`. */
  function Quotient(x: nat, t: nat): (q: nat) {
    Part(x, Pow2(t))
  }

  predicate WindowSet(width: nat, c: Coder) {
    c.leading + c.trailing < width
  }

  /** The XOR lies within the remembered window. */
  predicate InWindow(width: nat, c: Coder, x: nat) {
    WindowSet(width, c) && x < Pow2(width - c.leading) && x % Pow2(c.trailing) == 0
  }

  /** It ends exactly where the window ends, and begins one bit before it. */
  predicate OneBitOver(width: nat, c: Coder, x: nat) {
    && WindowSet(width, c) && 0 < c.leading
    && x % Pow2(c.trailing) == 0 && Quotient(x, c.trailing) % 2 == 1
    && Pow2(width - c.leading) <= x < Pow2(width - c.leading + 1)
  }

  /** Exactly `l` leading and `t` trailing zeros. */
  predicate ExactZeros(width: nat, x: nat, l: nat, t: nat) {
    && l + t < width
    && Pow2(width - l - 1) <= x < Pow2(width - l)
    && x % Pow2(t) == 0 && Quotient(x, t) % 2 == 1
  }

  // ----- Which branch -----

  lemma LeadingAtLeast(width: nat, x: nat, l: nat)
    requires x < Pow2(width) && l <= width
    ensures LeadingZeros(x, width) >= l <==> x < Pow2(width - l)
  {
    BitLengthBelow(x, width - l);
  }

  lemma ExactIs(width: nat, x: nat)
    requires 0 < x < Pow2(width)
    ensures ExactZeros(width, x, LeadingZeros(x, width), TrailingZeros(x))
  {
    BitLengthSpec(x);
    TrailingZerosExact(x, TrailingZeros(x));
    ShrBitLength(x, TrailingZeros(x));
  }

  lemma BranchIs(width: nat, c: Coder, v: u64)
    requires CoderOk(width, c) && IsValue(width, v) && c.count > 0
    ensures var x := Xor(v, c.prev);
            && (v == c.prev <==> CaseOf(width, c, v) == Same)
            && (v != c.prev && InWindow(width, c, x) <==> CaseOf(width, c, v) == Reuse)
            && (v != c.prev && OneBitOver(width, c, x) <==> CaseOf(width, c, v) == Close)
  {
    hide LeadingZeros, TrailingZeros, Pow2, BitLength;
    XorUndo(c.prev, v);
    var x := XorWith(width, c, v);
    if x != 0 && WindowSet(width, c) {
      LeadingAtLeast(width, x, c.leading);
      TrailingZerosDivide(x, c.trailing);
      TrailingZerosExact(x, c.trailing);
      if c.leading > 0 {
        LeadingAtLeast(width, x, c.leading - 1);
      }
    }
  }

  // ----- Which bits -----

  lemma FieldBitsAre(f: Field)
    ensures FieldBits(f) == ToBits(f.value, f.len)
  {
  }

  lemma ThreeFields(a: Field, b: Field, c: Field)
    ensures ConcatFields([a, b, c]) == FieldBits(a) + FieldBits(b) + FieldBits(c)
  {
    hide FieldBits;
    ConcatFieldsSnoc([a, b], c);
    ConcatFieldsSnoc([a], b);
    ConcatFieldsSnoc([], a);
    assert [] + [a] == [a] && [a] + [b] == [a, b] && [a, b] + [c] == [a, b, c];
  }

  lemma FiveFields(a: Field, b: Field, c: Field, d: Field, e: Field)
    ensures ConcatFields([a, b, c, d, e])
         == FieldBits(a) + FieldBits(b) + FieldBits(c) + FieldBits(d) + FieldBits(e)
  {
    hide FieldBits;
    ConcatFieldsSnoc([a, b, c, d], e);
    ConcatFieldsSnoc([a, b, c], d);
    ThreeFields(a, b, c);
    assert [a, b, c] + [d] == [a, b, c, d] && [a, b, c, d] + [e] == [a, b, c, d, e];
  }

  lemma SixFields(a: Field, b: Field, c: Field, d: Field, e: Field, f: Field)
    ensures ConcatFields([a, b, c, d, e, f])
         == FieldBits(a) + FieldBits(b) + FieldBits(c) + FieldBits(d) + FieldBits(e) + FieldBits(f)
  {
    hide FieldBits;
    ConcatFieldsSnoc([a, b, c, d, e], f);
    FiveFields(a, b, c, d, e);
    assert [a, b, c, d, e] + [f] == [a, b, c, d, e, f];
  }

  // ----- The code -----

  /** The first value is written as it is. */
  lemma FirstCode(width: nat, v: u64, pos: nat)
    requires IsWidth(width) && IsValue(width, v)
    ensures CoderOk(width, START)
    ensures CodeBits(width, START, v) == ToBits(v, width)
    ensures NextCoder(width, START, v) == Coder(1, v, UNSET, 0)
    ensures DataFits(width, START, v, pos) <==> pos % 8 + width <= 64
  {
    hide ToBits, Pow2;
    StartOk(width);
    var f := Field(v, width);
    ConcatFieldsSnoc([], f);
    assert Fields(width, START, v) == [] + [f];
    FieldBitsAre(f);
  }

  /** A repeated value is one zero bit. */
  lemma RepeatCode(width: nat, c: Coder, pos: nat)
    requires CoderOk(width, c) && c.count > 0
    ensures CodeBits(width, c, c.prev) == [false]
    ensures NextCoder(width, c, c.prev) == c.(count := c.count + 1)
    ensures DataFits(width, c, c.prev, pos)
  {
    hide ToBits;
    XorUndo(c.prev, c.prev);
    var zero, none := Bit(false), Field(0, 0);
    assert Fields(width, c, c.prev) == [zero] + [none];
    ConcatFieldsSnoc([zero], none);
    ConcatFieldsSnoc([], zero);
    assert [] + [zero] == [zero];
    BitFieldBits(false);
    FieldBitsAre(none);
  }

  /** An XOR within the window: two control bits, the bits of the window, and it stays. */
  lemma WindowCode(width: nat, c: Coder, v: u64, pos: nat)
    requires CoderOk(width, c) && IsValue(width, v) && c.count > 0
    ensures v != c.prev && InWindow(width, c, Xor(v, c.prev)) ==>
      var x, n := Xor(v, c.prev), width - c.leading - c.trailing;
      && CodeBits(width, c, v) == [true, false] + ToBits(Quotient(x, c.trailing), n)
      && NextCoder(width, c, v) == Coder(c.count + 1, v, c.leading, c.trailing)
      && Cost(width, c, v) == 2 + n
      && (DataFits(width, c, v, pos) <==> (pos + 2) % 8 + n <= 64)
  {
    hide ToBits, ConcatFields, Pow2, Shr, LeadingZeros, TrailingZeros, CaseOf;
    BranchIs(width, c, v);
    if v != c.prev && InWindow(width, c, Xor(v, c.prev)) {
      var data := DataField(width, c, v);
      ShrDivides(XorWith(width, c, v), c.trailing);
      ThreeFields(Bit(true), Bit(false), data);
      assert Fields(width, c, v) == [Bit(true), Bit(false), data];
      BitFieldBits(true);
      BitFieldBits(false);
      FieldBitsAre(data);
    }
  }

  /** One leading zero less: five control bits, one more data bit, and the window grows by it. */
  lemma CloseCode(width: nat, c: Coder, v: u64, pos: nat)
    requires CoderOk(width, c) && IsValue(width, v) && c.count > 0
    ensures v != c.prev && OneBitOver(width, c, Xor(v, c.prev)) ==>
      var x, n := Xor(v, c.prev), width - c.leading - c.trailing + 1;
      && CodeBits(width, c, v) == [true, true, false, false, false] + ToBits(Quotient(x, c.trailing), n)
      && NextCoder(width, c, v) == Coder(c.count + 1, v, c.leading - 1, c.trailing)
      && Cost(width, c, v) == 5 + n
      && (DataFits(width, c, v, pos) <==> (pos + 5) % 8 + n <= 64)
  {
    hide ToBits, FieldBits, ConcatFields, Fields, NextCoder, CaseOf, OneBitOver, Quotient;
    CloseFields(width, c, v);
    if v != c.prev && OneBitOver(width, c, Xor(v, c.prev)) {
      var data := DataField(width, c, v);
      FiveFields(Bit(true), Bit(true), Bit(false), Field(0, 2), data);
      BitFieldBits(true);
      BitFieldBits(false);
      MinusOneBits();
      FieldBitsAre(data);
    }
  }

  lemma MinusOneBits()
    ensures FieldBits(Field(0, 2)) == [false, false]
  {
  }

  lemma CloseFields(width: nat, c: Coder, v: u64)
    requires CoderOk(width, c) && IsValue(width, v) && c.count > 0
    ensures v != c.prev && OneBitOver(width, c, Xor(v, c.prev)) ==>
      var data := DataField(width, c, v);
      && data.value == Quotient(Xor(v, c.prev), c.trailing)
      && data.len == width - c.leading - c.trailing + 1
      && Fields(width, c, v) == [Bit(true), Bit(true), Bit(false), Field(0, 2), data]
      && NextCoder(width, c, v) == Coder(c.count + 1, v, c.leading - 1, c.trailing)
      && CaseOf(width, c, v) == Close
  {
    hide ConcatFields, Pow2, Shr, LeadingZeros, TrailingZeros, CaseOf;
    BranchIs(width, c, v);
    if v != c.prev && OneBitOver(width, c, Xor(v, c.prev)) {
      CloseMeansOneLess(width, c, v);
      ShrDivides(XorWith(width, c, v), c.trailing);
    }
  }

  /** Any other XOR: its exact zeros and length, its significant bits, and a window to match. */
  lemma FreshCode(width: nat, c: Coder, v: u64, pos: nat) returns (l: nat, t: nat)
    requires CoderOk(width, c) && IsValue(width, v) && c.count > 0
    ensures v != c.prev && !InWindow(width, c, Xor(v, c.prev)) && !OneBitOver(width, c, Xor(v, c.prev)) ==>
      && ExactZeros(width, Xor(v, c.prev), l, t)
      && var x, n := Xor(v, c.prev), width - l - t;
         && CodeBits(width, c, v)
            == [true, true, true] + ToBits(l, 6) + ToBits(n, 6) + ToBits(Quotient(x, t), n)
         && NextCoder(width, c, v) == Coder(c.count + 1, v, l, t)
         && Cost(width, c, v) == 15 + n
         && (DataFits(width, c, v, pos) <==> (pos + 15) % 8 + n <= 64 && n <= 63)
  {
    hide ToBits, ConcatFields, Pow2, Shr, LeadingZeros, TrailingZeros, CaseOf;
    BranchIs(width, c, v);
    var x := XorWith(width, c, v);
    XorUndo(c.prev, v);
    l, t := 0, 0;
    if v != c.prev && !InWindow(width, c, x) && !OneBitOver(width, c, x) {
      l, t := LeadingZeros(x, width), TrailingZeros(x);
      ExactIs(width, x);
      ShrDivides(x, t);
      var one, data := Bit(true), DataField(width, c, v);
      var lead, len := Field(l, 6), Field(width - l - t, 6);
      SixFields(one, one, one, lead, len, data);
      OnlyFresh(width, c, v);
      assert Fields(width, c, v) == [one, one, one, lead, len, data];
      BitFieldBits(true);
      FieldBitsAre(lead);
      FieldBitsAre(len);
      FieldBitsAre(data);
    }
  }

  lemma OnlyFresh(width: nat, c: Coder, v: u64)
    requires CoderOk(width, c) && IsValue(width, v) && c.count > 0
    requires CaseOf(width, c, v) !in {Same, Reuse, Close}
    ensures CaseOf(width, c, v) == Fresh
  {
  }

  // ----- What a decoder takes the control bits for -----

  /** A zero bit repeats the value; the window stays. */
  lemma ZeroReads(build: Build, width: nat, c: Coder, s: seq<bool>, pos: nat)
    requires CoderOk(width, c) && c.count > 0 && ReadField(s, pos, 1) == Success(0)
    ensures DecodeStep(build, width, c, s, pos)
         == Success(Decoded(c.prev, c.(count := c.count + 1), pos + 1))
  {
    hide ReadField;
  }

  /** `10` reuses the window. */
  lemma TwoReads(build: Build, width: nat, c: Coder, s: seq<bool>, pos: nat, x: u64)
    requires CoderOk(width, c) && c.count > 0 && WindowSet(width, c)
    requires ReadField(s, pos, 1) == Success(1) && ReadField(s, pos + 1, 1) == Success(0)
    requires ReadField(s, pos + 2, width - c.leading - c.trailing) == Success(x)
    ensures var v, n := Xor(c.prev, Shl(x, c.trailing)), width - c.leading - c.trailing;
            DecodeStep(build, width, c, s, pos)
            == Success(Decoded(v, Coder(c.count + 1, v, c.leading, c.trailing), pos + 2 + n))
  {
    hide ReadField, Shl, Xor, PlanAt, DecodeStep;
    PlanOfReuse(build, width, c, s, pos + 1);
    var n := width - c.leading - c.trailing;
    StepFromPlan(build, width, c, s, pos, Plan(c.leading, c.trailing, n, pos + 2), x);
  }

  /** `110` and two bits: `00`, `01` and `10` change the leading count by -1, 0 and 1, `11` is refused. */
  lemma DeltaReads(build: Build, width: nat, c: Coder, s: seq<bool>, pos: nat, d: u64)
    requires CoderOk(width, c) && WindowSet(width, c)
    requires ReadField(s, pos, 1) == Success(1) && ReadField(s, pos + 1, 1) == Success(0)
    requires ReadField(s, pos + 2, 2) == Success(d)
    ensures d == 3 ==> PlanAt(build, width, c, s, pos) == Failure(InvalidDelta)
    ensures d < 3 && 0 <= c.leading + d - 1 && c.leading + d - 1 + c.trailing <= width ==>
      var leading := c.leading + d - 1;
      PlanAt(build, width, c, s, pos)
      == Success(Plan(leading, c.trailing, width - leading - c.trailing, pos + 4))
  {
    hide ReadField;
  }

  /** `111`, a leading count and a length, if they fit in the width; otherwise the byte arithmetic overflows. */
  lemma FreshReads(build: Build, width: nat, c: Coder, s: seq<bool>, pos: nat, l: u64, n: u64)
    requires CoderOk(width, c) && l < 64 && n < 64
    requires ReadField(s, pos, 1) == Success(1) && ReadField(s, pos + 1, 1) == Success(1)
    requires ReadField(s, pos + 2, 6) == Success(l) && ReadField(s, pos + 8, 6) == Success(n)
    ensures l + n <= width ==> PlanAt(build, width, c, s, pos) == Success(Plan(l, width - l - n, n, pos + 14))
    ensures l + n > width ==>
      PlanAt(build, width, c, s, pos)
      == if build.Checked? then Failure(Overflow) else Success(Plan(l, width - l - n + 256, n, pos + 14))
  {
    hide ReadField, AsU8, PlanFresh;
    AsU8Small(l);
    AsU8Small(n);
    assert PlanAt(build, width, c, s, pos) == PlanFresh(build, width, s, pos + 2);
    FreshPlanIs(build, width, s, pos + 2, l, n);
  }

  lemma FreshPlanIs(build: Build, width: nat, s: seq<bool>, pos: nat, l: u64, n: u64)
    requires l < 64 && n < 64 && width < 256 && AsU8(l) == l && AsU8(n) == n
    requires ReadField(s, pos, 6) == Success(l) && ReadField(s, pos + 6, 6) == Success(n)
    ensures l + n <= width ==> PlanFresh(build, width, s, pos) == Success(Plan(l, width - l - n, n, pos + 12))
    ensures l + n > width ==>
      PlanFresh(build, width, s, pos)
      == if build.Checked? then Failure(Overflow) else Success(Plan(l, width - l - n + 256, n, pos + 12))
  {
    hide ReadField, AsU8;
  }

  /** The field is shifted into place, or the shift is too far; beyond 63 places a wrapping one starts over. */
  lemma ShiftArithmetic(build: Build, x: u64, t: nat)
    ensures ShlBy(build, x, t).Failure? <==> build.Checked? && t >= 64
    ensures ShlBy(build, x, t).Success? ==>
      ShlBy(build, x, t).value == x * Pow2(t % 64) % 0x1_0000_0000_0000_0000
  {
    hide Shl, Pow2;
    ShlIsProduct(x, t % 64);
  }

  /** Arithmetic on bytes stops or wraps around. */
  lemma ByteArithmetic(build: Build, x: nat, y: nat, delta: int)
    requires x < 256 && y < 256 && -1 <= delta <= 1
    ensures Sub8(build, x, y).Success? <==> y <= x || build == Wrapping
    ensures Sub8(build, x, y).Success? ==> (Sub8(build, x, y).value - (x - y)) % 256 == 0
    ensures AddDelta(build, x, delta).Success? ==> (AddDelta(build, x, delta).value - (x + delta)) % 256 == 0
    ensures AddDelta(build, x, delta).Failure? <==>
      build == Checked && ((x == 127 && delta == 1) || (x == 128 && delta == -1))
  {
  }
}
