/**
  What becomes of a double whose code does not fit.

  When a data field does not fit behind the pending bits of its byte, the writer ORs its
  top bits into bits that are already there and drops the rest of the room it needs.  The
  lemmas below show that the stream that ends with this value does not decode to the values
  that were encoded, and neither does any longer stream if the value has a fresh window or
  if no one bit of its field went into the overlap.
 */
module ChimpLoss {
  import opened Bits
  import opened BitStream
  import opened Wrappers
  import opened Types
  import opened Chimp
  import opened ChimpRoundTrip

  // ----- What an oversized field does to the stream -----

  /**
    `a` is `p` followed by the field `v`, except that the field starts `d` bits too
    early, OR-ed into the end of `p`.
   */
  ghost predicate Garbled(p: seq<bool>, v: seq<bool>, d: nat, a: seq<bool>)
  {
    && d <= |p| && d <= |v| && |a| == |p| - d + |v|
    && forall k :: 0 <= k < |a| ==>
         a[k] == ((k < |p| && p[k]) || (k >= |p| - d && v[k - (|p| - d)]))
  }

  lemma OverflowGarbles(p: seq<bool>, f: Field)
    requires f.value < Pow2(f.len) && f.len <= 64 && |p| % 8 + f.len > 64
    ensures Garbled(p, FieldBits(f), |p| % 8 + f.len - 64, Put(p, f))
    ensures |Put(p, f)| % 8 == 0
  {
    hide ToBits, Zeros, BitOr, Pow2;
    var b := |p| % 8;
    var pend := p[|p| - b..];
    SmallBits(f.value, 64 - f.len, f.len);
    assert Shl(f.value, 0) == f.value;
    var word := BitOr(pend + Zeros(64 - b), Zeros(64 - f.len) + FieldBits(f));
    assert OrInto(pend, f) == word;
    assert Put(p, f) == p[..|p| - b] + word;
    WordGarbles(p[..|p| - b], pend, FieldBits(f));
    assert p == p[..|p| - b] + pend;
  }

  lemma WordGarbles(base: seq<bool>, pend: seq<bool>, field: seq<bool>)
    requires |pend| < 8 && |field| <= 64 < |pend| + |field|
    ensures Garbled(base + pend, field, |pend| + |field| - 64,
                    base + BitOr(pend + Zeros(64 - |pend|), Zeros(64 - |field|) + field))
  {
  }

  /** Writing never clears a bit, and leaves the bits of finished bytes alone. */
  lemma PutKeeps(s: seq<bool>, f: Field)
    requires f.len <= 64
    ensures forall k :: 0 <= k < |s| - |s| % 8 ==> Put(s, f)[k] == s[k]
    ensures |s| <= |Put(s, f)| && forall k :: 0 <= k < |s| && s[k] ==> Put(s, f)[k]
  {
    var b := |s| % 8;
    if f.len > 0 {
      var word := OrInto(s[|s| - b..], f);
      assert forall i :: 0 <= i < b && s[|s| - b + i] ==> word[i];
      assert forall k :: |s| - b <= k < |s| && s[k] ==> word[k - (|s| - b)];
    }
  }

  // ----- A misplaced read cannot give the right XOR -----

  lemma {:induction false} Climb(v: seq<bool>, f: nat, e: nat)
    requires f < |v| && v[f] && e > 0
    requires forall y :: 0 <= y < |v| && v[y] ==> y + e < |v| && v[y + e]
    ensures false
    decreases |v| - f
  {
    Climb(v, f + e, e);
  }

  /** The bits of a number read from `s` and shifted left by `t`. */
  lemma ReadShiftBits(s: seq<bool>, r: nat, k: nat, t: nat)
    requires Readable(s, r, k) && t < 64
    ensures k <= 64
    ensures var bits := ToBits(Shl(ReadAt(s, r, k), t), 64);
            forall p :: 0 <= p < 64 ==> bits[p] == (64 - k <= p + t < 64 && s[r + p + t - (64 - k)])
  {
    var x := ReadAt(s, r, k);
    ShlBits(x, t);
    if k == 0 {
      ZeroBits(64);
      assert forall q :: 0 <= q < 64 ==> !ToBits(x, 64)[q];
    } else {
      var field := s[r..r + k];
      ToFromBits(field);
      SmallBits(x, 64 - k, k);
      assert ToBits(x, 64) == Zeros(64 - k) + field;
      assert forall q :: 0 <= q < 64 ==> ToBits(x, 64)[q] == (64 - k <= q && s[r + q - (64 - k)]);
    }
  }

  /** The significant bits `v` of an XOR, between `lead` and `trail` zeros. */
  ghost predicate XorShape(xor: u64, lead: nat, v: seq<bool>, trail: nat)
  {
    lead + |v| + trail == 64 && ToBits(xor, 64) == Zeros(lead) + v + Zeros(trail)
  }

  /**
    If some bit of the field went into the overlap, reading any number of bits from
    behind the overlap and shifting them does not give the XOR.
   */
  lemma TailIsLost(p: seq<bool>, v: seq<bool>, d: nat, a: seq<bool>, f: nat, xor: u64, lead: nat, trail: nat,
                   r: nat, k: nat, t: nat)
    requires Garbled(p, v, d, a) && f < d && v[f] && XorShape(xor, lead, v, trail)
    requires |p| <= r && Readable(a, r, k) && t < 64
    ensures Shl(ReadAt(a, r, k), t) != xor
  {
    if Shl(ReadAt(a, r, k), t) == xor {
      var e := r + lead + t - (64 - k) - (|p| - d);
      forall y | 0 <= y < |v| && v[y]
        ensures d <= y + e < |v| && v[y + e]
      {
        BitMovesOn(p, v, d, a, xor, lead, trail, r, k, t, y);
      }
      Climb(v, f, e);
    }
  }

  /** Each one bit of the XOR would have to be read from a later one bit of the field. */
  lemma BitMovesOn(p: seq<bool>, v: seq<bool>, d: nat, a: seq<bool>, xor: u64, lead: nat, trail: nat,
                   r: nat, k: nat, t: nat, y: nat)
    requires Garbled(p, v, d, a) && XorShape(xor, lead, v, trail)
    requires |p| <= r && Readable(a, r, k) && t < 64
    requires Shl(ReadAt(a, r, k), t) == xor && y < |v| && v[y]
    ensures var e := r + lead + t - (64 - k) - (|p| - d);
            d <= y + e < |v| && v[y + e]
  {
    ReadShiftBits(a, r, k, t);
    assert ToBits(xor, 64)[lead + y] == v[y];
    var z := r + (lead + y) + t - (64 - k);
    assert a[z];
    assert z - (|p| - d) == y + (r + lead + t - (64 - k) - (|p| - d));
  }

  /** The XOR of `v` is its data field between the zeros of the window. */
  lemma DataShape(c: Coder, v: u64)
    requires CoderOk(64, c) && IsValue(64, v) && CaseOf(64, c, v) in {Reuse, Close, Fresh}
    ensures var data, t := DataField(64, c, v), NextCoder(64, c, v).trailing;
            data.len + t <= 64
            && XorShape(XorWith(64, c, v), 64 - data.len - t, FieldBits(data), t)
  {
    hide ToBits, Shl, Zeros;
    var xor, data := XorWith(64, c, v), DataField(64, c, v);
    var t := NextCoder(64, c, v).trailing;
    DataIsShifted(c, v);
    DataIsSmall(64, c, v);
    ShlBits(data.value, t);
    SmallBits(data.value, 64 - data.len, data.len);
    ZerosDrop(64 - data.len, t, FieldBits(data));
  }

  lemma ZerosDrop(n: nat, t: nat, bits: seq<bool>)
    requires t <= n
    ensures (Zeros(n) + bits)[t..] == Zeros(n - t) + bits
  {
  }

  lemma DataIsShifted(c: Coder, v: u64)
    requires CoderOk(64, c) && IsValue(64, v) && CaseOf(64, c, v) in {Reuse, Close, Fresh}
    ensures var data, t := DataField(64, c, v), NextCoder(64, c, v).trailing;
            data.len + t <= 64 && Shl(data.value, t) == XorWith(64, c, v)
  {
    hide Shr, Shl, LeadingZeros, TrailingZeros, Xor;
    WindowHoldsAll(XorWith(64, c, v), 64, 0, NextCoder(64, c, v).trailing);
  }

  lemma TopBit(x: nat, n: nat)
    requires n > 0 && Pow2(n - 1) <= x < Pow2(n)
    ensures ToBits(x, n)[0]
  {
    if n > 1 {
      TopBit(x / 2, n - 1);
    } else {
      SmallPowers();
    }
  }

  /** A field with exact counts starts with a one. */
  lemma ExactFieldTop(c: Coder, v: u64)
    requires CoderOk(64, c) && IsValue(64, v) && CaseOf(64, c, v) in {Close, Fresh}
    ensures DataField(64, c, v).len > 0 && FieldBits(DataField(64, c, v))[0]
  {
    hide Shr, Shl, Xor, LeadingZeros, TrailingZeros, ToBits;
    var xor, data := XorWith(64, c, v), DataField(64, c, v);
    ExactWindow(xor, 64);
    TopBit(data.value, data.len);
  }

  /** The data field of `v` does not fit behind the pending bits of its byte. */
  predicate Overflows(c: Coder, v: u64, pos: nat)
    requires CoderOk(64, c) && IsValue(64, v)
  {
    && CaseOf(64, c, v) in {Reuse, Close, Fresh}
    && (pos + ControlLength(CaseOf(64, c, v))) % 8 + DataField(64, c, v).len > 64
  }

  // ----- Decoding steps -----

  ghost predicate StepRecovers(build: Build, c: Coder, s: seq<bool>, pos: nat, v: u64)
    requires c.leading < 256 && c.trailing < 256
  {
    var r := DecodeStep(build, 64, c, s, pos);
    r.Success? && r.value.value == v
  }

  lemma ReadBit(s: seq<bool>, pos: nat)
    ensures ReadField(s, pos, 1) == if pos < |s| then Success(if s[pos] then 1 else 0) else Failure(EndOfData)
  {
    if pos < |s| {
      var field := s[pos..pos + 1];
      assert field == [s[pos]] && field[..0] == [];
      assert FromBits([]) == 0;
    }
  }

  /** Where the data field is read, by the control bits that come before it. */
  lemma PlanPosition(build: Build, c: Coder, s: seq<bool>, pos: nat)
    requires c.leading < 256 && c.trailing < 256
    ensures var r := PlanAt(build, 64, c, s, pos);
            r.Success? ==>
              && pos < |s|
              && (!s[pos] ==> PlanReuse(build, 64, c, pos + 1) == r && r.value.pos == pos + 1)
              && (s[pos] ==> pos + 1 < |s|)
              && (s[pos] && !s[pos + 1] ==> PlanClose(build, 64, c, s, pos + 2) == r && r.value.pos == pos + 4)
              && (s[pos] && s[pos + 1] ==> PlanFresh(build, 64, s, pos + 2) == r && r.value.pos == pos + 14)
  {
    hide ReadField;
    ReadBit(s, pos);
    ReadBit(s, pos + 1);
  }

  lemma StepShape(build: Build, c: Coder, s: seq<bool>, pos: nat)
    requires c.leading < 256 && c.trailing < 256 && c.count > 0
    ensures var r := DecodeStep(build, 64, c, s, pos);
            r.Success? ==>
              && pos < |s|
              && r.value.coder.count > 0 && r.value.coder.prev == r.value.value
              && r.value.pos > pos
              && (!s[pos] ==> r.value.value == c.prev)
              && (s[pos] ==>
                    var plan := PlanAt(build, 64, c, s, pos + 1);
                    && plan.Success? && Readable(s, plan.value.pos, plan.value.len)
                    && r.value.pos == plan.value.pos + plan.value.len
                    && r.value.value
                       == Xor(c.prev, Shl(ReadAt(s, plan.value.pos, plan.value.len), plan.value.trailing % 64)))
  {
    hide PlanAt, DecodeData, Readable, ReadAt, ReadField;
    ReadBit(s, pos);
    var plan := PlanAt(build, 64, c, s, pos + 1);
    if pos < |s| && s[pos] && plan.Success? {
      PlanPosition(build, c, s, pos + 1);
      DataStep(build, c, s, plan.value);
    }
  }

  lemma DataStep(build: Build, c: Coder, s: seq<bool>, plan: Plan)
    ensures var r := DecodeData(build, c, s, plan);
            r.Success? ==>
              && Readable(s, plan.pos, plan.len)
              && r.value.coder.count == c.count + 1 && r.value.coder.prev == r.value.value
              && r.value.pos == plan.pos + plan.len
              && r.value.value == Xor(c.prev, Shl(ReadAt(s, plan.pos, plan.len), plan.trailing % 64))
  {
  }

  /** The state after `n` reads. */
  lemma DecodeCount(build: Build, s: seq<bool>, n: nat)
    requires Decode(build, 64, s, n).Success?
    ensures var run := Decode(build, 64, s, n).value;
            (n > 0 ==> run.coder.count > 0 && run.coder.prev == run.values[n - 1])
            && (n == 0 ==> run.coder == START)
  {
    if n > 0 {
      DecodeSnoc(build, 64, START, s, 0, n - 1);
      var before := Decode(build, 64, s, n - 1).value;
      if before.coder.count > 0 {
        StepShape(build, before.coder, s, before.pos);
      }
    }
  }

  /** A value whose data field is read from behind the overlap comes out wrong. */
  lemma StepMisses(build: Build, c: Coder, s: seq<bool>, pos: nat, v: u64,
                   p: seq<bool>, field: seq<bool>, d: nat, f: nat, lead: nat, trail: nat)
    requires c.leading < 256 && c.trailing < 256 && c.count > 0
    requires Xor(v, c.prev) != 0 && XorShape(Xor(v, c.prev), lead, field, trail)
    requires Garbled(p, field, d, s) && f < d && field[f]
    requires pos < |s| && s[pos] ==>
               PlanAt(build, 64, c, s, pos + 1).Success? ==> PlanAt(build, 64, c, s, pos + 1).value.pos >= |p|
    ensures !StepRecovers(build, c, s, pos, v)
  {
    hide DecodeStep, PlanAt, Readable, ReadAt;
    StepShape(build, c, s, pos);
    var r := DecodeStep(build, 64, c, s, pos);
    if r.Success? {
      if !s[pos] {
        XorUndo(c.prev, v);
      } else {
        var plan := PlanAt(build, 64, c, s, pos + 1).value;
        var x := ReadAt(s, plan.pos, plan.len);
        var t := plan.trailing % 64;
        TailIsLost(p, field, d, s, f, Xor(v, c.prev), lead, trail, plan.pos, plan.len, t);
        XorCancel(c.prev, Shl(x, t));
        assert Xor(Xor(c.prev, Shl(x, t)), c.prev) == Shl(x, t);
      }
    }
  }

  // ----- The control bits of the oversized value -----

  /** The first control bits, as `ConcatFields` lays them out. */
  lemma LeadingBits(fs: seq<Field>, bits: seq<bool>)
    requires |bits| <= |fs| && forall i :: 0 <= i < |bits| ==> fs[i] == Bit(bits[i])
    ensures bits <= ConcatFields(fs)
    decreases |bits|
  {
    if |bits| > 0 {
      LeadingBits(fs[1..], bits[1..]);
      BitFieldBits(bits[0]);
      assert ConcatFields(fs) == [bits[0]] + ConcatFields(fs[1..]);
      assert bits == [bits[0]] + bits[1..];
    }
  }

  function Marker(branch: Case): seq<bool>
  {
    match branch
    case First => []
    case Same => [false]
    case Reuse => [true, false]
    case Close => [true, true]
    case Fresh => [true, true, true]
  }

  /** The control fields leave the stream and their own first bits intact. */
  lemma HeadStream(c: Coder, v: u64, s: seq<bool>)
    requires CoderOk(64, c) && IsValue(64, v) && CaseOf(64, c, v) in {Reuse, Close, Fresh}
    ensures var p, branch := PutAll(s, HeadFields(64, c, v)), CaseOf(64, c, v);
            && |p| == |s| + ControlLength(branch)
            && s + Marker(branch) <= p
  {
    hide Put, ToBits, Shr, Shl, Xor, LeadingZeros, TrailingZeros, ConcatFields;
    var head, branch := HeadFields(64, c, v), CaseOf(64, c, v);
    if branch == Fresh && DataField(64, c, v).len == 64 {
      FullHeadStream(s, head[..4], head[4]);
      assert head == head[..4] + [head[4]];
    } else {
      HeadFits(64, c, v, |s|);
      PutAllAppends(s, head);
      LeadingBits(head, Marker(branch));
      PrefixAfter(s, Marker(branch), ConcatFields(head));
    }
  }

  lemma PrefixAfter(s: seq<bool>, t: seq<bool>, u: seq<bool>)
    requires t <= u
    ensures s + t <= s + u
  {
    assert u == t + u[|t|..];
    assert s + u == (s + t) + u[|t|..];
  }

  lemma FullHeadStream(s: seq<bool>, fs: seq<Field>, len: Field)
    requires |fs| == 4 && fs[..3] == [Bit(true), Bit(true), Bit(true)]
    requires fs[3] == Field(0, 6) && len == Field(64, 6)
    ensures AreFields(fs + [len])
    ensures var p := PutAll(s, fs + [len]);
            |p| == |s| + 15 && s + [true, true, true] <= p
  {
    SmallPowers();
    assert forall i :: 0 <= i < 3 ==> fs[i] == fs[..3][i];
    SmallFieldsFit(|s|, fs);
    assert TotalLength(fs) == 9 by {
      assert TotalLength(fs) == 1 + TotalLength(fs[1..]) && TotalLength(fs[1..]) == 1 + TotalLength(fs[2..]);
      assert TotalLength(fs[2..]) == 1 + TotalLength(fs[3..]) && TotalLength(fs[3..]) == 6 + TotalLength(fs[4..]);
    }
    PutAllAppends(s, fs);
    LeadingBits(fs, [true, true, true]);
    PutAllSnoc(s, fs, len);
    var q := PutAll(s, fs);
    PutKeeps(q, len);
    assert forall k :: 0 <= k < |s| + 3 ==> q[k] == (s + [true, true, true])[k];
  }

  // ----- The overlap stays within the value's own bits -----

  /** What `v` adds to the stream when its data field does not fit behind the head. */
  lemma OverflowStream(c: Coder, v: u64, s: seq<bool>)
    requires CoderOk(64, c) && IsValue(64, v)
    requires Overflows(c, v, |s|)
    ensures var p, data := PutAll(s, HeadFields(64, c, v)), DataField(64, c, v);
            var d := |p| % 8 + data.len - 64;
            && |p| == |s| + ControlLength(CaseOf(64, c, v))
            && s + Marker(CaseOf(64, c, v)) <= p
            && 0 < d < 8 && data.len >= 58
            && Garbled(p, FieldBits(data), d, EncodeStep(64, c, v, s))
            && |EncodeStep(64, c, v, s)| % 8 == 0
  {
    HeadStream(c, v, s);
    DataIsSmall(64, c, v);
    PutAllSnoc(s, HeadFields(64, c, v), DataField(64, c, v));
    OverflowGarbles(PutAll(s, HeadFields(64, c, v)), DataField(64, c, v));
  }

  /** Which of the value's own control bits survive. */
  lemma MarkerSurvives(c: Coder, v: u64, s: seq<bool>)
    requires CoderOk(64, c) && IsValue(64, v)
    requires Overflows(c, v, |s|)
    ensures var a := EncodeStep(64, c, v, s);
            |s| + 15 <= |a| && forall i :: 0 <= i < |Marker(CaseOf(64, c, v))| ==>
              Marker(CaseOf(64, c, v))[i] ==> a[|s| + i]
  {
    hide EncodeStep, CaseOf, DataField, HeadFields;
    OverflowStream(c, v, s);
    var p, marker := PutAll(s, HeadFields(64, c, v)), Marker(CaseOf(64, c, v));
    forall i | 0 <= i < |marker| && marker[i]
      ensures EncodeStep(64, c, v, s)[|s| + i]
    {
      assert (s + marker)[|s| + i] == marker[i] == p[|s| + i];
    }
  }

  /** With those bits ahead, the data field is read no earlier than where it was written. */
  lemma PlanBehindHead(build: Build, c: Coder, a: seq<bool>, pos: nat, branch: Case)
    requires c.leading < 256 && c.trailing < 256 && branch in {Reuse, Close, Fresh}
    requires pos + 15 <= |a|
    requires forall i :: 0 <= i < |Marker(branch)| ==> Marker(branch)[i] ==> a[pos + i]
    ensures a[pos]
    ensures var r := PlanAt(build, 64, c, a, pos + 1);
            r.Success? ==> r.value.pos >= pos + ControlLength(branch)
  {
    hide PlanAt;
    PlanPosition(build, c, a, pos + 1);
    assert Marker(branch)[0];
    if branch != Reuse {
      assert Marker(branch)[1];
    }
    if branch == Fresh {
      assert Marker(branch)[2];
    }
  }

  lemma XorNonZero(c: Coder, v: u64)
    requires CoderOk(64, c) && IsValue(64, v) && CaseOf(64, c, v) in {Reuse, Close, Fresh}
    ensures c.count > 0 && XorWith(64, c, v) == Xor(v, c.prev) != 0
  {
  }

  /** If a one bit of the field lies in the overlap, the value is not recovered. */
  lemma LostWithOverlap(build: Build, c: Coder, v: u64, s: seq<bool>, f: nat)
    requires CoderOk(64, c) && IsValue(64, v)
    requires Overflows(c, v, |s|)
    requires f < (|s| + ControlLength(CaseOf(64, c, v))) % 8 + DataField(64, c, v).len - 64
    requires FieldBits(DataField(64, c, v))[f]
    ensures !StepRecovers(build, c, EncodeStep(64, c, v, s), |s|, v)
  {
    hide DecodeStep, PlanAt, Readable, EncodeStep, DataField, HeadFields, NextCoder, Garbled, XorShape;
    hide CaseOf, PutAll, StepRecovers, FieldBits;
    var data, t := DataField(64, c, v), NextCoder(64, c, v).trailing;
    var p, a := PutAll(s, HeadFields(64, c, v)), EncodeStep(64, c, v, s);
    OverflowStream(c, v, s);
    MarkerSurvives(c, v, s);
    PlanBehindHead(build, c, a, |s|, CaseOf(64, c, v));
    DataShape(c, v);
    XorNonZero(c, v);
    StepMisses(build, c, a, |s|, v, p, FieldBits(data), |p| % 8 + data.len - 64, f, 64 - data.len - t, t);
  }

  /** The top bits of the field, which would go into the overlap, are zero. */
  predicate OverlapClear(c: Coder, v: u64, pos: nat)
    requires CoderOk(64, c) && IsValue(64, v)
  {
    forall f :: 0 <= f < (pos + ControlLength(CaseOf(64, c, v))) % 8 + DataField(64, c, v).len - 64 ==>
      f < DataField(64, c, v).len && !FieldBits(DataField(64, c, v))[f]
  }

  /**
    Otherwise its control bits are intact, and its data field is too wide to be read, in this
    and in every longer stream.
   */
  lemma LostWithoutOverlap(build: Build, c: Coder, v: u64, s: seq<bool>, r: seq<bool>)
    requires CoderOk(64, c) && IsValue(64, v)
    requires Overflows(c, v, |s|) && OverlapClear(c, v, |s|) && EncodeStep(64, c, v, s) <= r
    ensures s <= r && !StepRecovers(build, c, r, |s|, v)
  {
    hide DecodeStep, PlanAt, Readable, EncodeStep, DataField, HeadFields, NextCoder, FieldBits, PutAll;
    var a := EncodeStep(64, c, v, s);
    OverflowStream(c, v, s);
    MarkerSurvives(c, v, s);
    if CaseOf(64, c, v) in {Close, Fresh} {
      ExactFieldTop(c, v);
    }
    var p := PutAll(s, HeadFields(64, c, v));
    assert s + Marker(Reuse) <= p && p == a[..|p|];
    assert !r[|s| + 1] by {
      assert p[|s| + 1] == (s + Marker(Reuse))[|s| + 1];
    }
    PlanPosition(build, c, r, |s| + 1);
    StepShape(build, c, r, |s|);
    ReuseTooWide(build, c, v, r, |s|);
  }

  /**
    Decoded in the encoder's state and position from the stream that ends with it, the value
    is not recovered.
   */
  lemma LostInPlace(build: Build, c: Coder, v: u64, s: seq<bool>)
    requires CoderOk(64, c) && IsValue(64, v)
    requires Overflows(c, v, |s|)
    ensures !StepRecovers(build, c, EncodeStep(64, c, v, s), |s|, v)
  {
    hide DecodeStep, EncodeStep, CaseOf, DataField;
    var d := (|s| + ControlLength(CaseOf(64, c, v))) % 8 + DataField(64, c, v).len - 64;
    if f :| 0 <= f < d && FieldBits(DataField(64, c, v))[f] {
      LostWithOverlap(build, c, v, s, f);
    } else {
      LostWithoutOverlap(build, c, v, s, EncodeStep(64, c, v, s));
    }
  }

  lemma ReuseTooWide(build: Build, c: Coder, v: u64, a: seq<bool>, pos: nat)
    requires CoderOk(64, c) && IsValue(64, v) && CaseOf(64, c, v) == Reuse
    requires (pos + 2) % 8 + DataField(64, c, v).len > 64
    ensures PlanReuse(build, 64, c, pos + 2).Success?
    ensures var plan := PlanReuse(build, 64, c, pos + 2).value;
            !Readable(a, plan.pos, plan.len)
  {
    hide Shr, Shl, Xor, LeadingZeros, TrailingZeros;
    WindowHoldsAll(XorWith(64, c, v), 64, c.leading, c.trailing);
  }

  // ----- Fresh windows -----

  /** A field of at most 63 bits cannot hold both the first and the last bit of a word. */
  lemma EndsMissed(x: u64, len: nat, t: nat, xor: u64)
    requires len <= 63 && x < Pow2(len)
    requires xor >= 0x8000_0000_0000_0000 && xor % 2 == 1
    ensures Shl(x, t) != xor
  {
    Pow2Monotone(len, 63);
    Pow2Of64();
  }

  lemma FullXor(c: Coder, v: u64)
    requires CoderOk(64, c) && IsValue(64, v) && CaseOf(64, c, v) == Fresh
    requires DataField(64, c, v).len == 64
    ensures XorWith(64, c, v) >= 0x8000_0000_0000_0000 && XorWith(64, c, v) % 2 == 1
  {
    var xor := XorWith(64, c, v);
    BitLengthSpec(xor);
    Pow2Of64();
  }

  lemma FreshLength(build: Build, s: seq<bool>, pos: nat)
    ensures var r := PlanFresh(build, 64, s, pos);
            r.Success? ==> r.value.len <= 63 && ReadField(s, pos + 6, 6) == Success(r.value.len)
  {
    SmallPowers();
    if PlanFresh(build, 64, s, pos).Success? {
      ReadBound(s, pos + 6, 6);
      AsU8Small(ReadField(s, pos + 6, 6).value);
    }
  }

  lemma ReadBound(s: seq<bool>, pos: nat, len: nat)
    requires Readable(s, pos, len)
    ensures ReadAt(s, pos, len) < Pow2(len)
  {
    if len > 0 {
      ToFromBits(s[pos..pos + len]);
    }
  }

  /** A full window is lost in every stream in which the first control bits survive. */
  lemma FullLost(build: Build, c: Coder, v: u64, r: seq<bool>, pos: nat)
    requires CoderOk(64, c) && IsValue(64, v) && CaseOf(64, c, v) == Fresh
    requires DataField(64, c, v).len == 64
    requires pos + 2 < |r| && r[pos] && r[pos + 1] && r[pos + 2]
    ensures !StepRecovers(build, c, r, pos, v)
  {
    hide DecodeStep, PlanAt, PlanFresh, Readable, ReadAt, DataField;
    FullXor(c, v);
    XorNonZero(c, v);
    PlanPosition(build, c, r, pos + 1);
    StepShape(build, c, r, pos);
    var step := DecodeStep(build, 64, c, r, pos);
    if step.Success? {
      var plan := PlanAt(build, 64, c, r, pos + 1).value;
      FreshLength(build, r, pos + 3);
      ReadBound(r, plan.pos, plan.len);
      var shifted := Shl(ReadAt(r, plan.pos, plan.len), plan.trailing % 64);
      EndsMissed(ReadAt(r, plan.pos, plan.len), plan.len, plan.trailing % 64, XorWith(64, c, v));
      XorCancel(c.prev, shifted);
      assert Xor(Xor(c.prev, shifted), c.prev) == shifted;
    }
  }

  lemma {:induction false} MoreOnes(s: seq<bool>, t: seq<bool>)
    requires |s| == |t| && forall i :: 0 <= i < |s| && s[i] ==> t[i]
    ensures FromBits(s) <= FromBits(t)
  {
    if |s| > 0 {
      MoreOnes(s[..|s| - 1], t[..|t| - 1]);
    }
  }

  /** The control bits of a fresh window, where the head fits. */
  lemma FreshHead(c: Coder, v: u64, s: seq<bool>)
    requires CoderOk(64, c) && IsValue(64, v) && CaseOf(64, c, v) == Fresh
    requires DataField(64, c, v).len <= 63
    ensures var p := PutAll(s, HeadFields(64, c, v));
            && |p| == |s| + 15 && s <= p
            && p[|s| + 9..|s| + 15] == ToBits(DataField(64, c, v).len, 6)
  {
    hide Put, ToBits, Shr, Shl, Xor, LeadingZeros, TrailingZeros;
    var head := HeadFields(64, c, v);
    HeadFits(64, c, v, |s|);
    PutAllAppends(s, head);
    var len := Field(DataField(64, c, v).len, 6);
    assert head == head[..4] + [len];
    ConcatFieldsSnoc(head[..4], len);
  }

  /**
    The overlap can only raise the length of a fresh window, so its data field stays too wide
    to be read, whatever follows.
   */
  lemma FreshTooWide(build: Build, c: Coder, v: u64, s: seq<bool>, r: seq<bool>)
    requires CoderOk(64, c) && IsValue(64, v) && CaseOf(64, c, v) == Fresh
    requires DataField(64, c, v).len <= 63 && Overflows(c, v, |s|) && EncodeStep(64, c, v, s) <= r
    ensures !StepRecovers(build, c, r, |s|, v)
  {
    hide DecodeStep, PlanAt, PlanFresh, EncodeStep, DataField, HeadFields, PutAll, CaseOf, ToBits, FromBits;
    hide FieldBits;
    var len, p := DataField(64, c, v).len, PutAll(s, HeadFields(64, c, v));
    OverflowStream(c, v, s);
    MarkerSurvives(c, v, s);
    FreshHead(c, v, s);
    SmallPowers();
    FieldRoundTrip(len, 6);
    MoreOnes(p[|s| + 9..|s| + 15], r[|s| + 9..|s| + 15]);
    assert Marker(Fresh)[0] && Marker(Fresh)[1] && Marker(Fresh)[2];
    XorNonZero(c, v);
    PlanPosition(build, c, r, |s| + 1);
    StepShape(build, c, r, |s|);
    if DecodeStep(build, 64, c, r, |s|).Success? {
      FreshLength(build, r, |s| + 3);
    }
  }

  /** What a misfit with a fresh window leaves: whole bytes, and its first control bits. */
  lemma FreshStream(c: Coder, v: u64, s: seq<bool>)
    requires CoderOk(64, c) && IsValue(64, v) && CaseOf(64, c, v) == Fresh
    requires !DataFits(64, c, v, |s|)
    ensures var a := EncodeStep(64, c, v, s); s + Marker(Fresh) <= a && |a| % 8 == 0
  {
    hide CaseOf, DataField, HeadFields, FieldBits, Put, PutAll;
    var p, a := PutAll(s, HeadFields(64, c, v)), EncodeStep(64, c, v, s);
    HeadStream(c, v, s);
    if Overflows(c, v, |s|) {
      OverflowStream(c, v, s);
      assert forall k :: 0 <= k < |s| + 3 ==> a[k] == p[k];
    } else {
      DataIsSmall(64, c, v);
      PutAllSnoc(s, HeadFields(64, c, v), DataField(64, c, v));
      PutAppends(p, DataField(64, c, v));
    }
  }

  /** A fresh window that does not fit is not recovered from any stream that goes on from it. */
  lemma FreshLost(build: Build, c: Coder, v: u64, s: seq<bool>, r: seq<bool>)
    requires CoderOk(64, c) && IsValue(64, v) && CaseOf(64, c, v) == Fresh
    requires !DataFits(64, c, v, |s|) && EncodeStep(64, c, v, s) <= r
    ensures s <= r && !StepRecovers(build, c, r, |s|, v)
  {
    hide DecodeStep, EncodeStep, DataField, CaseOf, StepRecovers;
    FreshStream(c, v, s);
    var start := s + Marker(Fresh);
    assert start[|s|] && start[|s| + 1] && start[|s| + 2];
    if DataField(64, c, v).len == 64 {
      FullLost(build, c, v, r, |s|);
    } else {
      FreshTooWide(build, c, v, s, r);
    }
  }
}
