/**
  Decoding undoes encoding: a decoder that reads an encoder's stream stays in lockstep
  with it as long as every data field fits in the 64-bit accumulator.
 */
module ChimpRoundTrip {
  import opened Bits
  import opened BitStream
  import opened Wrappers
  import opened Types
  import opened Chimp

  // ----- The code of one value -----

  function ControlLength(branch: Case): nat
  {
    match branch
    case First => 0
    case Same => 1
    case Reuse => 2
    case Close => 5
    case Fresh => 15
  }

  /** The bits of `v` when every field fits. */
  function CodeBits(width: nat, c: Coder, v: u64): (s: seq<bool>)
    requires CoderOk(width, c) && IsValue(width, v)
  {
    ConcatFields(Fields(width, c, v))
  }

  /** The number of bits that `v` takes. */
  function Cost(width: nat, c: Coder, v: u64): nat
    requires CoderOk(width, c) && IsValue(width, v)
  {
    ControlLength(CaseOf(width, c, v)) + DataField(width, c, v).len
  }

  /**
    The guard: behind the pending bits of its byte the data field must fit in 64 bits,
    and the length of a fresh window must fit in its 6-bit field.
   */
  predicate DataFits(width: nat, c: Coder, v: u64, pos: nat)
    requires CoderOk(width, c) && IsValue(width, v)
  {
    && (pos + ControlLength(CaseOf(width, c, v))) % 8 + DataField(width, c, v).len <= 64
    && (CaseOf(width, c, v) == Fresh ==> DataField(width, c, v).len <= 63)
  }

  predicate FitsFrom(width: nat, c: Coder, pos: nat, vs: seq<u64>)
    requires CoderOk(width, c) && AreValues(width, vs)
    decreases |vs|
  {
    |vs| == 0 ||
    (DataFits(width, c, vs[0], pos) &&
     FitsFrom(width, NextCoder(width, c, vs[0]), pos + Cost(width, c, vs[0]), vs[1..]))
  }

  /** Every data field of the sequence fits where the encoder would put it. */
  predicate Fits(width: nat, vs: seq<u64>)
    requires IsWidth(width) && AreValues(width, vs)
  {
    FitsFrom(width, START, 0, vs)
  }

  /**
    Because the reuse of the window is tried first, the "plus or minus one" branch is
    only taken with the same trailing count and exactly one leading zero fewer.
   */
  lemma CloseMeansOneLess(width: nat, c: Coder, v: u64)
    requires CoderOk(width, c) && IsValue(width, v) && CaseOf(width, c, v) == Close
    ensures var xor := XorWith(width, c, v);
            && c.leading <= width && c.leading == LeadingZeros(xor, width) + 1
            && c.trailing == TrailingZeros(xor)
            && HeadFields(width, c, v) == [Bit(true), Bit(true), Bit(false), Field(0, 2)]
            && DataField(width, c, v).len == WindowLength(width, c) + 1
  {
  }

  lemma SmallPowers()
    ensures Pow2(0) == 1 && Pow2(1) == 2 && Pow2(2) == 4 && Pow2(6) == 64 && Pow2(8) == 256
  {
    assert Pow2(3) == 8;
    assert Pow2(5) == 32;
    Pow2Byte(0);
  }

  /** The control fields always fit, except the length of a full 64-bit window. */
  lemma HeadFits(width: nat, c: Coder, v: u64, pos: nat)
    requires CoderOk(width, c) && IsValue(width, v)
    requires CaseOf(width, c, v) == Fresh ==> DataField(width, c, v).len <= 63
    ensures AllFit(pos, HeadFields(width, c, v))
    ensures TotalLength(HeadFields(width, c, v)) == ControlLength(CaseOf(width, c, v))
  {
    SmallPowers();
    var fs := HeadFields(width, c, v);
    if CaseOf(width, c, v) == Fresh {
      var xor := XorWith(width, c, v);
      WindowHoldsAll(xor, width, LeadingZeros(xor, width), TrailingZeros(xor));
    }
    SmallFieldsFit(pos, fs);
    HeadLength(width, c, v);
  }

  lemma HeadLength(width: nat, c: Coder, v: u64)
    requires CoderOk(width, c) && IsValue(width, v)
    ensures TotalLength(HeadFields(width, c, v)) == ControlLength(CaseOf(width, c, v))
  {
    var fs := HeadFields(width, c, v);
    if |fs| > 0 {
      assert TotalLength(fs) == 1 + TotalLength(fs[1..]);
    }
    if |fs| > 1 {
      assert TotalLength(fs[1..]) == 1 + TotalLength(fs[2..]);
    }
    if |fs| > 2 {
      assert TotalLength(fs[2..]) == 1 + TotalLength(fs[3..]);
      assert TotalLength(fs[3..]) == fs[3].len + TotalLength(fs[4..]);
    }
  }

  lemma DataIsSmall(width: nat, c: Coder, v: u64)
    requires CoderOk(width, c) && IsValue(width, v)
    ensures DataField(width, c, v).value < Pow2(DataField(width, c, v).len)
  {
    hide Shr, Shl, LeadingZeros, TrailingZeros, Xor, Pow2;
    var xor := XorWith(width, c, v);
    match CaseOf(width, c, v)
    case First =>
    case Same => SmallPowers();
    case Reuse => WindowHoldsAll(xor, width, c.leading, c.trailing);
    case Close => WindowHoldsAll(xor, width, LeadingZeros(xor, width), c.trailing);
    case Fresh => WindowHoldsAll(xor, width, LeadingZeros(xor, width), TrailingZeros(xor));
  }

  lemma FieldsFit(width: nat, c: Coder, v: u64, pos: nat)
    requires CoderOk(width, c) && IsValue(width, v) && DataFits(width, c, v, pos)
    ensures AllFit(pos, Fields(width, c, v))
    ensures TotalLength(Fields(width, c, v)) == Cost(width, c, v)
  {
    HeadFits(width, c, v, pos);
    DataIsSmall(width, c, v);
    AllFitSnoc(pos, HeadFields(width, c, v), DataField(width, c, v));
  }

  /** What fits is appended. */
  lemma StepAppends(width: nat, c: Coder, v: u64, s: seq<bool>)
    requires CoderOk(width, c) && IsValue(width, v) && DataFits(width, c, v, |s|)
    ensures EncodeStep(width, c, v, s) == s + CodeBits(width, c, v)
    ensures |CodeBits(width, c, v)| == Cost(width, c, v)
  {
    FieldsFit(width, c, v, |s|);
    PutAllAppends(s, Fields(width, c, v));
  }

  lemma BitFieldBits(b: bool)
    ensures FieldBits(Bit(b)) == [b]
  {
    assert ToBits(Bit(b).value / 2, 0) == [];
  }

  // ----- Decoding one value -----

  /** The bits at `pos` are `t`. */
  ghost predicate At(s: seq<bool>, pos: nat, t: seq<bool>)
  {
    pos + |t| <= |s| && s[pos..pos + |t|] == t
  }

  lemma AtSplit(s: seq<bool>, pos: nat, t: seq<bool>, u: seq<bool>)
    requires At(s, pos, t + u)
    ensures At(s, pos, t) && At(s, pos + |t|, u)
  {
    assert (t + u)[..|t|] == t && (t + u)[|t|..] == u;
  }

  /** Reading one field of a list leaves the rest ahead. */
  lemma Peel(s: seq<bool>, pos: nat, fs: seq<Field>)
    requires |fs| > 0 && FieldFits(pos, fs[0]) && At(s, pos, ConcatFields(fs))
    ensures ReadField(s, pos, fs[0].len) == Success(fs[0].value)
    ensures At(s, pos + fs[0].len, ConcatFields(fs[1..]))
  {
    hide ReadField, ConcatFields, FieldFits, FieldBits, At;
    ConcatFieldsHead(fs);
    PeelOne(s, pos, fs[0], ConcatFields(fs[1..]));
  }

  lemma ConcatFieldsHead(fs: seq<Field>)
    requires |fs| > 0
    ensures ConcatFields(fs) == FieldBits(fs[0]) + ConcatFields(fs[1..])
  {
  }

  lemma PeelOne(s: seq<bool>, pos: nat, f: Field, rest: seq<bool>)
    requires FieldFits(pos, f) && At(s, pos, FieldBits(f) + rest)
    ensures ReadField(s, pos, f.len) == Success(f.value)
    ensures At(s, pos + f.len, rest)
  {
    hide ReadAt, Readable, FieldFits, FieldBits;
    AtSplit(s, pos, FieldBits(f), rest);
    ReadBack(s, pos, f);
  }

  lemma AsU8Small(x: nat)
    requires x < 256
    ensures AsU8(x) == x
  {
    SmallPowers();
    FieldRoundTrip(x, 8);
  }

  lemma ClosePlan(build: Build, width: nat, c: Coder, s: seq<bool>, pos: nat, delta: Field)
    requires CoderOk(width, c) && 0 < c.leading && c.leading + c.trailing < width
    requires delta == Field(0, 2) && At(s, pos, ConcatFields([delta]))
    ensures PlanClose(build, width, c, s, pos)
         == Success(Plan(c.leading - 1, c.trailing, width - (c.leading - 1) - c.trailing, pos + 2))
  {
    hide ReadField, ConcatFields;
    SmallPowers();
    Peel(s, pos, [delta]);
  }

  lemma FreshPlan(build: Build, width: nat, s: seq<bool>, pos: nat, leading: Field, len: Field)
    requires IsWidth(width) && leading.len == len.len == 6
    requires leading.value < 64 && len.value < 64 && leading.value + len.value <= width
    requires At(s, pos, ConcatFields([leading, len]))
    ensures PlanFresh(build, width, s, pos)
         == Success(Plan(leading.value, width - leading.value - len.value, len.value, pos + 12))
  {
    hide ReadField, ConcatFields, AsU8;
    SmallPowers();
    Peel(s, pos, [leading, len]);
    Peel(s, pos + 6, [leading, len][1..]);
    AsU8Small(leading.value);
    AsU8Small(len.value);
  }

  lemma PeelBits(s: seq<bool>, pos: nat, a: bool, b: bool, fs: seq<Field>)
    requires At(s, pos, ConcatFields([Bit(a), Bit(b)] + fs))
    ensures ReadField(s, pos, 1) == Success(if a then 1 else 0)
    ensures ReadField(s, pos + 1, 1) == Success(if b then 1 else 0)
    ensures At(s, pos + 2, ConcatFields(fs))
  {
    SmallPowers();
    var all := [Bit(a), Bit(b)] + fs;
    Peel(s, pos, all);
    assert all[1..] == [Bit(b)] + fs;
    Peel(s, pos + 1, all[1..]);
    assert all[1..][1..] == fs;
  }

  lemma PlanOfReuse(build: Build, width: nat, c: Coder, s: seq<bool>, pos: nat)
    requires CoderOk(width, c) && c.leading + c.trailing < width
    requires ReadField(s, pos, 1) == Success(0)
    ensures PlanAt(build, width, c, s, pos)
         == Success(Plan(c.leading, c.trailing, width - c.leading - c.trailing, pos + 1))
  {
  }

  lemma PlanOfClose(build: Build, width: nat, c: Coder, s: seq<bool>, pos: nat, plan: Plan)
    requires CoderOk(width, c)
    requires ReadField(s, pos, 1) == Success(1) && ReadField(s, pos + 1, 1) == Success(0)
    requires PlanClose(build, width, c, s, pos + 2) == Success(plan)
    ensures PlanAt(build, width, c, s, pos) == Success(plan)
  {
  }

  lemma PlanOfFresh(build: Build, width: nat, c: Coder, s: seq<bool>, pos: nat, plan: Plan)
    requires CoderOk(width, c)
    requires ReadField(s, pos, 1) == Success(1) && ReadField(s, pos + 1, 1) == Success(1)
    requires PlanFresh(build, width, s, pos + 2) == Success(plan)
    ensures PlanAt(build, width, c, s, pos) == Success(plan)
  {
  }

  /** The window and field length that the encoder used for `v`, as the decoder sees them. */
  function PlanOf(width: nat, c: Coder, v: u64, pos: nat): Plan
    requires CoderOk(width, c) && IsValue(width, v)
  {
    Plan(NextCoder(width, c, v).leading, NextCoder(width, c, v).trailing,
         DataField(width, c, v).len, pos + ControlLength(CaseOf(width, c, v)))
  }

  lemma ReuseDecodes(build: Build, width: nat, c: Coder, v: u64, s: seq<bool>, pos: nat)
    requires CoderOk(width, c) && IsValue(width, v) && CaseOf(width, c, v) == Reuse
    requires At(s, pos + 1, ConcatFields([Bit(false)]))
    ensures PlanAt(build, width, c, s, pos + 1) == Success(PlanOf(width, c, v, pos))
  {
    hide PlanAt, ReadField, ConcatFields, Shr, Shl, Xor, LeadingZeros, TrailingZeros;
    PeelZero(s, pos + 1);
    WindowHoldsAll(XorWith(width, c, v), width, c.leading, c.trailing);
    PlanOfReuse(build, width, c, s, pos + 1);
  }

  lemma CloseDecodes(build: Build, width: nat, c: Coder, v: u64, s: seq<bool>, pos: nat)
    requires CoderOk(width, c) && IsValue(width, v) && CaseOf(width, c, v) == Close
    requires At(s, pos + 1, ConcatFields([Bit(true), Bit(false)] + [Field(0, 2)]))
    ensures PlanAt(build, width, c, s, pos + 1) == Success(PlanOf(width, c, v, pos))
  {
    hide PlanAt, PlanClose, ReadField, ConcatFields, Shr, Shl, Xor, LeadingZeros, TrailingZeros;
    CloseMeansOneLess(width, c, v);
    PeelBits(s, pos + 1, true, false, [Field(0, 2)]);
    ClosePlan(build, width, c, s, pos + 3, Field(0, 2));
    PlanOfClose(build, width, c, s, pos + 1, PlanOf(width, c, v, pos));
  }

  lemma FreshDecodes(build: Build, width: nat, c: Coder, v: u64, s: seq<bool>, pos: nat, l: Field, n: Field)
    requires CoderOk(width, c) && IsValue(width, v) && CaseOf(width, c, v) == Fresh
    requires l == Field(LeadingZeros(XorWith(width, c, v), width), 6)
    requires n == Field(DataField(width, c, v).len, 6) && n.value < 64
    requires At(s, pos + 1, ConcatFields([Bit(true), Bit(true)] + [l, n]))
    ensures PlanAt(build, width, c, s, pos + 1) == Success(PlanOf(width, c, v, pos))
  {
    hide PlanAt, PlanFresh, ReadField, ConcatFields, Shr, Shl, Xor, LeadingZeros, TrailingZeros;
    WindowHoldsAll(XorWith(width, c, v), width, l.value, TrailingZeros(XorWith(width, c, v)));
    PeelBits(s, pos + 1, true, true, [l, n]);
    FreshPlan(build, width, s, pos + 3, l, n);
    PlanOfFresh(build, width, c, s, pos + 1, PlanOf(width, c, v, pos));
  }

  /** The decoder reads the window that the encoder used. */
  lemma PlanDecodes(build: Build, width: nat, c: Coder, v: u64, s: seq<bool>, pos: nat)
    requires CoderOk(width, c) && IsValue(width, v)
    requires CaseOf(width, c, v) in {Reuse, Close, Fresh}
    requires CaseOf(width, c, v) == Fresh ==> DataField(width, c, v).len <= 63
    requires At(s, pos, ConcatFields(HeadFields(width, c, v)))
    ensures ReadField(s, pos, 1) == Success(1)
    ensures PlanAt(build, width, c, s, pos + 1) == Success(PlanOf(width, c, v, pos))
  {
    SmallPowers();
    var fs := HeadFields(width, c, v);
    Peel(s, pos, fs);
    var branch := CaseOf(width, c, v);
    if branch == Reuse {
      assert fs[1..] == [Bit(false)];
      ReuseDecodes(build, width, c, v, s, pos);
    } else if branch == Close {
      CloseMeansOneLess(width, c, v);
      assert fs[1..] == [Bit(true), Bit(false)] + [Field(0, 2)];
      CloseDecodes(build, width, c, v, s, pos);
    } else {
      assert fs[1..] == [Bit(true), Bit(true)] + [fs[3], fs[4]];
      FreshDecodes(build, width, c, v, s, pos, fs[3], fs[4]);
    }
  }

  lemma StepFromPlan(build: Build, width: nat, c: Coder, s: seq<bool>, pos: nat, plan: Plan, x: u64)
    requires CoderOk(width, c) && c.count > 0
    requires ReadField(s, pos, 1) == Success(1)
    requires PlanAt(build, width, c, s, pos + 1) == Success(plan)
    requires ReadField(s, plan.pos, plan.len) == Success(x)
    requires plan.trailing < 64
    ensures var v := Xor(c.prev, Shl(x, plan.trailing));
            DecodeStep(build, width, c, s, pos)
            == Success(Decoded(v, Coder(c.count + 1, v, plan.leading, plan.trailing), plan.pos + plan.len))
  {
    hide ReadField, PlanAt, Xor, Shl, Pow2;
  }

  lemma WindowRebuilds(width: nat, c: Coder, v: u64)
    requires CoderOk(width, c) && IsValue(width, v)
    requires CaseOf(width, c, v) in {Reuse, Close, Fresh}
    ensures var t := NextCoder(width, c, v).trailing;
            t < 64 && Xor(c.prev, Shl(DataField(width, c, v).value, t)) == v
  {
    var xor := XorWith(width, c, v);
    WindowHoldsAll(xor, width, 0, NextCoder(width, c, v).trailing);
    XorUndo(c.prev, v);
  }

  /** The code of a value splits into control fields and a readable data field. */
  lemma CodeSplits(width: nat, c: Coder, v: u64, s: seq<bool>, pos: nat)
    requires CoderOk(width, c) && IsValue(width, v) && DataFits(width, c, v, pos)
    requires At(s, pos, CodeBits(width, c, v))
    ensures At(s, pos, ConcatFields(HeadFields(width, c, v)))
    ensures ReadField(s, pos + ControlLength(CaseOf(width, c, v)), DataField(width, c, v).len)
         == Success(DataField(width, c, v).value)
  {
    var head, data := HeadFields(width, c, v), DataField(width, c, v);
    ConcatFieldsSnoc(head, data);
    HeadLength(width, c, v);
    AtSplit(s, pos, ConcatFields(head), FieldBits(data));
    DataIsSmall(width, c, v);
    ReadBack(s, pos + ControlLength(CaseOf(width, c, v)), data);
  }

  lemma FirstStepDecodes(build: Build, width: nat, c: Coder, v: u64, s: seq<bool>, pos: nat)
    requires CoderOk(width, c) && IsValue(width, v) && CaseOf(width, c, v) == First
    requires ReadField(s, pos, width) == Success(v)
    ensures DecodeStep(build, width, c, s, pos) == Success(Decoded(v, NextCoder(width, c, v), pos + width))
  {
  }

  lemma SameStepDecodes(build: Build, width: nat, c: Coder, v: u64, s: seq<bool>, pos: nat)
    requires CoderOk(width, c) && IsValue(width, v) && CaseOf(width, c, v) == Same
    requires ReadField(s, pos, 1) == Success(0)
    ensures DecodeStep(build, width, c, s, pos) == Success(Decoded(v, NextCoder(width, c, v), pos + 1))
  {
    XorUndo(c.prev, v);
  }

  /** One value: the decoder recovers it and moves to the encoder's next state. */
  lemma StepDecodes(build: Build, width: nat, c: Coder, v: u64, s: seq<bool>, pos: nat)
    requires CoderOk(width, c) && IsValue(width, v) && DataFits(width, c, v, pos)
    requires At(s, pos, CodeBits(width, c, v))
    ensures DecodeStep(build, width, c, s, pos)
         == Success(Decoded(v, NextCoder(width, c, v), pos + Cost(width, c, v)))
  {
    hide CodeBits, Fields, DataField, NextCoder, DecodeStep, ReadField, HeadFields, CaseOf;
    CodeSplits(width, c, v, s, pos);
    var branch := CaseOf(width, c, v);
    if branch == First {
      FirstLength(width, c, v);
      FirstStepDecodes(build, width, c, v, s, pos);
    } else if branch == Same {
      SameHead(width, c, v);
      PeelZero(s, pos);
      SameStepDecodes(build, width, c, v, s, pos);
    } else {
      WindowDecodes(build, width, c, v, s, pos);
    }
  }

  lemma FirstLength(width: nat, c: Coder, v: u64)
    requires CoderOk(width, c) && IsValue(width, v) && CaseOf(width, c, v) == First
    ensures DataField(width, c, v) == Field(v, width)
  {
  }

  lemma SameHead(width: nat, c: Coder, v: u64)
    requires CoderOk(width, c) && IsValue(width, v) && CaseOf(width, c, v) == Same
    ensures HeadFields(width, c, v) == [Bit(false)] && DataField(width, c, v).len == 0
  {
  }

  lemma PeelZero(s: seq<bool>, pos: nat)
    requires At(s, pos, ConcatFields([Bit(false)]))
    ensures ReadField(s, pos, 1) == Success(0)
  {
    SmallPowers();
    Peel(s, pos, [Bit(false)]);
  }

  lemma WindowDecodes(build: Build, width: nat, c: Coder, v: u64, s: seq<bool>, pos: nat)
    requires CoderOk(width, c) && IsValue(width, v)
    requires CaseOf(width, c, v) in {Reuse, Close, Fresh}
    requires CaseOf(width, c, v) == Fresh ==> DataField(width, c, v).len <= 63
    requires At(s, pos, ConcatFields(HeadFields(width, c, v)))
    requires ReadField(s, pos + ControlLength(CaseOf(width, c, v)), DataField(width, c, v).len)
          == Success(DataField(width, c, v).value)
    ensures DecodeStep(build, width, c, s, pos)
         == Success(Decoded(v, NextCoder(width, c, v), pos + Cost(width, c, v)))
  {
    hide DecodeStep, DataField, HeadFields, NextCoder, ReadField, PlanAt;
    PlanDecodes(build, width, c, v, s, pos);
    WindowRebuilds(width, c, v);
    StepFromPlan(build, width, c, s, pos, PlanOf(width, c, v, pos), DataField(width, c, v).value);
  }

  // ----- Sequences -----

  lemma {:induction false} EncodeFromConcat(width: nat, c: Coder, s: seq<bool>, vs: seq<u64>, ws: seq<u64>)
    requires CoderOk(width, c) && AreValues(width, vs) && AreValues(width, ws)
    ensures AreValues(width, vs + ws)
    ensures CoderAfter(width, c, vs + ws) == CoderAfter(width, CoderAfter(width, c, vs), ws)
    ensures EncodeFrom(width, c, s, vs + ws)
         == EncodeFrom(width, CoderAfter(width, c, vs), EncodeFrom(width, c, s, vs), ws)
    decreases |vs|
  {
    if |vs| == 0 {
      assert vs + ws == ws;
    } else {
      assert (vs + ws)[1..] == vs[1..] + ws;
      EncodeFromConcat(width, NextCoder(width, c, vs[0]), EncodeStep(width, c, vs[0], s), vs[1..], ws);
    }
  }

  function CostFrom(width: nat, c: Coder, vs: seq<u64>): nat
    requires CoderOk(width, c) && AreValues(width, vs)
    decreases |vs|
  {
    if |vs| == 0 then 0
    else Cost(width, c, vs[0]) + CostFrom(width, NextCoder(width, c, vs[0]), vs[1..])
  }

  /** A sequence that fits only appends, and by the sum of its costs. */
  lemma {:induction false} EncodeAppends(width: nat, c: Coder, s: seq<bool>, vs: seq<u64>)
    requires CoderOk(width, c) && AreValues(width, vs) && FitsFrom(width, c, |s|, vs)
    ensures s <= EncodeFrom(width, c, s, vs)
    ensures |EncodeFrom(width, c, s, vs)| == |s| + CostFrom(width, c, vs)
    decreases |vs|
  {
    if |vs| > 0 {
      StepAppends(width, c, vs[0], s);
      EncodeAppends(width, NextCoder(width, c, vs[0]), EncodeStep(width, c, vs[0], s), vs[1..]);
    }
  }

  lemma {:induction false} FitsConcat(width: nat, c: Coder, pos: nat, vs: seq<u64>, ws: seq<u64>)
    requires CoderOk(width, c) && AreValues(width, vs) && AreValues(width, ws)
    ensures AreValues(width, vs + ws)
    ensures FitsFrom(width, c, pos, vs + ws)
       <==> FitsFrom(width, c, pos, vs)
            && FitsFrom(width, CoderAfter(width, c, vs), pos + CostFrom(width, c, vs), ws)
    decreases |vs|
  {
    hide NextCoder, DataFits, Cost, EncodeStep;
    if |vs| == 0 {
      assert vs + ws == ws;
    } else {
      assert (vs + ws)[1..] == vs[1..] + ws;
      FitsConcat(width, NextCoder(width, c, vs[0]), pos + Cost(width, c, vs[0]), vs[1..], ws);
    }
  }

  lemma CodeAhead(s: seq<bool>, sent: seq<bool>, code: seq<bool>)
    requires sent + code <= s
    ensures At(s, |sent|, code)
  {
    assert (sent + code)[|sent|..] == code;
    assert s[..|sent + code|] == sent + code;
  }

  lemma DecodeCons(build: Build, width: nat, c: Coder, s: seq<bool>, pos: nat, n: nat, step: Decoded, run: Run)
    requires width < 256 && c.leading < 256 && c.trailing < 256
    requires DecodeStep(build, width, c, s, pos) == Success(step)
    requires DecodeFrom(build, width, step.coder, s, step.pos, n) == Success(run)
    ensures DecodeFrom(build, width, c, s, pos, n + 1)
         == Success(run.(values := [step.value] + run.values))
  {
  }

  /** A decoder that reads any extension of the stream recovers the values in lockstep. */
  lemma {:induction false} DecodeFollows(build: Build, width: nat, c: Coder, sent: seq<bool>, vs: seq<u64>, s: seq<bool>)
    requires CoderOk(width, c) && AreValues(width, vs) && FitsFrom(width, c, |sent|, vs)
    requires EncodeFrom(width, c, sent, vs) <= s
    ensures DecodeFrom(build, width, c, s, |sent|, |vs|)
         == Success(Run(vs, CoderAfter(width, c, vs), |EncodeFrom(width, c, sent, vs)|))
    decreases |vs|
  {
    hide DecodeStep, EncodeStep, NextCoder, Cost, DataFits, CodeBits;
    if |vs| > 0 {
      var v, rest := vs[0], vs[1..];
      var sent', c' := EncodeStep(width, c, v, sent), NextCoder(width, c, v);
      StepAppends(width, c, v, sent);
      EncodeAppends(width, c', sent', rest);
      DecodeFollows(build, width, c', sent', rest, s);
      CodeAhead(s, sent, CodeBits(width, c, v));
      StepDecodes(build, width, c, v, s, |sent|);
      DecodeCons(build, width, c, s, |sent|, |rest|, Decoded(v, c', |sent'|),
                 Run(rest, CoderAfter(width, c', rest), |EncodeFrom(width, c', sent', rest)|));
      assert vs == [v] + rest;
    }
  }

  // ----- Main results -----

  /** As many counted reads of `s` as there are values succeed, and return them. */
  ghost predicate Recovers(build: Build, width: nat, s: seq<bool>, vs: seq<u64>)
    requires IsWidth(width)
  {
    var r := Decode(build, width, s, |vs|);
    r.Success? && r.value.values == vs
  }

  /** Encoding, flushing and reading the values back gives the same values. */
  ghost predicate RoundTrips(build: Build, width: nat, vs: seq<u64>)
    requires IsWidth(width) && AreValues(width, vs)
  {
    Recovers(build, width, Pad(Encode(width, vs)), vs)
  }

  lemma StartOk(width: nat)
    requires IsWidth(width)
    ensures CoderOk(width, START)
  {
  }

  /** One more value after a sequence. */
  lemma EncodeSnoc(width: nat, c: Coder, s: seq<bool>, vs: seq<u64>, v: u64)
    requires CoderOk(width, c) && AreValues(width, vs) && IsValue(width, v)
    ensures AreValues(width, vs + [v])
    ensures EncodeFrom(width, c, s, vs + [v])
         == EncodeStep(width, CoderAfter(width, c, vs), v, EncodeFrom(width, c, s, vs))
    ensures CoderAfter(width, c, vs + [v]) == NextCoder(width, CoderAfter(width, c, vs), v)
  {
    hide EncodeStep, NextCoder;
    EncodeFromConcat(width, c, s, vs, [v]);
    var c', s' := CoderAfter(width, c, vs), EncodeFrom(width, c, s, vs);
    assert [v][1..] == [];
    assert EncodeFrom(width, NextCoder(width, c', v), EncodeStep(width, c', v, s'), [])
        == EncodeStep(width, c', v, s');
    assert CoderAfter(width, NextCoder(width, c', v), []) == NextCoder(width, c', v);
  }

  lemma CoderPrev(width: nat, vs: seq<u64>)
    requires IsWidth(width) && AreValues(width, vs)
    ensures |vs| > 0 ==> CoderAfter(width, START, vs).prev == vs[|vs| - 1]
  {
    hide NextCoder;
    StartOk(width);
    if |vs| > 0 {
      var n := |vs| - 1;
      assert vs == vs[..n] + [vs[n]];
      EncodeSnoc(width, START, [], vs[..n], vs[n]);
    }
  }

  /** One read more. */
  lemma {:induction false} DecodeSnoc(build: Build, width: nat, c: Coder, s: seq<bool>, pos: nat, i: nat)
    requires width < 256 && c.leading < 256 && c.trailing < 256
    ensures DecodeFrom(build, width, c, s, pos, i + 1)
         == match DecodeFrom(build, width, c, s, pos, i)
            case Failure(e) => Failure(e)
            case Success(run) =>
              (match DecodeStep(build, width, run.coder, s, run.pos)
               case Failure(e) => Failure(e)
               case Success(d) => Success(Run(run.values + [d.value], d.coder, d.pos)))
    decreases i
  {
    hide DecodeStep;
    var step := DecodeStep(build, width, c, s, pos);
    if step.Success? {
      var d := step.value;
      if i > 0 {
        DecodeSnoc(build, width, d.coder, s, d.pos, i - 1);
        var before := DecodeFrom(build, width, d.coder, s, d.pos, i - 1);
        if before.Success? {
          var last := DecodeStep(build, width, before.value.coder, s, before.value.pos);
          if last.Success? {
            assert [d.value] + (before.value.values + [last.value.value])
                == ([d.value] + before.value.values) + [last.value.value];
          }
        }
      } else {
        assert DecodeFrom(build, width, d.coder, s, d.pos, 0) == Success(Run([], d.coder, d.pos));
        assert [d.value] + [] == [] + [d.value];
      }
    }
  }

  /** Reading in two batches is reading in one, failures included. */
  lemma {:induction false} DecodeConcat(build: Build, width: nat, c: Coder, s: seq<bool>, pos: nat, m: nat, n: nat)
    requires width < 256 && c.leading < 256 && c.trailing < 256
    ensures DecodeFrom(build, width, c, s, pos, m + n)
         == match DecodeFrom(build, width, c, s, pos, m)
            case Failure(e) => Failure(e)
            case Success(first) =>
              (match DecodeFrom(build, width, first.coder, s, first.pos, n)
               case Failure(e) => Failure(e)
               case Success(second) => Success(second.(values := first.values + second.values)))
    decreases m
  {
    hide DecodeStep;
    var step := DecodeStep(build, width, c, s, pos);
    if m == 0 {
      var all := DecodeFrom(build, width, c, s, pos, n);
      assert all.Success? ==> [] + all.value.values == all.value.values;
    } else if step.Success? {
      var d := step.value;
      DecodeConcat(build, width, d.coder, s, d.pos, m - 1, n);
      var first := DecodeFrom(build, width, d.coder, s, d.pos, m - 1);
      if first.Success? {
        var second := DecodeFrom(build, width, first.value.coder, s, first.value.pos, n);
        if second.Success? {
          SeqAssoc([d.value], first.value.values, second.value.values);
        }
      }
    }
  }

  /** The stream of a prefix of the values is a prefix of the stream. */
  lemma PrefixStream(width: nat, vs: seq<u64>, ws: seq<u64>)
    requires IsWidth(width) && AreValues(width, vs) && AreValues(width, ws)
    requires AreValues(width, vs + ws) && Fits(width, vs + ws)
    ensures Fits(width, vs) && Encode(width, vs) <= Encode(width, vs + ws)
  {
    hide NextCoder, DataFits, Cost, EncodeStep;
    StartOk(width);
    FitsConcat(width, START, 0, vs, ws);
    EncodeFromConcat(width, START, [], vs, ws);
    EncodeAppends(width, START, [], vs);
    EncodeAppends(width, CoderAfter(width, START, vs), Encode(width, vs), ws);
  }

  /**
    Lockstep: on a sequence that fits, after `k` counted reads the decoder has returned
    the first `k` values, has the encoder's state after `k` values, and stands where the
    encoder's stream of `k` values ends.
   */
  lemma Lockstep(build: Build, width: nat, vs: seq<u64>, k: nat)
    requires IsWidth(width) && AreValues(width, vs) && Fits(width, vs) && k <= |vs|
    ensures Decode(build, width, Pad(Encode(width, vs)), k)
         == Success(Run(vs[..k], CoderAfter(width, START, vs[..k]), |Encode(width, vs[..k])|))
  {
    assert vs == vs[..k] + vs[k..];
    PrefixStream(width, vs[..k], vs[k..]);
    DecodeFollows(build, width, START, [], vs[..k], Pad(Encode(width, vs)));
  }

  lemma RoundTrip(build: Build, width: nat, vs: seq<u64>)
    requires IsWidth(width) && AreValues(width, vs) && Fits(width, vs)
    ensures RoundTrips(build, width, vs)
    ensures Decode(build, width, Pad(Encode(width, vs)), |vs|)
         == Success(Run(vs, CoderAfter(width, START, vs), |Encode(width, vs)|))
  {
    Lockstep(build, width, vs, |vs|);
    assert vs[..|vs|] == vs;
  }

  lemma {:induction false} FloatsFitFrom(c: Coder, pos: nat, vs: seq<u64>)
    requires CoderOk(32, c) && AreValues(32, vs)
    ensures FitsFrom(32, c, pos, vs)
    decreases |vs|
  {
    if |vs| > 0 {
      FloatsFitFrom(NextCoder(32, c, vs[0]), pos + Cost(32, c, vs[0]), vs[1..]);
    }
  }

  /** 32-bit floats always survive the round trip. */
  lemma FloatRoundTrip(build: Build, vs: seq<u32>)
    ensures var bits: seq<u64> := vs;
            AreValues(32, bits) && RoundTrips(build, 32, bits)
  {
    Pow2Of64();
    assert forall i :: 0 <= i < |vs| ==> IsValue(32, vs[i]);
    FloatsFitFrom(START, 0, vs);
    RoundTrip(build, 32, vs);
  }
}
