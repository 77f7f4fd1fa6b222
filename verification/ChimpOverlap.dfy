/**
  When the overlap of an oversized field reaches into the codes of earlier values: a decoder
  that still returns those values has read too far to recover this one.
 */
module ChimpOverlap {
  import opened Bits
  import opened BitStream
  import opened Wrappers
  import opened Types
  import opened Chimp
  import opened ChimpRoundTrip
  import opened ChimpLoss

  lemma {:induction false} FirstDifference(s: seq<bool>, a: seq<bool>, k: nat) returns (q: nat)
    requires |s| <= |a| && k < |s| && s[k] != a[k]
    ensures q < |s| && s[..q] == a[..q] && s[q] != a[q]
    decreases k
  {
    if j :| 0 <= j < k && s[j] != a[j] {
      q := FirstDifference(s, a, j);
    } else {
      q := k;
    }
  }

  /** The last value of a sequence that fits, taken apart. */
  lemma LastStep(us: seq<u64>, u: u64)
    requires AreValues(64, us) && IsValue(64, u) && AreValues(64, us + [u]) && Fits(64, us + [u])
    ensures var c := CoderAfter(64, START, us);
            && Fits(64, us)
            && DataFits(64, c, u, |Encode(64, us)|)
            && CoderAfter(64, START, us + [u]) == NextCoder(64, c, u)
            && Encode(64, us + [u]) == Encode(64, us) + CodeBits(64, c, u)
            && |CodeBits(64, c, u)| == Cost(64, c, u)
  {
    hide NextCoder, DataFits, Cost, EncodeStep, CodeBits;
    StartOk(64);
    var c := CoderAfter(64, START, us);
    FitsConcat(64, START, 0, us, [u]);
    EncodeFromConcat(64, START, [], us, [u]);
    EncodeAppends(64, START, [], us);
    assert [u][1..] == [];
    assert CoderAfter(64, c, [u]) == CoderAfter(64, NextCoder(64, c, u), []);
    StepAppends(64, c, u, Encode(64, us));
    assert EncodeFrom(64, c, Encode(64, us), [u])
        == EncodeFrom(64, NextCoder(64, c, u), EncodeStep(64, c, u, Encode(64, us)), []);
  }

  lemma ShlInjective(x: u64, y: u64, n: nat, t: nat)
    requires x < Pow2(n) && y < Pow2(n) && n + t <= 64 && Shl(x, t) == Shl(y, t)
    ensures x == y
  {
    ShlBits(x, t);
    ShlBits(y, t);
    SmallBits(x, 64 - n, n);
    SmallBits(y, 64 - n, n);
    var a, b := ToBits(x, 64)[t..] + Zeros(t), ToBits(y, 64)[t..] + Zeros(t);
    assert ToBits(x, n) == a[64 - n - t..64 - t];
    assert ToBits(y, n) == b[64 - n - t..64 - t];
    BitsInjective(x, y, n);
  }

  /** Another data field behind the same control bits gives another value. */
  lemma OtherData(build: Build, c: Coder, u: u64, s: seq<bool>, pos: nat)
    requires CoderOk(64, c) && IsValue(64, u) && DataFits(64, c, u, pos)
    requires CaseOf(64, c, u) != Same
    requires At(s, pos, ConcatFields(HeadFields(64, c, u)))
    requires var r := pos + ControlLength(CaseOf(64, c, u));
             r + DataField(64, c, u).len <= |s| && !At(s, r, FieldBits(DataField(64, c, u)))
    ensures !StepRecovers(build, c, s, pos, u)
  {
    hide DecodeStep, PlanAt, CaseOf, DataField, HeadFields, NextCoder;
    var r, data := pos + ControlLength(CaseOf(64, c, u)), DataField(64, c, u);
    DataIsSmall(64, c, u);
    var x := OtherRead(s, r, data);
    if CaseOf(64, c, u) == First {
      OtherFirst(build, c, u, s, pos, x);
    } else {
      OtherWindow(build, c, u, s, pos, x);
    }
  }

  lemma OtherRead(s: seq<bool>, pos: nat, f: Field) returns (x: u64)
    requires FieldFits(pos, f) && pos + f.len <= |s| && !At(s, pos, FieldBits(f))
    ensures ReadField(s, pos, f.len) == Success(x) && x < Pow2(f.len) && x != f.value
  {
    assert f.len > 0;
    x := ReadAt(s, pos, f.len);
    ToFromBits(s[pos..pos + f.len]);
  }

  lemma OtherFirst(build: Build, c: Coder, u: u64, s: seq<bool>, pos: nat, x: u64)
    requires CoderOk(64, c) && IsValue(64, u) && CaseOf(64, c, u) == First
    requires ReadField(s, pos, DataField(64, c, u).len) == Success(x) && x != DataField(64, c, u).value
    ensures !StepRecovers(build, c, s, pos, u)
  {
  }

  lemma OtherWindow(build: Build, c: Coder, u: u64, s: seq<bool>, pos: nat, x: u64)
    requires CoderOk(64, c) && IsValue(64, u) && CaseOf(64, c, u) in {Reuse, Close, Fresh}
    requires CaseOf(64, c, u) == Fresh ==> DataField(64, c, u).len <= 63
    requires At(s, pos, ConcatFields(HeadFields(64, c, u)))
    requires var data := DataField(64, c, u);
             ReadField(s, pos + ControlLength(CaseOf(64, c, u)), data.len) == Success(x)
             && x < Pow2(data.len) && x != data.value
    ensures !StepRecovers(build, c, s, pos, u)
  {
    hide DecodeStep, PlanAt, DataField, HeadFields, NextCoder;
    var data, t := DataField(64, c, u), NextCoder(64, c, u).trailing;
    PlanDecodes(build, 64, c, u, s, pos);
    WindowRebuilds(64, c, u);
    DataShape(c, u);
    DataIsSmall(64, c, u);
    StepFromPlan(build, 64, c, s, pos, PlanOf(64, c, u, pos), x);
    if Xor(c.prev, Shl(x, t)) == u {
      XorCancel(c.prev, Shl(x, t));
      XorCancel(c.prev, Shl(data.value, t));
      ShlInjective(x, data.value, data.len, t);
    }
  }

  lemma CloseLength(build: Build, c: Coder, s: seq<bool>, pos: nat)
    requires c.leading + c.trailing < 63
    ensures var r := PlanClose(build, 64, c, s, pos);
            r.Success? ==> r.value.len >= WindowLength(64, c) - 1
  {
  }

  /**
    A repeated value whose zero bit became a one: with nearly a full window to read and
    too little left of the stream, only a fresh window can follow, which takes 15 bits.
   */
  lemma FlippedRepeat(build: Build, c: Coder, s: seq<bool>, q: nat)
    requires c.count > 0 && c.leading + c.trailing < 63 && q < |s| && s[q]
    requires |s| <= q + WindowLength(64, c) + 1
    ensures var r := DecodeStep(build, 64, c, s, q);
            r.Success? ==> r.value.pos >= q + 15
  {
    hide DecodeStep, PlanAt, PlanClose;
    StepShape(build, c, s, q);
    PlanPosition(build, c, s, q + 1);
    CloseLength(build, c, s, q + 3);
  }

  /** A value of four bits or less is a repeat, if the window is wide. */
  lemma ShortCode(c: Coder, u: u64)
    requires CoderOk(64, c) && IsValue(64, u)
    requires NextCoder(64, c, u).leading + NextCoder(64, c, u).trailing <= 7
    ensures CaseOf(64, c, u) != First
    ensures CaseOf(64, c, u) == Same ==>
              Cost(64, c, u) == 1 && NextCoder(64, c, u).leading == c.leading
              && NextCoder(64, c, u).trailing == c.trailing
    ensures CaseOf(64, c, u) != Same ==> DataField(64, c, u).len >= 57
  {
    var xor := XorWith(64, c, u);
    if CaseOf(64, c, u) == Reuse {
      WindowHoldsAll(xor, 64, c.leading, c.trailing);
    }
  }

  lemma ShortIsRepeat(c: Coder, u: u64)
    requires CoderOk(64, c) && IsValue(64, u)
    requires NextCoder(64, c, u).leading + NextCoder(64, c, u).trailing <= 7
    requires Cost(64, c, u) < 5
    ensures CaseOf(64, c, u) == Same
  {
    hide NextCoder, CaseOf, DataField;
    ShortCode(c, u);
  }

  /** The first flipped bit lies in the last five bits of the code of `u`. */
  lemma BitOfLast(build: Build, c: Coder, u: u64, s: seq<bool>, a: seq<bool>, q: nat)
    requires CoderOk(64, c) && IsValue(64, u) && DataFits(64, c, u, |s|)
    requires |CodeBits(64, c, u)| == Cost(64, c, u)
    requires var c', s' := NextCoder(64, c, u), s + CodeBits(64, c, u);
             && c'.leading + c'.trailing <= 7
             && |s| <= q < |s'| <= q + 5 && |s'| <= |a| <= q + WindowLength(64, c') + 1
             && s'[..q] == a[..q] && !s'[q] && a[q]
    ensures var r := DecodeStep(build, 64, c, a, |s|);
            r.Success? && r.value.value == u ==> r.value.pos >= q + 15
  {
    hide DecodeStep, NextCoder, CaseOf, DataField, HeadFields;
    ShortCode(c, u);
    var head, data := HeadFields(64, c, u), DataField(64, c, u);
    if CaseOf(64, c, u) == Same {
      SameNeedsCount(c, u);
      FlippedRepeat(build, c, a, q);
    } else {
      ConcatFieldsSnoc(head, data);
      HeadLength(64, c, u);
      CodeBroken(s, ConcatFields(head), FieldBits(data), a, q);
      OtherData(build, c, u, a, |s|);
    }
  }

  lemma SameNeedsCount(c: Coder, u: u64)
    requires CoderOk(64, c) && IsValue(64, u) && CaseOf(64, c, u) == Same
    ensures c.count > 0
  {
  }

  lemma CodeBroken(s: seq<bool>, t: seq<bool>, u: seq<bool>, a: seq<bool>, q: nat)
    requires |s| + |t| <= q < |s| + |t| + |u| <= |a|
    requires (s + (t + u))[..q] == a[..q] && (s + (t + u))[q] != a[q]
    ensures At(a, |s|, t) && !At(a, |s| + |t|, u)
  {
    var whole := s + (t + u);
    assert whole[|s|..|s| + |t|] == t;
    assert a[|s|..|s| + |t|] == whole[..q][|s|..|s| + |t|] == whole[|s|..|s| + |t|];
    assert whole[q] == u[q - |s| - |t|];
    assert a[|s| + |t|..|s| + |t| + |u|][q - |s| - |t|] == a[q];
  }

  /**
    The first flipped bit lies in the last five bits of the stream of `us`: a decoder that
    still returns `us` has skipped fifteen bits from there.
   */
  lemma {:induction false} LateStart(build: Build, us: seq<u64>, a: seq<bool>, q: nat)
    requires AreValues(64, us) && Fits(64, us)
    requires var c, s := CoderAfter(64, START, us), Encode(64, us);
             && c.leading + c.trailing <= 7
             && q < |s| <= q + 5 && |s| <= |a| <= q + WindowLength(64, c) + 1
             && s[..q] == a[..q] && !s[q] && a[q]
    ensures var r := Decode(build, 64, a, |us|);
            r.Success? && r.value.values == us ==> r.value.pos >= q + 15
    decreases |us|
  {
    hide DecodeStep, NextCoder, DataFits, Cost, EncodeStep, CodeBits, CaseOf, DataField;
    var n := |us| - 1;
    var us', u := us[..n], us[n];
    assert us == us' + [u];
    LastStep(us', u);
    var c', s' := CoderAfter(64, START, us'), Encode(64, us');
    var r := Decode(build, 64, a, |us|);
    if r.Success? && r.value.values == us {
      DecodeSnoc(build, 64, START, a, 0, n);
      var before := Decode(build, 64, a, n).value;
      assert before.values == us' by {
        assert r.value.values[..n] == before.values;
      }
      var s := Encode(64, us);
      assert s[..|s'|] == s';
      if q < |s'| {
        ShortCode(c', u);
        assert Cost(64, c', u) < 5;
        ShortIsRepeat(c', u);
        assert s'[..q] == s[..q];
        LateStart(build, us', a, q);
        DecodeCount(build, a, n);
        StepShape(build, before.coder, a, before.pos);
      } else {
        assert a[..|s'|] == s';
        DecodeFollows(build, 64, START, [], us', a);
        BitOfLast(build, c', u, s', a, q);
      }
    }
  }

  /** Where the overlap can reach into earlier values, and what is left to read there. */
  lemma OverlapStart(c: Coder, v: u64, s: seq<bool>, q: nat)
    requires CoderOk(64, c) && IsValue(64, v)
    requires Overflows(c, v, |s|)
    requires var a := EncodeStep(64, c, v, s);
             q < |s| <= |a| && s[..q] == a[..q] && s[q] != a[q]
    ensures var a, p, data := EncodeStep(64, c, v, s), PutAll(s, HeadFields(64, c, v)), DataField(64, c, v);
            var off := |p| - (|p| % 8 + data.len - 64);
            && !s[q] && a[q] && off <= q && |p| <= q + 7 && |s| <= q + 5
            && q - off < data.len && FieldBits(data)[q - off]
            && c.leading + c.trailing <= 7 && |a| <= q + WindowLength(64, c) + 1
  {
    hide EncodeStep, HeadFields, NextCoder;
    OverflowStream(c, v, s);
    var p := PutAll(s, HeadFields(64, c, v));
    assert p[q] == (s + Marker(CaseOf(64, c, v)))[q] == s[q];
    WidthOfWindow(c, v);
  }

  lemma WidthOfWindow(c: Coder, v: u64)
    requires CoderOk(64, c) && IsValue(64, v) && CaseOf(64, c, v) in {Reuse, Close}
    ensures var n := DataField(64, c, v).len;
            n - 1 <= WindowLength(64, c) <= n
  {
    if CaseOf(64, c, v) == Close {
      CloseMeansOneLess(64, c, v);
    }
  }

  /** From behind the overlap, in whatever state, the value is not recovered. */
  lemma LateMiss(build: Build, c: Coder, v: u64, s: seq<bool>, q: nat, c': Coder, pos: nat)
    requires CoderOk(64, c) && IsValue(64, v) && Overflows(c, v, |s|)
    requires var a := EncodeStep(64, c, v, s);
             q < |s| <= |a| && s[..q] == a[..q] && s[q] != a[q]
    requires c'.count > 0 && c'.prev == c.prev && c'.leading < 256 && c'.trailing < 256 && pos >= q + 15
    ensures !StepRecovers(build, c', EncodeStep(64, c, v, s), pos, v)
  {
    hide DecodeStep, PlanAt, EncodeStep, DataField, HeadFields, NextCoder, Readable, Garbled, XorShape;
    hide CaseOf, PutAll, StepRecovers, FieldBits;
    var a, p, data := EncodeStep(64, c, v, s), PutAll(s, HeadFields(64, c, v)), DataField(64, c, v);
    var d, t := |p| % 8 + data.len - 64, NextCoder(64, c, v).trailing;
    OverflowStream(c, v, s);
    OverlapStart(c, v, s, q);
    PlanPosition(build, c', a, pos + 1);
    DataShape(c, v);
    XorNonZero(c, v);
    StepMisses(build, c', a, pos, v, p, FieldBits(data), d, q - (|p| - d), 64 - data.len - t, t);
  }

  /** Decoding all but the last value right and the last one wrong. */
  lemma LastMissed(build: Build, us: seq<u64>, v: u64, s: seq<bool>)
    requires var r := Decode(build, 64, s, |us|);
             r.Success? && r.value.values == us ==> !StepRecovers(build, r.value.coder, s, r.value.pos, v)
    ensures !Recovers(build, 64, s, us + [v])
  {
    hide DecodeStep;
    if Decode(build, 64, s, |us| + 1).Success? {
      DecodeSnoc(build, 64, START, s, 0, |us|);
      var before := Decode(build, 64, s, |us|).value;
      var step := DecodeStep(build, 64, before.coder, s, before.pos).value;
      SnocParts(before.values, step.value, us, v);
    }
  }

  lemma SnocParts<T>(a: seq<T>, x: T, b: seq<T>, y: T)
    ensures a + [x] == b + [y] <==> a == b && x == y
  {
    assert (a + [x])[..|a|] == a && (b + [y])[..|b|] == b;
    assert (a + [x])[|a|] == x && (b + [y])[|b|] == y;
    if a + [x] == b + [y] {
      assert |a + [x]| == |b + [y]|;
    }
  }

  lemma LostEarly(build: Build, us: seq<u64>, v: u64, c: Coder, s: seq<bool>, q: nat)
    requires AreValues(64, us) && IsValue(64, v) && Fits(64, us)
    requires c == CoderAfter(64, START, us) && s == Encode(64, us) && Overflows(c, v, |s|)
    requires var a := EncodeStep(64, c, v, s);
             q < |s| <= |a| && s[..q] == a[..q] && s[q] != a[q]
    ensures !Recovers(build, 64, EncodeStep(64, c, v, s), us + [v])
  {
    hide EncodeStep, Fits, Overflows, StepRecovers, Recovers;
    var a := EncodeStep(64, c, v, s);
    var r := Decode(build, 64, a, |us|);
    if r.Success? && r.value.values == us {
      OverlapStart(c, v, s, q);
      LateStart(build, us, a, q);
      assert |us| > 0;
      DecodeCount(build, a, |us|);
      CoderPrev(64, us);
      LateMiss(build, c, v, s, q, r.value.coder, r.value.pos);
    }
    LastMissed(build, us, v, a);
  }
}
