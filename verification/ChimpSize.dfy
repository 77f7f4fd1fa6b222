/**
  How long a Chimp128 stream is, where its window comes from, and what its padding means.
 */
module ChimpSize {
  import opened Bits
  import opened BitStream
  import opened Wrappers
  import opened Types
  import opened Chimp
  import opened ChimpRoundTrip

  // ----- The window -----

  /** The window is the exact one of the XOR of two neighbouring values. */
  ghost predicate WindowOfXor(width: nat, vs: seq<u64>, k: nat, c: Coder)
    requires AreValues(width, vs) && k + 1 < |vs|
  {
    var xor := Xor(vs[k + 1], vs[k]);
    xor != 0 && xor < Pow2(width)
    && c.leading == LeadingZeros(xor, width) && c.trailing == TrailingZeros(xor)
  }

  lemma NextWindow(width: nat, c: Coder, v: u64)
    requires CoderOk(width, c) && IsValue(width, v)
    ensures var c' := NextCoder(width, c, v);
            match CaseOf(width, c, v)
            case First => c'.leading == c.leading == UNSET && c'.trailing == c.trailing
            case Same => c'.leading == c.leading && c'.trailing == c.trailing && v == c.prev
            case Reuse => c'.leading == c.leading != UNSET && c'.trailing == c.trailing && v != c.prev
            case Close =>
              var xor := XorWith(width, c, v);
              v != c.prev && c'.leading == LeadingZeros(xor, width) && c'.trailing == TrailingZeros(xor)
            case Fresh =>
              var xor := XorWith(width, c, v);
              v != c.prev && c'.leading == LeadingZeros(xor, width) && c'.trailing == TrailingZeros(xor)
  {
    XorUndo(c.prev, v);
  }

  /**
    The window is unset as long as all values are the same, and from then on it is the
    exact window of some earlier XOR; in particular it is never reused before it is set.
   */
  lemma {:induction false} WindowOrigin(width: nat, vs: seq<u64>)
    requires IsWidth(width) && AreValues(width, vs)
    ensures var c := CoderAfter(width, START, vs);
            && (c.leading == UNSET <==> forall i :: 0 < i < |vs| ==> vs[i] == vs[0])
            && (c.leading != UNSET ==> exists k: nat | k + 1 < |vs| :: WindowOfXor(width, vs, k, c))
    decreases |vs|
  {
    hide NextCoder, CaseOf;
    StartOk(width);
    if |vs| > 0 {
      var n := |vs| - 1;
      var us, v := vs[..n], vs[n];
      assert vs == us + [v];
      WindowOrigin(width, us);
      EncodeSnoc(width, START, [], us, v);
      var c, c' := CoderAfter(width, START, us), CoderAfter(width, START, vs);
      NextWindow(width, c, v);
      CoderPrev(width, us);
      WindowStep(width, us, v, c, c');
    }
  }

  lemma WindowStep(width: nat, us: seq<u64>, v: u64, c: Coder, c': Coder)
    requires IsWidth(width) && AreValues(width, us) && IsValue(width, v) && AreValues(width, us + [v])
    requires c == CoderAfter(width, START, us) && c' == NextCoder(width, c, v)
    requires |us| > 0 ==> c.prev == us[|us| - 1]
    requires c.leading == UNSET <==> forall i :: 0 < i < |us| ==> us[i] == us[0]
    requires c.leading != UNSET ==> exists k: nat | k + 1 < |us| :: WindowOfXor(width, us, k, c)
    ensures var vs := us + [v];
            && (c'.leading == UNSET <==> forall i :: 0 < i < |vs| ==> vs[i] == vs[0])
            && (c'.leading != UNSET ==> exists k: nat | k + 1 < |vs| :: WindowOfXor(width, vs, k, c'))
  {
    hide NextCoder, LeadingZeros, TrailingZeros;
    var vs, n := us + [v], |us|;
    NextWindow(width, c, v);
    var branch := CaseOf(width, c, v);
    if branch in {Same, Reuse} {
      if c.leading != UNSET {
        var k: nat :| k + 1 < |us| && WindowOfXor(width, us, k, c);
        assert vs[k] == us[k] && vs[k + 1] == us[k + 1];
        assert WindowOfXor(width, vs, k, c');
      }
    } else if branch in {Close, Fresh} {
      assert vs[n - 1] == c.prev && vs[n] == v;
      assert WindowOfXor(width, vs, n - 1, c');
    }
    assert forall i :: 0 < i < |us| ==> vs[i] == us[i];
  }

  /** Every XOR of neighbouring doubles has at most 57 significant bits. */
  predicate Narrow(vs: seq<u64>)
    requires AreValues(64, vs)
  {
    forall k: nat | k + 1 < |vs| :: NarrowAt(vs, k)
  }

  predicate NarrowAt(vs: seq<u64>, k: nat)
    requires k + 1 < |vs|
  {
    Pow2Of64();
    var xor := Xor(vs[k + 1], vs[k]);
    xor == 0 || 64 - LeadingZeros(xor, 64) - TrailingZeros(xor) <= 57
  }

  lemma NarrowField(us: seq<u64>, v: u64)
    requires AreValues(64, us + [v]) && AreValues(64, us) && IsValue(64, v) && Narrow(us + [v])
    ensures var c := CoderAfter(64, START, us);
            |us| > 0 ==> CaseOf(64, c, v) != First && DataField(64, c, v).len <= 57
  {
    hide NextCoder, Narrow, LeadingZeros, TrailingZeros, CoderAfter;
    var vs := us + [v];
    var c := CoderAfter(64, START, us);
    CoderPrev(64, us);
    WindowOrigin(64, us);
    if |us| > 0 {
      assert NarrowAt(vs, |us| - 1) by {
        NarrowOne(vs, |us| - 1);
      }
      assert vs[|us| - 1] == c.prev && vs[|us|] == v;
      if CaseOf(64, c, v) == Reuse {
        NeverUnset(c, v);
        var k: nat :| k + 1 < |us| && WindowOfXor(64, us, k, c);
        assert vs[k] == us[k] && vs[k + 1] == us[k + 1];
        NarrowOne(vs, k);
      }
      NarrowData(c, v);
    }
  }

  lemma NarrowOne(vs: seq<u64>, k: nat)
    requires AreValues(64, vs) && Narrow(vs) && k + 1 < |vs|
    ensures NarrowAt(vs, k)
  {
  }

  lemma NeverUnset(c: Coder, v: u64)
    requires CoderOk(64, c) && IsValue(64, v) && CaseOf(64, c, v) == Reuse
    ensures c.leading != UNSET
  {
  }

  lemma NarrowData(c: Coder, v: u64)
    requires CoderOk(64, c) && IsValue(64, v) && c.count > 0
    requires var xor := Xor(v, c.prev);
             xor == 0 || 64 - LeadingZeros(XorWith(64, c, v), 64) - TrailingZeros(xor) <= 57
    requires CaseOf(64, c, v) == Reuse ==> WindowLength(64, c) <= 57
    ensures CaseOf(64, c, v) != First && DataField(64, c, v).len <= 57
  {
  }

  /** The condition on the values alone is enough for doubles. */
  lemma {:induction false} NarrowFits(vs: seq<u64>)
    requires AreValues(64, vs) && Narrow(vs)
    ensures Fits(64, vs) && CostFrom(64, START, vs) <= 72 * |vs|
    decreases |vs|
  {
    hide NextCoder, Cost, DataFits, EncodeStep, DataField, NarrowAt;
    StartOk(64);
    if |vs| > 0 {
      var n := |vs| - 1;
      var us, v := vs[..n], vs[n];
      assert vs == us + [v];
      assert Narrow(us) by {
        forall k: nat | k + 1 < |us|
          ensures NarrowAt(us, k)
        {
          NarrowOne(vs, k);
          assert us[k] == vs[k] && us[k + 1] == vs[k + 1];
          SameNarrow(vs, us, k);
        }
      }
      NarrowFits(us);
      NarrowField(us, v);
      FitsSnoc(us, v);
    }
  }

  lemma SameNarrow(vs: seq<u64>, us: seq<u64>, k: nat)
    requires k + 1 < |vs| && k + 1 < |us| && vs[k] == us[k] && vs[k + 1] == us[k + 1]
    requires NarrowAt(vs, k)
    ensures NarrowAt(us, k)
  {
  }

  lemma FitsSnoc(us: seq<u64>, v: u64)
    requires AreValues(64, us + [v]) && AreValues(64, us) && IsValue(64, v)
    requires Fits(64, us) && CostFrom(64, START, us) <= 72 * |us|
    requires |us| > 0 ==> var c := CoderAfter(64, START, us);
                          CaseOf(64, c, v) != First && DataField(64, c, v).len <= 57
    ensures Fits(64, us + [v]) && CostFrom(64, START, us + [v]) <= 72 * (|us| + 1)
  {
    hide NextCoder, CaseOf, DataField, DataFits, Cost, FitsFrom, CostFrom, IsValue, Pow2, CoderAfter, CoderOk;
    StartOk(64);
    var c, pos := CoderAfter(64, START, us), CostFrom(64, START, us);
    if |us| == 0 {
      FirstFits(us, v);
    } else {
      NarrowStep(c, v, pos);
    }
    FitsConcat(64, START, 0, us, [v]);
    CostConcat(64, START, us, [v]);
    SingleFits(c, v, pos);
    assert 0 + pos == pos;
  }

  lemma SingleFits(c: Coder, v: u64, pos: nat)
    requires CoderOk(64, c) && IsValue(64, v) && DataFits(64, c, v, pos)
    ensures FitsFrom(64, c, pos, [v]) && CostFrom(64, c, [v]) == Cost(64, c, v)
  {
    hide NextCoder, DataFits, Cost;
    assert [v][1..] == [];
    assert FitsFrom(64, NextCoder(64, c, v), pos + Cost(64, c, v), [v][1..]);
    assert CostFrom(64, NextCoder(64, c, v), [v][1..]) == 0;
  }

  lemma FirstFits(us: seq<u64>, v: u64)
    requires IsValue(64, v) && |us| == 0
    ensures CoderAfter(64, START, us) == START && CostFrom(64, START, us) == 0
    ensures DataFits(64, START, v, 0) && Cost(64, START, v) <= 72
  {
  }

  lemma NarrowStep(c: Coder, v: u64, pos: nat)
    requires CoderOk(64, c) && IsValue(64, v)
    requires CaseOf(64, c, v) != First && DataField(64, c, v).len <= 57
    ensures DataFits(64, c, v, pos) && Cost(64, c, v) <= 72
  {
    hide CaseOf, DataField;
  }

  lemma {:induction false} CostConcat(width: nat, c: Coder, vs: seq<u64>, ws: seq<u64>)
    requires CoderOk(width, c) && AreValues(width, vs) && AreValues(width, ws)
    ensures AreValues(width, vs + ws)
    ensures CostFrom(width, c, vs + ws) == CostFrom(width, c, vs) + CostFrom(width, CoderAfter(width, c, vs), ws)
    decreases |vs|
  {
    hide NextCoder, Cost;
    if |vs| == 0 {
      assert vs + ws == ws;
    } else {
      assert (vs + ws)[1..] == vs[1..] + ws;
      CostConcat(width, NextCoder(width, c, vs[0]), vs[1..], ws);
    }
  }

  // ----- Size -----

  lemma {:induction false} FloatCost(c: Coder, vs: seq<u64>)
    requires CoderOk(32, c) && AreValues(32, vs)
    ensures CostFrom(32, c, vs) <= 72 * |vs|
    decreases |vs|
  {
    hide NextCoder, DataField, CaseOf;
    if |vs| > 0 {
      FloatCost(NextCoder(32, c, vs[0]), vs[1..]);
    }
  }

  /** The stream has exactly the sum of the values' costs, so it fits in nine bytes a value. */
  lemma StreamSize(width: nat, vs: seq<u64>)
    requires IsWidth(width) && AreValues(width, vs) && (width == 64 ==> Narrow(vs))
    ensures |Encode(width, vs)| == CostFrom(width, START, vs)
    ensures |Pad(Encode(width, vs))| <= 8 * (9 * |vs|)
  {
    hide FitsFrom, CostFrom, EncodeFrom, Narrow, Pad;
    StartOk(width);
    if width == 64 {
      NarrowFits(vs);
    } else {
      FloatsFitFrom(START, 0, vs);
      FloatCost(START, vs);
    }
    EncodeAppends(width, START, [], vs);
  }

  /** A repeated value costs one bit. */
  lemma {:induction false} RepeatCost(width: nat, c: Coder, vs: seq<u64>)
    requires CoderOk(width, c) && AreValues(width, vs) && c.count > 0
    requires forall i :: 0 <= i < |vs| ==> vs[i] == c.prev
    ensures CostFrom(width, c, vs) == |vs|
    decreases |vs|
  {
    if |vs| > 0 {
      XorUndo(c.prev, vs[0]);
      RepeatCost(width, NextCoder(width, c, vs[0]), vs[1..]);
    }
  }

  lemma ConstantSize(width: nat, vs: seq<u64>)
    requires IsWidth(width) && AreValues(width, vs) && |vs| > 0
    requires forall i :: 0 <= i < |vs| ==> vs[i] == vs[0]
    ensures CostFrom(width, START, vs) == width + |vs| - 1
  {
    StartOk(width);
    RepeatCost(width, NextCoder(width, START, vs[0]), vs[1..]);
  }

  // ----- The end of the stream -----

  lemma RepeatStep(build: Build, width: nat, c: Coder, s: seq<bool>, pos: nat)
    requires CoderOk(width, c) && c.count > 0 && pos < |s| && !s[pos]
    ensures DecodeStep(build, width, c, s, pos) == Success(Decoded(c.prev, c.(count := c.count + 1), pos + 1))
  {
    assert s[pos..pos + 1] == [s[pos]] && [s[pos]][..0] == [];
    assert FromBits([]) == 0;
  }

  /**
    After the counted reads fewer than eight bits are left, all zero; each of them reads
    as one more repeat of the last value.
   */
  lemma {:induction false} PaddingRepeats(build: Build, width: nat, vs: seq<u64>, k: nat)
    requires IsWidth(width) && AreValues(width, vs) && Fits(width, vs) && |vs| > 0
    requires |Encode(width, vs)| + k <= |Pad(Encode(width, vs))|
    ensures k < 8
    ensures var c := CoderAfter(width, START, vs);
            Decode(build, width, Pad(Encode(width, vs)), |vs| + k)
            == Success(Run(vs + seq(k, i => vs[|vs| - 1]), c.(count := c.count + k), |Encode(width, vs)| + k))
    decreases k
  {
    hide FitsFrom, EncodeFrom, DecodeStep, NextCoder, Encode, DecodeFrom, CoderAfter, Fits, Pow2;
    StartOk(width);
    var s, end, last := Pad(Encode(width, vs)), |Encode(width, vs)|, vs[|vs| - 1];
    if k == 0 {
      Lockstep(build, width, vs, |vs|);
      assert vs[..|vs|] == vs && vs + seq(0, i => last) == vs;
    } else {
      PaddingRepeats(build, width, vs, k - 1);
      CoderPrev(width, vs);
      var c := CoderAfter(width, START, vs).(count := |vs| + k - 1);
      RepeatStep(build, width, c, s, end + k - 1);
      DecodeSnoc(build, width, START, s, 0, |vs| + k - 1);
      assert (vs + seq(k - 1, i => last)) + [last] == vs + seq(k, i => last);
    }
  }
}
