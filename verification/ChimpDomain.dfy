/**
  The exact domain of the 64-bit code: the sequences of doubles that come back together with
  all their prefixes, and those that no later values can save.
 */
module ChimpDomain {
  import opened Bits
  import opened BitStream
  import opened Types
  import opened Chimp
  import opened ChimpRoundTrip
  import opened ChimpLoss
  import opened ChimpOverlap

  /** The code of one value: its guard can only fail in two ways. */
  lemma Misfit(c: Coder, v: u64, pos: nat)
    requires CoderOk(64, c) && IsValue(64, v) && !DataFits(64, c, v, pos)
    requires c.count == 0 ==> pos == 0
    ensures CaseOf(64, c, v) in {Reuse, Close, Fresh} && c.count > 0
    ensures !Overflows(c, v, pos) ==>
              CaseOf(64, c, v) == Fresh && DataField(64, c, v).len == 64 && (pos + 15) % 8 == 0
  {
  }

  lemma PadWhole(s: seq<bool>)
    requires |s| % 8 == 0
    ensures Pad(s) == s
  {
    assert Zeros(0) == [];
  }

  /** `us` fits, and `v` is the first value that does not. */
  ghost predicate MisfitNext(us: seq<u64>, v: u64)
  {
    && AreValues(64, us) && IsValue(64, v) && Fits(64, us)
    && !DataFits(64, CoderAfter(64, START, us), v, |Encode(64, us)|)
  }

  lemma LostIfInPlace(build: Build, us: seq<u64>, v: u64, c: Coder, s: seq<bool>, a: seq<bool>)
    requires AreValues(64, us) && Fits(64, us)
    requires c == CoderAfter(64, START, us) && s == Encode(64, us) && s <= a
    requires !StepRecovers(build, c, a, |s|, v)
    ensures !Recovers(build, 64, a, us + [v])
  {
    hide EncodeStep, NextCoder, StepRecovers, DecodeStep, Recovers;
    DecodeFollows(build, 64, START, [], us, a);
    LastMissed(build, us, v, a);
  }

  lemma StepLost(build: Build, us: seq<u64>, v: u64, c: Coder, s: seq<bool>)
    requires AreValues(64, us) && Fits(64, us) && IsValue(64, v)
    requires c == CoderAfter(64, START, us) && s == Encode(64, us) && !DataFits(64, c, v, |s|)
    ensures |EncodeStep(64, c, v, s)| % 8 == 0
    ensures !Recovers(build, 64, EncodeStep(64, c, v, s), us + [v])
  {
    hide EncodeStep, NextCoder, DataFits, DataField, Fits, StepRecovers, Recovers, Overflows;
    var a := EncodeStep(64, c, v, s);
    Misfit(c, v, |s|);
    if Overflows(c, v, |s|) {
      OverflowStream(c, v, s);
      if k :| 0 <= k < |s| && s[k] != a[k] {
        var q := FirstDifference(s, a, k);
        LostEarly(build, us, v, c, s, q);
      } else {
        LostInPlace(build, c, v, s);
        LostIfInPlace(build, us, v, c, s, a);
      }
    } else {
      FreshStream(c, v, s);
      FreshLost(build, c, v, s, a);
      LostIfInPlace(build, us, v, c, s, a);
    }
  }

  /** If the last value is the first that does not fit, the round trip fails. */
  lemma LastValueLost(build: Build, us: seq<u64>, v: u64)
    requires AreValues(64, us + [v])
    ensures MisfitNext(us, v) ==> !RoundTrips(build, 64, us + [v])
  {
    hide EncodeStep, Fits, Recovers;
    if MisfitNext(us, v) {
      StepLost(build, us, v, CoderAfter(64, START, us), Encode(64, us));
      EncodeSnoc(64, START, [], us, v);
      PadWhole(Encode(64, us + [v]));
    }
  }

  lemma {:induction false} PutAllStays(t: seq<bool>, s: seq<bool>, fs: seq<Field>)
    requires t <= s && |t| % 8 == 0 && AreFields(fs)
    ensures t <= PutAll(s, fs)
    decreases |fs|
  {
    hide Put;
    if |fs| > 0 {
      PutKeeps(s, fs[0]);
      assert forall k :: 0 <= k < |t| ==> Put(s, fs[0])[k] == t[k];
      PutAllStays(t, Put(s, fs[0]), fs[1..]);
    }
  }

  /** Whole bytes are never touched again. */
  lemma {:induction false} WholeBytesStay(c: Coder, t: seq<bool>, s: seq<bool>, ws: seq<u64>)
    requires CoderOk(64, c) && AreValues(64, ws) && t <= s && |t| % 8 == 0
    ensures t <= EncodeFrom(64, c, s, ws)
    decreases |ws|
  {
    hide NextCoder, Fields, PutAll;
    if |ws| > 0 {
      PutAllStays(t, s, Fields(64, c, ws[0]));
      WholeBytesStay(NextCoder(64, c, ws[0]), t, EncodeStep(64, c, ws[0], s), ws[1..]);
    }
  }

  /** The first values of a sequence that comes back come back from the same stream. */
  lemma RecoversPrefix(build: Build, s: seq<bool>, vs: seq<u64>, ws: seq<u64>)
    requires Recovers(build, 64, s, vs + ws)
    ensures Recovers(build, 64, s, vs)
  {
    DecodeConcat(build, 64, START, s, 0, |vs|, |ws|);
    var first := Decode(build, 64, s, |vs|).value;
    var second := DecodeFrom(build, 64, first.coder, s, first.pos, |ws|).value;
    assert first.values + second.values == vs + ws;
    assert (first.values + second.values)[..|vs|] == first.values && (vs + ws)[..|vs|] == vs;
  }

  /** A value that does not fit, and whose loss later values cannot make up for. */
  ghost predicate LostForGood(us: seq<u64>, v: u64)
  {
    && MisfitNext(us, v)
    && var c, pos := CoderAfter(64, START, us), |Encode(64, us)|;
       CaseOf(64, c, v) == Fresh || OverlapClear(c, v, pos)
  }

  /**
    If the first value that does not fit has a fresh window, or no one bit of its field goes
    into the overlap, the sequence does not come back, whatever values follow.
   */
  lemma NeverRecovered(build: Build, us: seq<u64>, v: u64, ws: seq<u64>, vs: seq<u64>)
    requires vs == us + [v] + ws && AreValues(64, vs)
    ensures LostForGood(us, v) ==> !RoundTrips(build, 64, vs)
  {
    hide EncodeStep, NextCoder, Fits, Recovers, DataFits, Overflows, OverlapClear, StepRecovers, CaseOf, DataField;
    if LostForGood(us, v) {
      assert ws == vs[|us| + 1..];
      StartOk(64);
      var c, s := CoderAfter(64, START, us), Encode(64, us);
      var a := EncodeStep(64, c, v, s);
      StepLost(build, us, v, c, s);
      EncodeSnoc(64, START, [], us, v);
      EncodeFromConcat(64, START, [], us + [v], ws);
      WholeBytesStay(CoderAfter(64, START, us + [v]), a, a, ws);
      var r := Pad(Encode(64, us + [v] + ws));
      assert a <= r;
      if CaseOf(64, c, v) == Fresh {
        FreshLost(build, c, v, s, r);
      } else {
        Misfit(c, v, |s|);
        LostWithoutOverlap(build, c, v, s, r);
      }
      LostIfInPlace(build, us, v, c, s, r);
      if Recovers(build, 64, r, us + [v] + ws) {
        RecoversPrefix(build, r, us + [v], ws);
      }
    }
  }

  /** The first value that does not fit. */
  lemma {:induction false} FirstMisfit(vs: seq<u64>) returns (k: nat)
    requires AreValues(64, vs) && !Fits(64, vs)
    ensures k < |vs| && MisfitNext(vs[..k], vs[k])
    decreases |vs|
  {
    hide NextCoder, DataFits, Cost, EncodeStep;
    StartOk(64);
    var n := |vs| - 1;
    var us, v := vs[..n], vs[n];
    assert vs == us + [v];
    if Fits(64, us) {
      k := n;
      FitsConcat(64, START, 0, us, [v]);
      EncodeAppends(64, START, [], us);
      assert [v][1..] == [];
    } else {
      k := FirstMisfit(us);
      assert us[..k] == vs[..k];
    }
  }

  /**
    The exact domain of the double codec: a sequence and all its prefixes survive the
    round trip exactly if every data field fits where the encoder puts it.
   */
  lemma LosslessExactly(build: Build, vs: seq<u64>)
    requires AreValues(64, vs)
    ensures Fits(64, vs) <==> forall k :: 0 <= k <= |vs| ==> RoundTrips(build, 64, vs[..k])
  {
    hide Fits, RoundTrips, MisfitNext;
    if Fits(64, vs) {
      forall k | 0 <= k <= |vs|
        ensures RoundTrips(build, 64, vs[..k])
      {
        PrefixRoundTrips(build, vs, k);
      }
    } else {
      var k := FirstMisfit(vs);
      assert vs[..k + 1] == vs[..k] + [vs[k]];
      LastValueLost(build, vs[..k], vs[k]);
    }
  }

  lemma PrefixRoundTrips(build: Build, vs: seq<u64>, k: nat)
    requires AreValues(64, vs) && Fits(64, vs) && k <= |vs|
    ensures RoundTrips(build, 64, vs[..k])
  {
    hide Fits, RoundTrips;
    assert vs == vs[..k] + vs[k..];
    PrefixStream(64, vs[..k], vs[k..]);
    RoundTrip(build, 64, vs[..k]);
  }

  lemma StartWithZero()
    ensures AreValues(64, [0]) && Fits(64, [0])
    ensures CoderAfter(64, START, [0]) == Coder(1, 0, UNSET, 0)
    ensures Encode(64, [0]) == ToBits(0, 64)
  {
    StartOk(64);
    assert [0][1..] == [];
    var f := Field(0, 64);
    PutAllSnoc([], [], f);
    assert Fields(64, START, 0) == [f];
    PutAppends([], f);
    assert EncodeStep(64, START, 0, []) == FieldBits(f);
  }

  lemma FullWindow(v: u64)
    requires v >= 0x8000_0000_0000_0000 && v % 2 == 1
    ensures var c := Coder(1, 0, UNSET, 0);
            IsValue(64, v) && CaseOf(64, c, v) == Fresh && DataField(64, c, v).len == 64
  {
    Pow2Of64();
    XorUndo(0, v);
    XorCancel(v, 0);
    XorZero(v);
    BitLengthSpec(v);
    BitLengthBound(v, 64);
    if BitLength(v) < 64 {
      Pow2Monotone(BitLength(v), 63);
    }
  }

  /**
    Doubles that do not survive: after +0.0, any negative value whose last mantissa bit is
    set, whatever values follow.
   */
  lemma LossyPair(build: Build, vs: seq<u64>)
    requires |vs| >= 2 && vs[0] == 0 && vs[1] >= 0x8000_0000_0000_0000 && vs[1] % 2 == 1
    requires AreValues(64, vs)
    ensures !RoundTrips(build, 64, vs)
  {
    hide CaseOf, DataField, Fits, Encode, CoderAfter, Recovers, RoundTrips;
    FullWindow(vs[1]);
    StartWithZero();
    NeverRecovered(build, [0], vs[1], vs[2..], vs);
  }
}
