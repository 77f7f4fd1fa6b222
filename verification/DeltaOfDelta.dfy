/**
  Second-order differencing: the first value, the first difference, and then differences of
  differences, over 64-bit integers that overflow as the build says.
 */
module DeltaOfDelta {
  import opened Bits
  import opened Integers
  import opened Types
  import opened Wrappers

  // ----- One value -----

  /** What both sides remember: the last value, the last difference, how many values. */
  datatype Track = Track(value: i64, delta: i64, count: u32)

  const START := Track(0, 0, 0)

  /** `count += 1`. */
  function CountUp(build: Build, count: u32): (r: Result<u32, Error>)
  {
    if count < 0xFFFF_FFFF then Success(count + 1)
    else if build.Checked? then Failure(Overflow)
    else Success(0)
  }

  /** It counts modulo 2^32, or stops. */
  lemma CountUpIs(build: Build, count: u32)
    ensures CountUp(build, count).Failure? <==> build.Checked? && count + 1 == 0x1_0000_0000
    ensures CountUp(build, count).Success? ==>
      CountUp(build, count).value == (count + 1) % 0x1_0000_0000
  {
  }

  /** The number that the encoder writes for `v`. */
  function EncodeStep(build: Build, t: Track, v: i64): (r: Result<(i64, Track), Error>)
  {
    if t.count == 0 then
      Success((v, Track(v, t.delta, 1)))
    else
      var delta :- Machine(build, v - t.value);
      if t.count == 1 then
        Success((delta, Track(v, delta, 2)))
      else
        var second :- Machine(build, delta - t.delta);
        var count :- CountUp(build, t.count);
        Success((second, Track(v, delta, count)))
  }

  /** The decoder's state, and so its value, after it read the number `x`. */
  function DecodeStep(build: Build, t: Track, x: i64): (r: Result<Track, Error>)
  {
    if t.count == 0 then
      Success(Track(x, t.delta, 1))
    else if t.count == 1 then
      var value :- Machine(build, t.value + x);
      Success(Track(value, x, 2))
    else
      var delta :- Machine(build, t.delta + x);
      var value :- Machine(build, t.value + delta);
      var count :- CountUp(build, t.count);
      Success(Track(value, delta, count))
  }

  /** From any state, each side undoes the other, overflow included. */
  lemma StepInverse(build: Build, t: Track, v: i64, x: i64, next: Track)
    ensures EncodeStep(build, t, v) == Success((x, next))
       <==> DecodeStep(build, t, x) == Success(next) && next.value == v
  {
    hide Machine, Wrap, CountUp;
    if t.count == 1 {
      MachineInverse(build, t.value, v, x);
    } else if t.count > 1 {
      var forth, back := Machine(build, v - t.value), Machine(build, t.delta + x);
      if forth.Success? {
        MachineInverse(build, t.value, v, forth.value);
        MachineInverse(build, t.delta, forth.value, x);
      }
      if back.Success? {
        MachineInverse(build, t.value, v, back.value);
        MachineInverse(build, t.delta, back.value, x);
      }
    }
  }

  lemma MachineInverse(build: Build, a: i64, b: i64, d: i64)
    ensures Machine(build, b - a) == Success(d) <==> Machine(build, a + d) == Success(b)
  {
  }

  // ----- Whole runs -----

  datatype Run = Run(numbers: seq<i64>, track: Track)

  /** The numbers that the encoder writes for the values. */
  function Differences(build: Build, values: seq<i64>): (r: Result<Run, Error>)
    ensures r.Success? ==> |r.value.numbers| == |values|
    decreases |values|
  {
    if |values| == 0 then Success(Run([], START))
    else
      var run :- Differences(build, values[..|values| - 1]);
      var step :- EncodeStep(build, run.track, values[|values| - 1]);
      Success(Run(run.numbers + [step.0], step.1))
  }

  /** The values that the decoder returns for the numbers. */
  function Integrate(build: Build, numbers: seq<i64>): (r: Result<Run, Error>)
    ensures r.Success? ==> |r.value.numbers| == |numbers|
    decreases |numbers|
  {
    if |numbers| == 0 then Success(Run([], START))
    else
      var run :- Integrate(build, numbers[..|numbers| - 1]);
      var track :- DecodeStep(build, run.track, numbers[|numbers| - 1]);
      Success(Run(run.numbers + [track.value], track))
  }

  /** Differencing and integrating are inverse, and their states move in lockstep. */
  lemma {:induction false} Inverse(build: Build, values: seq<i64>, numbers: seq<i64>, t: Track)
    ensures Differences(build, values) == Success(Run(numbers, t))
       <==> Integrate(build, numbers) == Success(Run(values, t))
    decreases |values|
  {
    hide EncodeStep, DecodeStep;
    if |values| == |numbers| && |values| > 0 {
      var n := |values| - 1;
      assert values[..n] + [values[n]] == values && numbers[..n] + [numbers[n]] == numbers;
      if Differences(build, values) == Success(Run(numbers, t)) {
        var run := Differences(build, values[..n]).value;
        Inverse(build, values[..n], numbers[..n], run.track);
        StepInverse(build, run.track, values[n], numbers[n], t);
      }
      if Integrate(build, numbers) == Success(Run(values, t)) {
        var run := Integrate(build, numbers[..n]).value;
        Inverse(build, values[..n], numbers[..n], run.track);
        StepInverse(build, run.track, values[n], numbers[n], t);
      }
    }
  }

  // ----- What the numbers are -----

  function Step(values: seq<i64>, k: nat): (d: int)
    requires 1 <= k < |values|
  {
    values[k] as int - values[k - 1] as int
  }

  function Second(values: seq<i64>, k: nat): (x: int)
    requires 2 <= k < |values|
  {
    Step(values, k) - Step(values, k - 1)
  }

  /** No overflow stops the encoder. */
  predicate Encodable(build: Build, values: seq<i64>) {
    build.Checked? ==>
      && (forall k :: 1 <= k < |values| ==> IsI64(Step(values, k)))
      && (forall k :: 2 <= k < |values| ==> IsI64(Second(values, k)))
  }

  ghost predicate AreDifferences(numbers: seq<i64>, values: seq<i64>)
  {
    && |numbers| == |values|
    && (|values| > 0 ==> numbers[0] == values[0])
    && (|values| > 1 ==> numbers[1] == Wrap(Step(values, 1)))
    && (forall k :: 2 <= k < |values| ==> numbers[k] == Wrap(Second(values, k)))
  }

  ghost predicate Tracks(t: Track, values: seq<i64>)
  {
    && t.count == |values|
    && (|values| > 0 ==> t.value == values[|values| - 1])
    && (|values| > 1 ==> t.delta == Wrap(Step(values, |values| - 1)))
  }

  /** The last value's number, from what the encoder remembers of the values before it. */
  lemma LastNumber(build: Build, values: seq<i64>, t: Track)
    requires 0 < |values| < 0x1_0000_0000 && Tracks(t, values[..|values| - 1])
    requires Encodable(build, values[..|values| - 1])
    ensures var n, step := |values| - 1, EncodeStep(build, t, values[|values| - 1]);
            && (step.Success? <==> Encodable(build, values))
            && (step.Success? ==>
                  && Tracks(step.value.1, values)
                  && step.value.0 == if n == 0 then values[0]
                                     else if n == 1 then Wrap(Step(values, 1)) else Wrap(Second(values, n)))
  {
    var n := |values| - 1;
    var init := values[..n];
    EncodableMore(build, values);
    hide Wrap, Machine, Encodable;
    if n >= 1 {
      WrapDifference(Step(values, n), if n >= 2 then Step(init, n - 1) else 0);
    }
  }

  /** Differences in closed form, and exactly when they exist. */
  lemma {:induction false} DifferencesAre(build: Build, values: seq<i64>)
    requires |values| < 0x1_0000_0000
    ensures Differences(build, values).Success? <==> Encodable(build, values)
    ensures Differences(build, values).Success? ==>
      && AreDifferences(Differences(build, values).value.numbers, values)
      && Tracks(Differences(build, values).value.track, values)
    decreases |values|
  {
    hide Wrap;
    if |values| == 0 {
      return;
    }
    hide Encodable, EncodeStep, Tracks;
    var n := |values| - 1;
    DifferencesAre(build, values[..n]);
    EncodableMore(build, values);
    var run := Differences(build, values[..n]);
    if run.Success? {
      LastNumber(build, values, run.value.track);
    }
  }

  lemma EncodableMore(build: Build, values: seq<i64>)
    requires |values| > 0
    ensures var n := |values| - 1;
            && (forall k :: 1 <= k < n ==> Step(values[..n], k) == Step(values, k))
            && (forall k :: 2 <= k < n ==> Second(values[..n], k) == Second(values, k))
            && (Encodable(build, values) <==>
                && Encodable(build, values[..n])
                && (build.Checked? && n >= 1 ==> IsI64(Step(values, n)))
                && (build.Checked? && n >= 2 ==> IsI64(Second(values, n))))
  {
    var n := |values| - 1;
    var init := values[..n];
    assert forall k :: 1 <= k < n ==> Step(init, k) == Step(values, k);
    assert forall k :: 2 <= k < n ==> Second(init, k) == Second(values, k);
  }

  lemma WrapDifference(a: int, b: int)
    ensures Wrap(Wrap(a) - Wrap(b)) == Wrap(a - b)
    ensures IsI64(a) ==> Wrap(a) == a
    ensures IsI64(b) ==> Wrap(b) == b
  {
  }

  lemma WrapSum(a: int, b: int)
    ensures Wrap(Wrap(a) + Wrap(b)) == Wrap(a + b)
  {
  }

  // ----- Closed form of the decoder -----

  /** The sum of the second differences up to `k`. */
  function Sum(numbers: seq<i64>, k: nat): (s: int)
    requires k < |numbers|
  {
    if k < 2 then 0 else Sum(numbers, k - 1) + numbers[k]
  }

  /** The sum of those sums. */
  function DoubleSum(numbers: seq<i64>, k: nat): (s: int)
    requires k < |numbers|
  {
    if k < 2 then 0 else DoubleSum(numbers, k - 1) + Sum(numbers, k)
  }

  /** `first + k * delta + double sum`, for `k > 0`. */
  function Closed(numbers: seq<i64>, k: nat): (v: int)
    requires k < |numbers|
  {
    numbers[0] + (if k == 0 then 0 else k * numbers[1]) + DoubleSum(numbers, k)
  }

  lemma ClosedStep(numbers: seq<i64>, k: nat)
    requires 0 < k < |numbers|
    ensures Closed(numbers, k) == Closed(numbers, k - 1) + (numbers[1] + Sum(numbers, k))
  {
    assert k * numbers[1] == (k - 1) * numbers[1] + numbers[1];
  }

  lemma {:induction false} SumOfPrefix(numbers: seq<i64>, n: nat, k: nat)
    requires k < n <= |numbers|
    ensures Sum(numbers[..n], k) == Sum(numbers, k)
    ensures Closed(numbers[..n], k) == Closed(numbers, k)
    ensures DoubleSum(numbers[..n], k) == DoubleSum(numbers, k)
  {
    if k >= 2 {
      SumOfPrefix(numbers, n, k - 1);
    }
  }

  /** The k-th decoded value: exact, or its low 64 bits if an addition wrapped. */
  lemma {:induction false} ClosedForm(build: Build, numbers: seq<i64>)
    requires |numbers| < 0x1_0000_0000 && Integrate(build, numbers).Success?
    ensures var values := Integrate(build, numbers).value.numbers;
            forall k :: 0 <= k < |numbers| ==> values[k] == Wrap(Closed(numbers, k))
    ensures var t := Integrate(build, numbers).value.track;
            && t.count == |numbers|
            && (|numbers| > 0 ==> t.value == Wrap(Closed(numbers, |numbers| - 1)))
            && (|numbers| > 1 ==> t.delta == Wrap(numbers[1] + Sum(numbers, |numbers| - 1)))
    decreases |numbers|
  {
    hide Wrap, Closed, Machine;
    if |numbers| > 0 {
      var n := |numbers| - 1;
      ClosedForm(build, numbers[..n]);
      forall k | 0 <= k < n
        ensures Closed(numbers[..n], k) == Closed(numbers, k) && Sum(numbers[..n], k) == Sum(numbers, k)
      {
        SumOfPrefix(numbers, n, k);
      }
      if n > 0 {
        ClosedStep(numbers, n);
        WrapSum(Closed(numbers, n - 1), numbers[1] + Sum(numbers, n));
        WrapSum(numbers[1] + Sum(numbers, n - 1), numbers[n]);
        WrapDifference(numbers[n], numbers[1]);
      } else {
        WrapDifference(numbers[0], 0);
        assert Closed(numbers, 0) == numbers[0] by { FirstClosed(numbers); }
      }
    }
  }

  lemma FirstClosed(numbers: seq<i64>)
    requires |numbers| > 0
    ensures Closed(numbers, 0) == numbers[0]
  {
  }

  /** An arithmetic progression of 64-bit integers. */
  predicate Progression(values: seq<i64>) {
    forall k :: 2 <= k < |values| ==> Wrap(Step(values, k)) == Wrap(Step(values, 1))
  }

  /** All second differences are zero exactly for an arithmetic progression. */
  lemma ZeroSecondDifferences(build: Build, values: seq<i64>)
    requires |values| < 0x1_0000_0000 && Encodable(build, values)
    ensures Differences(build, values).Success?
    ensures (forall k :: 2 <= k < |values| ==> Differences(build, values).value.numbers[k] == 0)
       <==> Progression(values)
  {
    hide Wrap;
    DifferencesAre(build, values);
    var numbers := Differences(build, values).value.numbers;
    forall k | 2 <= k < |values|
      ensures numbers[k] == 0 <==> Wrap(Step(values, k)) == Wrap(Step(values, k - 1))
    {
      SameStep(Step(values, k), Step(values, k - 1));
    }
    if forall k :: 2 <= k < |values| ==> numbers[k] == 0 {
      forall k | 2 <= k < |values|
        ensures Wrap(Step(values, k)) == Wrap(Step(values, 1))
      {
        EqualSteps(values, k);
      }
    }
  }

  lemma SameStep(a: int, b: int)
    ensures Wrap(a - b) == 0 <==> Wrap(a) == Wrap(b)
  {
  }

  lemma {:induction false} EqualSteps(values: seq<i64>, k: nat)
    requires 1 <= k < |values|
    requires forall i :: 2 <= i <= k ==>
      Wrap(Step(values, i)) == Wrap(Step(values, i - 1))
    ensures Wrap(Step(values, k)) == Wrap(Step(values, 1))
  {
    hide Wrap;
    if k > 1 {
      EqualSteps(values, k - 1);
    }
  }
}
