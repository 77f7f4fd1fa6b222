/**
  Page statistics and their merging.  For any list of points there is one summary, defined
  directly; updating and merging compute it.
 */
module Statistics {
  import opened Integers
  import opened Types
  import opened Wrappers

  const MAX_COUNT: i32 := 0x7FFF_FFFF
  const MIN_I32: i32 := -0x8000_0000
  const MAX_I64: i64 := 0x7FFF_FFFF_FFFF_FFFF
  const MIN_I64: i64 := -0x8000_0000_0000_0000

  datatype Point<T> = Point(time: i64, value: T)

  // ----- The summary of a list -----

  /** The least of some numbers, or `top` if there are none. */
  function Least(xs: seq<int>, top: int): (m: int)
  {
    if |xs| == 0 then top
    else Lower(Least(xs[..|xs| - 1], top), xs[|xs| - 1])
  }

  function Greatest(xs: seq<int>, bottom: int): (m: int)
  {
    if |xs| == 0 then bottom
    else Higher(Greatest(xs[..|xs| - 1], bottom), xs[|xs| - 1])
  }

  function Lower(a: int, b: int): int {
    if a <= b then a else b
  }

  function Higher(a: int, b: int): int {
    if a >= b then a else b
  }

  function Total(xs: seq<int>): (s: int)
  {
    if |xs| == 0 then 0 else Total(xs[..|xs| - 1]) + xs[|xs| - 1]
  }

  lemma TotalOne(x: int)
    ensures Total([x]) == x
  {
    assert [x][..0] == [];
  }

  function Times<T>(ps: seq<Point<T>>): (r: seq<int>)
    ensures |r| == |ps| && forall i :: 0 <= i < |ps| ==> r[i] == ps[i].time
  {
    seq(|ps|, i requires 0 <= i < |ps| => ps[i].time)
  }

  /** Bounds are bounds, and they are attained. */
  lemma {:induction false} BoundsAttained(xs: seq<int>, top: int, bottom: int)
    requires |xs| > 0 && forall i :: 0 <= i < |xs| ==> bottom <= xs[i] <= top
    ensures Least(xs, top) in xs && Greatest(xs, bottom) in xs
    ensures forall i :: 0 <= i < |xs| ==> Least(xs, top) <= xs[i] <= Greatest(xs, bottom)
    decreases |xs|
  {
    var init := xs[..|xs| - 1];
    assert xs == init + [xs[|xs| - 1]];
    if |init| > 0 {
      BoundsAttained(init, top, bottom);
    }
  }

  lemma {:induction false} Bounded(xs: seq<int>, top: int, bottom: int)
    requires bottom <= top && forall i :: 0 <= i < |xs| ==> bottom <= xs[i] <= top
    ensures bottom <= Least(xs, top) <= top && bottom <= Greatest(xs, bottom) <= top
    decreases |xs|
  {
    if |xs| > 0 {
      Bounded(xs[..|xs| - 1], top, bottom);
    }
  }

  /** Sums and bounds of two lists together. */
  lemma {:induction false} Together(xs: seq<int>, ys: seq<int>, top: int, bottom: int)
    requires forall i :: 0 <= i < |xs| ==> bottom <= xs[i] <= top
    requires forall i :: 0 <= i < |ys| ==> bottom <= ys[i] <= top
    requires bottom <= top
    ensures Total(xs + ys) == Total(xs) + Total(ys)
    ensures Least(xs + ys, top) == Lower(Least(xs, top), Least(ys, top))
    ensures Greatest(xs + ys, bottom) == Higher(Greatest(xs, bottom), Greatest(ys, bottom))
    decreases |ys|
  {
    if |ys| == 0 {
      assert xs + ys == xs;
      Bounded(xs, top, bottom);
    } else {
      var n := |ys| - 1;
      assert (xs + ys)[..|xs| + n] == xs + ys[..n];
      Together(xs, ys[..n], top, bottom);
    }
  }

  /** A sum of 32-bit integers stays below 2^62 as long as the count fits in 32 bits. */
  lemma {:induction false} TotalBound(xs: seq<int>)
    requires forall i :: 0 <= i < |xs| ==> -0x8000_0000 <= xs[i] <= 0x8000_0000
    ensures -0x8000_0000 * |xs| <= Total(xs) <= 0x8000_0000 * |xs|
    ensures |xs| <= MAX_COUNT ==> -0x4000_0000_0000_0000 < Total(xs) < 0x4000_0000_0000_0000
    decreases |xs|
  {
    if |xs| > 0 {
      TotalBound(xs[..|xs| - 1]);
    }
  }

  // ----- Counts and times -----

  datatype BaseStats = BaseStats(count: i32, startTime: i64, endTime: i64)

  const NO_POINTS := BaseStats(0, MAX_I64, MIN_I64)

  /** The machine's 32-bit result for `x`. */
  function Machine32(build: Build, x: int): (r: Result<i32, Error>)
  {
    if -0x8000_0000 <= x < 0x8000_0000 then Success(x)
    else if build.Checked? then Failure(Overflow)
    else Success((x + 0x8000_0000) % 0x1_0000_0000 - 0x8000_0000)
  }

  lemma Machine32Is(build: Build, x: int)
    ensures Machine32(build, x).Failure? <==> build.Checked? && !(-0x8000_0000 <= x < 0x8000_0000)
    ensures Machine32(build, x).Success? ==> (Machine32(build, x).value - x) % 0x1_0000_0000 == 0
  {
  }

  function BaseOf<T>(ps: seq<Point<T>>): (b: BaseStats)
    requires |ps| <= MAX_COUNT
  {
    Bounded(Times(ps), MAX_I64, MIN_I64);
    BaseStats(|ps|, Least(Times(ps), MAX_I64), Greatest(Times(ps), MIN_I64))
  }

  /** The number of points, and the first and last of their times. */
  lemma BaseMeans<T>(ps: seq<Point<T>>)
    requires 0 < |ps| <= MAX_COUNT
    ensures var b := BaseOf(ps);
            && b.count == |ps|
            && (exists i :: 0 <= i < |ps| && ps[i].time == b.startTime)
            && (exists i :: 0 <= i < |ps| && ps[i].time == b.endTime)
            && (forall i :: 0 <= i < |ps| ==> b.startTime <= ps[i].time <= b.endTime)
  {
    BoundsAttained(Times(ps), MAX_I64, MIN_I64);
    var b := BaseOf(ps);
    assert b.startTime in Times(ps) && b.endTime in Times(ps);
    assert forall i :: 0 <= i < |ps| ==> b.startTime <= Times(ps)[i] <= b.endTime;
  }

  function UpdateTime(build: Build, b: BaseStats, time: i64): (r: Result<BaseStats, Error>)
  {
    var count :- Machine32(build, b.count + 1);
    Success(BaseStats(count, if time < b.startTime then time else b.startTime,
                      if time > b.endTime then time else b.endTime))
  }

  function MergeBase(build: Build, a: BaseStats, b: BaseStats): (r: Result<BaseStats, Error>)
  {
    var count :- Machine32(build, a.count + b.count);
    Success(BaseStats(count, Lower(a.startTime, b.startTime), Higher(a.endTime, b.endTime)))
  }

  lemma UpdateTimeIs<T>(build: Build, ps: seq<Point<T>>, p: Point<T>)
    requires |ps| <= MAX_COUNT
    ensures |ps| < MAX_COUNT ==> UpdateTime(build, BaseOf(ps), p.time) == Success(BaseOf(ps + [p]))
    ensures |ps| == MAX_COUNT && build.Checked? ==> UpdateTime(build, BaseOf(ps), p.time) == Failure(Overflow)
  {
    if |ps| < MAX_COUNT {
      assert Times(ps + [p])[..|ps|] == Times(ps);
    }
  }

  lemma MergeBaseIs<T>(build: Build, xs: seq<Point<T>>, ys: seq<Point<T>>)
    requires |xs| <= MAX_COUNT && |ys| <= MAX_COUNT
    ensures |xs| + |ys| <= MAX_COUNT ==>
      MergeBase(build, BaseOf(xs), BaseOf(ys)) == Success(BaseOf(xs + ys))
    ensures |xs| + |ys| > MAX_COUNT && build.Checked? ==>
      MergeBase(build, BaseOf(xs), BaseOf(ys)) == Failure(Overflow)
  {
    assert Times(xs + ys) == Times(xs) + Times(ys);
    Together(Times(xs), Times(ys), MAX_I64, MIN_I64);
  }

  // ----- 32-bit integers -----

  datatype Int32Summary =
    Int32Summary(base: BaseStats, sum: i64, min: i32, max: i32, first: i32, last: i32)

  const NO_INTS := Int32Summary(NO_POINTS, 0, MAX_COUNT, MIN_I32, 0, 0)

  function Ints(ps: seq<Point<i32>>): (r: seq<int>)
    ensures |r| == |ps| && forall i :: 0 <= i < |ps| ==> r[i] == ps[i].value
  {
    seq(|ps|, i requires 0 <= i < |ps| => ps[i].value)
  }

  function FirstOf<T>(ps: seq<Point<T>>, default: T): T {
    if |ps| == 0 then default else ps[0].value
  }

  function LastOf<T>(ps: seq<Point<T>>, default: T): T {
    if |ps| == 0 then default else ps[|ps| - 1].value
  }

  function Int32Of(ps: seq<Point<i32>>): (s: Int32Summary)
    requires |ps| <= MAX_COUNT
  {
    TotalBound(Ints(ps));
    Bounded(Ints(ps), MAX_COUNT, MIN_I32);
    Int32Summary(BaseOf(ps), Total(Ints(ps)), Least(Ints(ps), MAX_COUNT), Greatest(Ints(ps), MIN_I32),
                 FirstOf(ps, 0), LastOf(ps, 0))
  }

  /** The least and the greatest value, and the first and the last to arrive. */
  lemma Int32Means(ps: seq<Point<i32>>)
    requires 0 < |ps| <= MAX_COUNT
    ensures var s := Int32Of(ps);
            && s.base == BaseOf(ps) && s.first == ps[0].value && s.last == ps[|ps| - 1].value
            && (exists i :: 0 <= i < |ps| && ps[i].value == s.min)
            && (exists i :: 0 <= i < |ps| && ps[i].value == s.max)
            && (forall i :: 0 <= i < |ps| ==> s.min <= ps[i].value <= s.max)
  {
    BoundsAttained(Ints(ps), MAX_COUNT, MIN_I32);
    var s := Int32Of(ps);
    assert s.min in Ints(ps) && s.max in Ints(ps);
    assert forall i :: 0 <= i < |ps| ==> s.min <= Ints(ps)[i] <= s.max;
  }

  /** The sum: a single value's is that value, and sums add up. */
  lemma Int32Sums(p: Point<i32>, xs: seq<Point<i32>>, ys: seq<Point<i32>>)
    requires |xs| + |ys| <= MAX_COUNT
    ensures Int32Of([p]).sum == p.value
    ensures Int32Of(xs + ys).sum == Int32Of(xs).sum + Int32Of(ys).sum
  {
    hide BaseOf;
    TotalOne(p.value);
    assert Ints([p]) == [p.value];
    assert Ints(xs + ys) == Ints(xs) + Ints(ys);
    Together(Ints(xs), Ints(ys), MAX_COUNT, MIN_I32);
  }

  function UpdateInt32(build: Build, s: Int32Summary, p: Point<i32>): (r: Result<Int32Summary, Error>)
  {
    var sum :- Machine(build, s.sum + p.value);
    var base :- UpdateTime(build, s.base, p.time);
    Success(Int32Summary(base, sum, Lower(s.min, p.value), Higher(s.max, p.value),
                         if s.base.count == 0 then p.value else s.first, p.value))
  }

  function MergeInt32(build: Build, a: Int32Summary, b: Int32Summary): (r: Result<Int32Summary, Error>)
  {
    if b.base.count == 0 then Success(a)
    else if a.base.count == 0 then Success(b)
    else
      var base :- MergeBase(build, a.base, b.base);
      var sum :- Machine(build, a.sum + b.sum);
      Success(Int32Summary(base, sum, Lower(a.min, b.min), Higher(a.max, b.max), a.first, b.last))
  }

  /** An update is one point more; it fails only where the count overflows. */
  lemma UpdateInt32Is(build: Build, ps: seq<Point<i32>>, p: Point<i32>)
    requires |ps| <= MAX_COUNT
    ensures |ps| < MAX_COUNT ==> UpdateInt32(build, Int32Of(ps), p) == Success(Int32Of(ps + [p]))
    ensures |ps| == MAX_COUNT && build.Checked? ==> UpdateInt32(build, Int32Of(ps), p) == Failure(Overflow)
  {
    hide BaseOf, UpdateTime;
    UpdateTimeIs(build, ps, p);
    TotalBound(Ints(ps));
    BaseCount(ps);
    if |ps| < MAX_COUNT {
      assert Ints(ps + [p])[..|ps|] == Ints(ps);
    }
  }

  lemma BaseCount<T>(ps: seq<Point<T>>)
    requires |ps| <= MAX_COUNT
    ensures BaseOf(ps).count == |ps|
  {
  }

  /** Merging is concatenation; it fails only where the count overflows. */
  lemma MergeInt32Is(build: Build, xs: seq<Point<i32>>, ys: seq<Point<i32>>)
    requires |xs| <= MAX_COUNT && |ys| <= MAX_COUNT
    ensures |xs| + |ys| <= MAX_COUNT ==>
      MergeInt32(build, Int32Of(xs), Int32Of(ys)) == Success(Int32Of(xs + ys))
    ensures |xs| + |ys| > MAX_COUNT && build.Checked? ==>
      MergeInt32(build, Int32Of(xs), Int32Of(ys)) == Failure(Overflow)
  {
    hide BaseOf, MergeBase, Total, Least, Greatest;
    BaseCount(xs);
    BaseCount(ys);
    if |ys| == 0 {
      assert xs + ys == xs;
    } else if |xs| == 0 {
      assert xs + ys == ys;
    } else {
      MergeBaseIs(build, xs, ys);
      assert Ints(xs + ys) == Ints(xs) + Ints(ys);
      Together(Ints(xs), Ints(ys), MAX_COUNT, MIN_I32);
      if |xs| + |ys| <= MAX_COUNT {
        TotalBound(Ints(xs + ys));
      }
    }
  }

  lemma EmptySummaries()
    ensures Int32Of([]) == NO_INTS && BooleanOf([]) == NO_BOOLEANS && StringOf([]) == NO_STRINGS
  {
  }

  /** Pages can be merged in any grouping, and an empty page changes nothing. */
  lemma MergeInt32Monoid(build: Build, xs: seq<Point<i32>>, ys: seq<Point<i32>>, zs: seq<Point<i32>>)
    requires |xs| + |ys| + |zs| <= MAX_COUNT
    ensures MergeInt32(build, Int32Of(xs), Int32Of(ys)).Success?
    ensures MergeInt32(build, Int32Of(ys), Int32Of(zs)).Success?
    ensures MergeInt32(build, MergeInt32(build, Int32Of(xs), Int32Of(ys)).value, Int32Of(zs))
         == MergeInt32(build, Int32Of(xs), MergeInt32(build, Int32Of(ys), Int32Of(zs)).value)
    ensures MergeInt32(build, NO_INTS, Int32Of(xs)) == Success(Int32Of(xs))
         == MergeInt32(build, Int32Of(xs), NO_INTS)
  {
    hide Int32Of, MergeInt32;
    EmptySummaries();
    MergeInt32Is(build, xs, ys);
    MergeInt32Is(build, ys, zs);
    MergeInt32Is(build, xs + ys, zs);
    MergeInt32Is(build, xs, ys + zs);
    MergeInt32Is(build, [], xs);
    MergeInt32Is(build, xs, []);
    assert (xs + ys) + zs == xs + (ys + zs);
    assert [] + xs == xs == xs + [];
  }

  /** Updates one after the other. */
  function UpdateAllInt32(build: Build, s: Int32Summary, ps: seq<Point<i32>>): (r: Result<Int32Summary, Error>)
    decreases |ps|
  {
    if |ps| == 0 then Success(s)
    else
      var t :- UpdateAllInt32(build, s, ps[..|ps| - 1]);
      UpdateInt32(build, t, ps[|ps| - 1])
  }

  /** Statistics of a list are the statistics of its parts, whether updated or merged. */
  lemma {:induction false} UpdateAllInt32Is(build: Build, xs: seq<Point<i32>>, ys: seq<Point<i32>>)
    requires |xs| + |ys| <= MAX_COUNT
    ensures UpdateAllInt32(build, Int32Of(xs), ys) == Success(Int32Of(xs + ys))
         == MergeInt32(build, Int32Of(xs), Int32Of(ys))
    decreases |ys|
  {
    hide Int32Of, UpdateInt32, MergeInt32;
    MergeInt32Is(build, xs, ys);
    if |ys| == 0 {
      assert xs + ys == xs;
    } else {
      var n := |ys| - 1;
      UpdateAllInt32Is(build, xs, ys[..n]);
      UpdateInt32Is(build, xs + ys[..n], ys[n]);
      assert (xs + ys[..n]) + [ys[n]] == xs + ys;
    }
  }

  // ----- Booleans -----

  datatype BooleanSummary = BooleanSummary(base: BaseStats, sum: i64, first: bool, last: bool)

  const NO_BOOLEANS := BooleanSummary(NO_POINTS, 0, false, false)

  function Bits01(ps: seq<Point<bool>>): (r: seq<int>)
    ensures |r| == |ps| && forall i :: 0 <= i < |ps| ==> r[i] == if ps[i].value then 1 else 0
  {
    seq(|ps|, i requires 0 <= i < |ps| => if ps[i].value then 1 else 0)
  }

  function BooleanOf(ps: seq<Point<bool>>): (s: BooleanSummary)
    requires |ps| <= MAX_COUNT
  {
    TotalBound(Bits01(ps));
    BooleanSummary(BaseOf(ps), Total(Bits01(ps)), FirstOf(ps, false), LastOf(ps, false))
  }

  /** A sum counts the true values. */
  lemma BooleanSums(p: Point<bool>, xs: seq<Point<bool>>, ys: seq<Point<bool>>)
    requires |xs| + |ys| <= MAX_COUNT
    ensures BooleanOf([p]).sum == if p.value then 1 else 0
    ensures BooleanOf(xs + ys).sum == BooleanOf(xs).sum + BooleanOf(ys).sum
  {
    hide BaseOf;
    TotalOne(if p.value then 1 else 0);
    assert Bits01([p]) == [if p.value then 1 else 0];
    assert Bits01(xs + ys) == Bits01(xs) + Bits01(ys);
    Together(Bits01(xs), Bits01(ys), 1, 0);
  }

  /** Booleans and strings remember the first and the last value to arrive. */
  lemma FirstAndLast(bs: seq<Point<bool>>, ss: seq<Point<string>>)
    requires 0 < |bs| <= MAX_COUNT && 0 < |ss| <= MAX_COUNT
    ensures BooleanOf(bs).first == bs[0].value && BooleanOf(bs).last == bs[|bs| - 1].value
    ensures StringOf(ss).first == ss[0].value && StringOf(ss).last == ss[|ss| - 1].value
    ensures BooleanOf(bs).base == BaseOf(bs) && StringOf(ss).base == BaseOf(ss)
  {
  }

  function UpdateBoolean(build: Build, s: BooleanSummary, p: Point<bool>): (r: Result<BooleanSummary, Error>)
  {
    var sum :- Machine(build, s.sum + if p.value then 1 else 0);
    var base :- UpdateTime(build, s.base, p.time);
    Success(BooleanSummary(base, sum, if s.base.count == 0 then p.value else s.first, p.value))
  }

  function MergeBoolean(build: Build, a: BooleanSummary, b: BooleanSummary): (r: Result<BooleanSummary, Error>)
  {
    if b.base.count == 0 then Success(a)
    else if a.base.count == 0 then Success(b)
    else
      var base :- MergeBase(build, a.base, b.base);
      var sum :- Machine(build, a.sum + b.sum);
      Success(BooleanSummary(base, sum, a.first, b.last))
  }

  lemma UpdateBooleanIs(build: Build, ps: seq<Point<bool>>, p: Point<bool>)
    requires |ps| <= MAX_COUNT
    ensures |ps| < MAX_COUNT ==> UpdateBoolean(build, BooleanOf(ps), p) == Success(BooleanOf(ps + [p]))
    ensures |ps| == MAX_COUNT && build.Checked? ==> UpdateBoolean(build, BooleanOf(ps), p) == Failure(Overflow)
  {
    hide BaseOf, UpdateTime;
    UpdateTimeIs(build, ps, p);
    TotalBound(Bits01(ps));
    BaseCount(ps);
    if |ps| < MAX_COUNT {
      assert Bits01(ps + [p])[..|ps|] == Bits01(ps);
    }
  }

  /** Merging is concatenation; it fails only where the count overflows. */
  lemma MergeBooleanIs(build: Build, xs: seq<Point<bool>>, ys: seq<Point<bool>>)
    requires |xs| <= MAX_COUNT && |ys| <= MAX_COUNT
    ensures |xs| + |ys| <= MAX_COUNT ==>
      MergeBoolean(build, BooleanOf(xs), BooleanOf(ys)) == Success(BooleanOf(xs + ys))
    ensures |xs| + |ys| > MAX_COUNT && build.Checked? ==>
      MergeBoolean(build, BooleanOf(xs), BooleanOf(ys)) == Failure(Overflow)
  {
    hide BaseOf, MergeBase, Total, Machine, Wrap;
    BaseCount(xs);
    BaseCount(ys);
    if |ys| == 0 {
      assert xs + ys == xs;
    } else if |xs| == 0 {
      assert xs + ys == ys;
    } else {
      MergeBaseIs(build, xs, ys);
      assert Bits01(xs + ys) == Bits01(xs) + Bits01(ys);
      Together(Bits01(xs), Bits01(ys), 1, 0);
      if |xs| + |ys| <= MAX_COUNT {
        TotalBound(Bits01(xs + ys));
      }
    }
  }

  /** The same law for booleans. */
  lemma MergeBooleanMonoid(build: Build, xs: seq<Point<bool>>, ys: seq<Point<bool>>, zs: seq<Point<bool>>)
    requires |xs| + |ys| + |zs| <= MAX_COUNT
    ensures MergeBoolean(build, BooleanOf(xs), BooleanOf(ys)).Success?
    ensures MergeBoolean(build, BooleanOf(ys), BooleanOf(zs)).Success?
    ensures MergeBoolean(build, MergeBoolean(build, BooleanOf(xs), BooleanOf(ys)).value, BooleanOf(zs))
         == MergeBoolean(build, BooleanOf(xs), MergeBoolean(build, BooleanOf(ys), BooleanOf(zs)).value)
    ensures MergeBoolean(build, NO_BOOLEANS, BooleanOf(xs)) == Success(BooleanOf(xs))
         == MergeBoolean(build, BooleanOf(xs), NO_BOOLEANS)
  {
    hide BooleanOf, MergeBoolean;
    EmptySummaries();
    MergeBooleanIs(build, xs, ys);
    MergeBooleanIs(build, ys, zs);
    MergeBooleanIs(build, xs + ys, zs);
    MergeBooleanIs(build, xs, ys + zs);
    MergeBooleanIs(build, [], xs);
    MergeBooleanIs(build, xs, []);
    assert (xs + ys) + zs == xs + (ys + zs);
    assert [] + xs == xs == xs + [];
  }

  function UpdateAllBoolean(build: Build, s: BooleanSummary, ps: seq<Point<bool>>): (r: Result<BooleanSummary, Error>)
    decreases |ps|
  {
    if |ps| == 0 then Success(s)
    else
      var t :- UpdateAllBoolean(build, s, ps[..|ps| - 1]);
      UpdateBoolean(build, t, ps[|ps| - 1])
  }

  lemma {:induction false} UpdateAllBooleanIs(build: Build, xs: seq<Point<bool>>, ys: seq<Point<bool>>)
    requires |xs| + |ys| <= MAX_COUNT
    ensures UpdateAllBoolean(build, BooleanOf(xs), ys) == Success(BooleanOf(xs + ys))
         == MergeBoolean(build, BooleanOf(xs), BooleanOf(ys))
    decreases |ys|
  {
    hide BooleanOf, UpdateBoolean, MergeBoolean;
    MergeBooleanIs(build, xs, ys);
    if |ys| == 0 {
      assert xs + ys == xs;
    } else {
      var n := |ys| - 1;
      UpdateAllBooleanIs(build, xs, ys[..n]);
      UpdateBooleanIs(build, xs + ys[..n], ys[n]);
      assert (xs + ys[..n]) + [ys[n]] == xs + ys;
    }
  }

  // ----- Strings -----

  datatype StringSummary = StringSummary(base: BaseStats, first: string, last: string)

  const NO_STRINGS := StringSummary(NO_POINTS, "", "")

  function StringOf(ps: seq<Point<string>>): (s: StringSummary)
    requires |ps| <= MAX_COUNT
  {
    StringSummary(BaseOf(ps), FirstOf(ps, ""), LastOf(ps, ""))
  }

  function UpdateString(build: Build, s: StringSummary, p: Point<string>): (r: Result<StringSummary, Error>)
  {
    var base :- UpdateTime(build, s.base, p.time);
    Success(StringSummary(base, if s.base.count == 0 then p.value else s.first, p.value))
  }

  function MergeString(build: Build, a: StringSummary, b: StringSummary): (r: Result<StringSummary, Error>)
  {
    if b.base.count == 0 then Success(a)
    else if a.base.count == 0 then Success(b)
    else
      var base :- MergeBase(build, a.base, b.base);
      Success(StringSummary(base, a.first, b.last))
  }

  /** Merging is concatenation; it fails only where the count overflows. */
  lemma MergeStringIs(build: Build, xs: seq<Point<string>>, ys: seq<Point<string>>)
    requires |xs| <= MAX_COUNT && |ys| <= MAX_COUNT
    ensures |xs| + |ys| <= MAX_COUNT ==>
      MergeString(build, StringOf(xs), StringOf(ys)) == Success(StringOf(xs + ys))
    ensures |xs| + |ys| > MAX_COUNT && build.Checked? ==>
      MergeString(build, StringOf(xs), StringOf(ys)) == Failure(Overflow)
  {
    hide BaseOf, MergeBase;
    BaseCount(xs);
    BaseCount(ys);
    if |ys| == 0 {
      assert xs + ys == xs;
    } else if |xs| == 0 {
      assert xs + ys == ys;
    } else {
      MergeBaseIs(build, xs, ys);
    }
  }

  /** The same law for strings. */
  lemma MergeStringMonoid(build: Build, xs: seq<Point<string>>, ys: seq<Point<string>>, zs: seq<Point<string>>)
    requires |xs| + |ys| + |zs| <= MAX_COUNT
    ensures MergeString(build, StringOf(xs), StringOf(ys)).Success?
    ensures MergeString(build, StringOf(ys), StringOf(zs)).Success?
    ensures MergeString(build, MergeString(build, StringOf(xs), StringOf(ys)).value, StringOf(zs))
         == MergeString(build, StringOf(xs), MergeString(build, StringOf(ys), StringOf(zs)).value)
    ensures MergeString(build, NO_STRINGS, StringOf(xs)) == Success(StringOf(xs))
         == MergeString(build, StringOf(xs), NO_STRINGS)
  {
    hide StringOf, MergeString;
    EmptySummaries();
    MergeStringIs(build, xs, ys);
    MergeStringIs(build, ys, zs);
    MergeStringIs(build, xs + ys, zs);
    MergeStringIs(build, xs, ys + zs);
    MergeStringIs(build, [], xs);
    MergeStringIs(build, xs, []);
    assert (xs + ys) + zs == xs + (ys + zs);
    assert [] + xs == xs == xs + [];
  }

  function UpdateAllString(build: Build, s: StringSummary, ps: seq<Point<string>>): (r: Result<StringSummary, Error>)
    decreases |ps|
  {
    if |ps| == 0 then Success(s)
    else
      var t :- UpdateAllString(build, s, ps[..|ps| - 1]);
      UpdateString(build, t, ps[|ps| - 1])
  }

  lemma {:induction false} UpdateAllStringIs(build: Build, xs: seq<Point<string>>, ys: seq<Point<string>>)
    requires |xs| + |ys| <= MAX_COUNT
    ensures UpdateAllString(build, StringOf(xs), ys) == Success(StringOf(xs + ys))
         == MergeString(build, StringOf(xs), StringOf(ys))
    decreases |ys|
  {
    hide BaseOf, UpdateTime, MergeString;
    MergeStringIs(build, xs, ys);
    if |ys| == 0 {
      assert xs + ys == xs;
    } else {
      var n := |ys| - 1;
      var before := xs + ys[..n];
      UpdateAllStringIs(build, xs, ys[..n]);
      UpdateTimeIs(build, before, ys[n]);
      BaseCount(before);
      assert before + [ys[n]] == xs + ys;
    }
  }
}
