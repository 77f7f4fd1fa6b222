/** The statistics as the program keeps them: fields updated in place. */
module StatisticObjects {
  import opened Integers
  import opened Types
  import opened Wrappers
  import opened Statistics

  /** Time stamps and values side by side. */
  function Zipped<T>(timestamps: seq<i64>, values: seq<T>): (ps: seq<Point<T>>)
    requires |timestamps| <= |values|
    ensures |ps| == |timestamps|
  {
    seq(|timestamps|, i requires 0 <= i < |timestamps| => Point(timestamps[i], values[i]))
  }

  lemma ZippedMore<T>(timestamps: seq<i64>, values: seq<T>, i: nat)
    requires i < |timestamps| <= |values|
    ensures Zipped(timestamps, values)[..i + 1][..i] == Zipped(timestamps, values)[..i]
    ensures Zipped(timestamps, values)[i] == Point(timestamps[i], values[i])
  {
  }

  class Int32Statistic {
    const build: Build
    var base: BaseStats
    var sumValue: i64
    var minValue: i32
    var maxValue: i32
    var firstValue: i32
    var lastValue: i32

    function State(): Int32Summary
      reads this
    {
      Int32Summary(base, sumValue, minValue, maxValue, firstValue, lastValue)
    }

    constructor (build: Build)
      ensures this.build == build && State() == NO_INTS
    {
      this.build := build;
      base, sumValue := NO_POINTS, 0;
      minValue, maxValue, firstValue, lastValue := MAX_COUNT, MIN_I32, 0, 0;
    }

    /** One point; an overflow of the count stops a checked build. */
    method UpdateI32(timestamp: i64, value: i32) returns (r: Result<(), Error>)
      modifies this
      ensures match UpdateInt32(build, old(State()), Point(timestamp, value))
              case Success(next) => r.Success? && State() == next
              case Failure(e) => r == Failure(e)
    {
      firstValue := if base.count == 0 then value else firstValue;
      lastValue := value;
      sumValue :- Machine(build, sumValue + value);
      minValue := Lower(minValue, value);
      maxValue := Higher(maxValue, value);
      var count :- Machine32(build, base.count + 1);
      base := BaseStats(count, Lower(base.startTime, timestamp), Higher(base.endTime, timestamp));
      return Success(());
    }

    method Merge(other: Int32Statistic) returns (r: Result<(), Error>)
      requires other != this
      modifies this
      ensures match MergeInt32(build, old(State()), other.State())
              case Success(next) => r.Success? && State() == next
              case Failure(e) => r == Failure(e)
    {
      if other.base.count == 0 {
        return Success(());
      }
      if base.count == 0 {
        base, sumValue := other.base, other.sumValue;
        minValue, maxValue, firstValue, lastValue :=
          other.minValue, other.maxValue, other.firstValue, other.lastValue;
        return Success(());
      }
      base :- MergeBase(build, base, other.base);
      sumValue :- Machine(build, sumValue + other.sumValue);
      minValue := Lower(minValue, other.minValue);
      maxValue := Higher(maxValue, other.maxValue);
      lastValue := other.lastValue;
      return Success(());
    }

    method UpdateI32Batch(timestamps: seq<i64>, values: seq<i32>) returns (r: Result<(), Error>)
      requires |timestamps| <= |values|
      modifies this
      ensures match UpdateAllInt32(build, old(State()), Zipped(timestamps, values))
              case Success(next) => r.Success? && State() == next
              case Failure(e) => r.Failure?
    {
      hide UpdateInt32, Zipped;
      ghost var ps := Zipped(timestamps, values);
      var i := 0;
      while i < |timestamps|
        invariant 0 <= i <= |timestamps|
        invariant UpdateAllInt32(build, old(State()), ps[..i]) == Success(State())
      {
        ZippedMore(timestamps, values, i);
        r := UpdateI32(timestamps[i], values[i]);
        if r.Failure? {
          Int32Stops(build, old(State()), ps, i + 1);
          return;
        }
        i := i + 1;
      }
      assert ps[..i] == ps;
      return Success(());
    }
  }

  lemma {:induction false} Int32Stops(build: Build, s: Int32Summary, ps: seq<Point<i32>>, n: nat)
    requires n <= |ps| && UpdateAllInt32(build, s, ps[..n]).Failure?
    ensures UpdateAllInt32(build, s, ps).Failure?
    decreases |ps|
  {
    hide UpdateInt32;
    if n < |ps| {
      assert ps[..|ps| - 1][..n] == ps[..n];
      Int32Stops(build, s, ps[..|ps| - 1], n);
    } else {
      assert ps[..n] == ps;
    }
  }

  class BooleanStatistic {
    const build: Build
    var base: BaseStats
    var sumValue: i64
    var firstValue: bool
    var lastValue: bool

    function State(): BooleanSummary
      reads this
    {
      BooleanSummary(base, sumValue, firstValue, lastValue)
    }

    constructor (build: Build)
      ensures this.build == build && State() == NO_BOOLEANS
    {
      this.build := build;
      base, sumValue, firstValue, lastValue := NO_POINTS, 0, false, false;
    }

    method UpdateBool(timestamp: i64, value: bool) returns (r: Result<(), Error>)
      modifies this
      ensures match UpdateBoolean(build, old(State()), Point(timestamp, value))
              case Success(next) => r.Success? && State() == next
              case Failure(e) => r == Failure(e)
    {
      if base.count == 0 {
        firstValue := value;
      }
      lastValue := value;
      sumValue :- Machine(build, sumValue + if value then 1 else 0);
      base :- UpdateTime(build, base, timestamp);
      return Success(());
    }

    method Merge(other: BooleanStatistic) returns (r: Result<(), Error>)
      requires other != this
      modifies this
      ensures match MergeBoolean(build, old(State()), other.State())
              case Success(next) => r.Success? && State() == next
              case Failure(e) => r == Failure(e)
    {
      if other.base.count == 0 {
        return Success(());
      }
      if base.count == 0 {
        base, sumValue := other.base, other.sumValue;
        firstValue, lastValue := other.firstValue, other.lastValue;
        return Success(());
      }
      base :- MergeBase(build, base, other.base);
      sumValue :- Machine(build, sumValue + other.sumValue);
      lastValue := other.lastValue;
      return Success(());
    }
  }

  class StringStatistic {
    const build: Build
    var base: BaseStats
    var firstValue: string
    var lastValue: string

    function State(): StringSummary
      reads this
    {
      StringSummary(base, firstValue, lastValue)
    }

    constructor (build: Build)
      ensures this.build == build && State() == NO_STRINGS
    {
      this.build := build;
      base, firstValue, lastValue := NO_POINTS, "", "";
    }

    method UpdateString(timestamp: i64, value: string) returns (r: Result<(), Error>)
      modifies this
      ensures match Statistics.UpdateString(build, old(State()), Point(timestamp, value))
              case Success(next) => r.Success? && State() == next
              case Failure(e) => r == Failure(e)
    {
      if base.count == 0 {
        firstValue := value;
      }
      lastValue := value;
      base :- UpdateTime(build, base, timestamp);
      return Success(());
    }

    method Merge(other: StringStatistic) returns (r: Result<(), Error>)
      requires other != this
      modifies this
      ensures match MergeString(build, old(State()), other.State())
              case Success(next) => r.Success? && State() == next
              case Failure(e) => r == Failure(e)
    {
      if other.base.count == 0 {
        return Success(());
      }
      if base.count == 0 {
        base, firstValue, lastValue := other.base, other.firstValue, other.lastValue;
        return Success(());
      }
      base :- MergeBase(build, base, other.base);
      lastValue := other.lastValue;
      return Success(());
    }
  }

  /**
    Page statistics merged into chunk statistics are the statistics of all the points, as long
    as they can be counted in 32 bits.
   */
  method MergePages(build: Build, timestamps: seq<i64>, values: seq<i32>, cut: nat) returns (chunk: Int32Statistic)
    requires cut <= |timestamps| == |values| <= MAX_COUNT
    ensures chunk.State() == Int32Of(Zipped(timestamps, values))
  {
    hide Int32Of, UpdateAllInt32, MergeInt32, Zipped;
    EmptyIs();
    chunk := new Int32Statistic(build);
    var page := new Int32Statistic(build);
    ghost var first, second := Zipped(timestamps[..cut], values[..cut]), Zipped(timestamps[cut..], values[cut..]);
    UpdateAllInt32Is(build, [], first);
    UpdateAllInt32Is(build, [], second);
    MergeInt32Is(build, first, second);
    assert [] + first == first && [] + second == second;
    CutPoints(timestamps, values, cut);
    var r := chunk.UpdateI32Batch(timestamps[..cut], values[..cut]);
    r := page.UpdateI32Batch(timestamps[cut..], values[cut..]);
    r := chunk.Merge(page);
  }

  lemma EmptyIs()
    ensures Int32Of([]) == NO_INTS
  {
  }

  lemma CutPoints(timestamps: seq<i64>, values: seq<i32>, cut: nat)
    requires cut <= |timestamps| == |values|
    ensures Zipped(timestamps[..cut], values[..cut]) + Zipped(timestamps[cut..], values[cut..])
         == Zipped(timestamps, values)
  {
  }
}
