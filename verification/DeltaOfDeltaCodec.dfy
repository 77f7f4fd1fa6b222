/** The delta-of-delta encoder and decoder as the program runs them. */
module DeltaOfDeltaCodec {
  import opened Bits
  import opened DeltaOfDelta
  import opened DeltaOfDeltaStream
  import opened LittleEndian
  import opened Simple8b
  import opened Simple8bCodec
  import opened Simple8bQueue
  import opened Types
  import opened Wrappers
  import opened Integers
  import opened ZigZags

  class DeltaOfDeltaEncoder {
    const build: Build
    var previousValue: i64
    var previousDelta: i64
    var simple8b: Simple8bEncoder
    var count: u32

    ghost predicate Valid()
      reads this
    {
      simple8b.dataType == Int64
    }

    function State(): Track
      reads this
    {
      Track(previousValue, previousDelta, count)
    }

    constructor (dataType: TSDataType, build: Build)
      ensures Valid() && fresh(simple8b) && this.build == build
      ensures State() == START && simple8b.Contents() == EMPTY
    {
      this.build := build;
      previousValue, previousDelta, count := 0, 0, 0;
      simple8b := new Simple8bEncoder(Int64);
    }

    /** Writes a header to `out`, or queues a second difference in the word codec. */
    method EncodeValue(value: i64, out: seq<u8>) returns (r: Result<(), Error>, out': seq<u8>)
      requires Valid()
      modifies `previousValue, `previousDelta, `count, simple8b
      ensures Valid()
      ensures match EncodeStep(build, old(State()), value)
              case Failure(e) => r == Failure(e)
              case Success((x, next)) =>
                && r.Success? && State() == next
                && if old(count) < 2
                   then out' == out + WordBytes(AsU64(x)) && simple8b.Contents() == old(simple8b.Contents())
                   else out' == out && simple8b.Contents() == Push(old(simple8b.Contents()), ZigZag(x))
    {
      hide WordBytes, Push, Machine;
      out' := out;
      if count == 0 {
        previousValue := value;
        count := 1;
        out' := out + WordBytes(AsU64(value));
      } else if count == 1 {
        var delta :- Machine(build, value - previousValue);
        previousDelta := delta;
        previousValue := value;
        count := 2;
        out' := out + WordBytes(AsU64(delta));
      } else {
        var delta :- Machine(build, value - previousValue);
        var second :- Machine(build, delta - previousDelta);
        var queued := simple8b.EncodeI64(second);
        previousDelta := delta;
        previousValue := value;
        count :- CountUp(build, count);
      }
      return Success(()), out';
    }

    method Flush(out: seq<u8>) returns (out': seq<u8>)
      requires Valid()
      modifies simple8b
      ensures Valid()
      ensures simple8b.Contents() == Simple8bQueue.Finish(old(simple8b.Contents()))
      ensures out' == out + AllBytes(simple8b.Contents().output)
    {
      out' := simple8b.Flush(out);
    }

    /** A reset encoder behaves as a new one; the word codec is replaced, not emptied. */
    method Reset()
      requires Valid()
      modifies this
      ensures Valid() && fresh(simple8b)
      ensures State() == START && simple8b.Contents() == EMPTY
    {
      previousValue := 0;
      previousDelta := 0;
      count := 0;
      simple8b := new Simple8bEncoder(Int64);
    }
  }

  class DeltaOfDeltaDecoder {
    const build: Build
    var previousValue: i64
    var previousDelta: i64
    const simple8b: Simple8bDecoder
    var count: u32

    ghost predicate Valid()
      reads this, simple8b
    {
      simple8b.Valid()
    }

    function State(): Track
      reads this
    {
      Track(previousValue, previousDelta, count)
    }

    /** The number that the next read takes from the bytes. */
    ghost function Next(data: seq<u8>, pos: nat): Result<i64, Error>
      reads this, simple8b
      requires Valid()
    {
      if count < 2 then
        if pos + 8 <= |data| then Success(AsI64(WordAt(data, pos))) else Failure(EndOfData)
      else if !IsInt64Type(simple8b.dataType) then Failure(WrongType)
      else if simple8b.Ahead(data, pos) == [] then Failure(EndOfData)
      else
        Success(UnZigZag(simple8b.Ahead(data, pos)[0]))
    }

    constructor (dataType: TSDataType, build: Build)
      ensures Valid() && fresh(simple8b) && this.build == build
      ensures State() == START && simple8b.Current() == [] && simple8b.dataType == dataType
    {
      this.build := build;
      previousValue, previousDelta, count := 0, 0, 0;
      simple8b := new Simple8bDecoder(dataType);
    }

    method DecodeValue(data: seq<u8>, pos: nat) returns (r: Result<i64, Error>, pos': nat)
      requires Valid() && pos <= |data|
      modifies this, simple8b
      ensures Valid() && pos' <= |data|
      ensures match old(Next(data, pos))
              case Failure(e) => r == Failure(e) && State() == old(State())
              case Success(x) =>
                (match DecodeStep(build, old(State()), x)
                 case Failure(e) => r == Failure(e)
                 case Success(next) =>
                   && r == Success(next.value) && State() == next
                   && if old(count) < 2
                      then pos' == pos + 8 && simple8b.Current() == old(simple8b.Current())
                      else simple8b.Ahead(data, pos') == old(simple8b.Ahead(data, pos))[1..])
    {
      hide WordAt, Machine, UnZigZag, UnpackAll, WordsAt, Unread, Unpack, CountUp, Wrap, AsI64;
      pos' := pos;
      if count == 0 {
        if pos + 8 > |data| {
          return Failure(EndOfData), pos;
        }
        var value := AsI64(WordAt(data, pos));
        pos' := pos + 8;
        previousValue := value;
        count := 1;
        return Success(value), pos';
      } else if count == 1 {
        if pos + 8 > |data| {
          return Failure(EndOfData), pos;
        }
        var delta := AsI64(WordAt(data, pos));
        pos' := pos + 8;
        previousDelta := delta;
        previousValue :- Machine(build, previousValue + delta);
        count := 2;
        return Success(previousValue), pos';
      } else {
        var second;
        second, pos' := simple8b.ReadI64(data, pos);
        if second.Failure? {
          return second, pos';
        }
        var delta :- Machine(build, previousDelta + second.value);
        var value :- Machine(build, previousValue + delta);
        previousDelta := delta;
        previousValue := value;
        count :- CountUp(build, count);
        return Success(value), pos';
      }
    }
  }

  // ----- Sequences -----

  /** What an encoder has done with the numbers of a run, before the flush. */
  ghost predicate Written(numbers: seq<i64>, queue: Queue, out: seq<u8>)
  {
    && out == Header(numbers)
    && queue == PushAll(EMPTY, Codes(Seconds(numbers)))
  }

  /** One number more: a header, or one more value in the queue. */
  lemma WrittenMore(numbers: seq<i64>, queue: Queue, out: seq<u8>, x: i64)
    requires Written(numbers, queue, out)
    ensures |numbers| < 2 ==> Written(numbers + [x], queue, out + WordBytes(AsU64(x)))
    ensures |numbers| >= 2 ==> Written(numbers + [x], Push(queue, ZigZag(x)), out)
  {
    hide WordBytes, Push, ZigZag;
    var next := numbers + [x];
    if |numbers| < 2 {
      assert Seconds(next) == Seconds(numbers);
    } else {
      var codes := Codes(Seconds(next));
      assert codes[..|codes| - 1] == Codes(Seconds(numbers));
    }
  }

  lemma NothingWritten()
    ensures Written([], EMPTY, [])
  {
  }

  /** One step of the run on values[..i]. */
  lemma DifferencesMore(build: Build, values: seq<i64>, i: nat)
    requires i < |values| < 0x1_0000_0000 && Differences(build, values[..i]).Success?
    ensures var run := Differences(build, values[..i]).value;
            var step := EncodeStep(build, run.track, values[i]);
            && |run.numbers| == run.track.count == i
            && (step.Failure? ==> !Encodable(build, values))
            && (step.Success? ==> Differences(build, values[..i + 1])
                                  == Success(Run(run.numbers + [step.value.0], step.value.1)))
  {
    hide EncodeStep;
    var next := values[..i + 1];
    assert next[..i] == values[..i];
    DifferencesAre(build, values[..i]);
    DifferencesAre(build, next);
    EncodablePrefix(build, values, i + 1);
  }

  lemma EncodablePrefix(build: Build, values: seq<i64>, n: nat)
    requires n <= |values|
    ensures Encodable(build, values) ==> Encodable(build, values[..n])
  {
    assert forall k :: 1 <= k < n ==> Step(values[..n], k) == Step(values, k);
    assert forall k :: 2 <= k < n ==> Second(values[..n], k) == Second(values, k);
  }

  /** Encodes a sequence with one encoder and flushes. */
  method EncodeSequence(build: Build, values: seq<i64>) returns (r: Result<(), Error>, bytes: seq<u8>)
    requires |values| < 0x1_0000_0000
    ensures r.Success? <==> Encodable(build, values)
    ensures r.Success? ==> Encode(build, values) == Success(bytes) && Layout(values, bytes)
    ensures r.Success? && |values| >= 1 ==> HoldsWord(bytes, 0, AsU64(values[0]))
    ensures r.Success? && |values| >= 2 ==> HoldsWord(bytes, 1, AsU64(Wrap(Step(values, 1))))
  {
    hide EncodeStep, WordBytes, Push, PushAll, ZigZag, Written, Differences, Encodable, Layout;
    var encoder := new DeltaOfDeltaEncoder(Int64, build);
    bytes := [];
    ghost var numbers: seq<i64> := [];
    NothingWritten();
    NoDifferences(build, values);
    var i := 0;
    while i < |values|
      invariant 0 <= i <= |values| && encoder.Valid() && fresh(encoder) && fresh(encoder.simple8b)
      invariant Differences(build, values[..i]) == Success(Run(numbers, encoder.State()))
      invariant Written(numbers, encoder.simple8b.Contents(), bytes)
    {
      DifferencesMore(build, values, i);
      ghost var queue, out := encoder.simple8b.Contents(), bytes;
      ghost var step := EncodeStep(build, encoder.State(), values[i]);
      r, bytes := encoder.EncodeValue(values[i], bytes);
      if r.Failure? {
        return;
      }
      WrittenMore(numbers, queue, out, step.value.0);
      numbers := numbers + [step.value.0];
      i := i + 1;
    }
    assert values[..i] == values;
    DifferencesAre(build, values);
    FinishWritten(numbers, encoder.simple8b.Contents(), bytes);
    bytes := encoder.Flush(bytes);
    EncodedLayout(build, values);
    LayoutHeaders(values, bytes);
    r := Success(());
  }

  lemma LayoutHeaders(values: seq<i64>, bytes: seq<u8>)
    requires Layout(values, bytes)
    ensures |values| >= 1 ==> HoldsWord(bytes, 0, AsU64(values[0]))
    ensures |values| >= 2 ==> HoldsWord(bytes, 1, AsU64(Wrap(Step(values, 1))))
  {
  }

  lemma NoDifferences(build: Build, values: seq<i64>)
    ensures Differences(build, values[..0]) == Success(Run([], START))
  {
  }

  lemma FinishWritten(numbers: seq<i64>, queue: Queue, out: seq<u8>)
    requires Written(numbers, queue, out)
    ensures out + AllBytes(Simple8bQueue.Finish(queue).output) == Frame(numbers)
  {
  }

  /** A decoder that has read `k` numbers of `data`. */
  ghost predicate HasRead(decoder: DeltaOfDeltaDecoder, data: seq<u8>, pos: nat, k: nat)
    reads decoder, decoder.simple8b
  {
    && decoder.Valid() && pos <= |data| && decoder.count == k
    && if k < 2 then pos == 8 * k && decoder.simple8b.Current() == []
       else k - 2 <= |Body(data)| && decoder.simple8b.Ahead(data, pos) == Body(data)[k - 2..]
  }

  lemma NextIsNumber(decoder: DeltaOfDeltaDecoder, data: seq<u8>, pos: nat, k: nat)
    requires HasRead(decoder, data, pos, k)
    ensures decoder.Next(data, pos) == NumberAt(decoder.simple8b.dataType, data, k)
  {
    hide WordAt, UnpackAll, WordsAt, UnZigZag, Unread;
  }

  /** Past the second header the words begin. */
  lemma WordsBegin(decoder: DeltaOfDeltaDecoder, data: seq<u8>)
    requires decoder.Valid() && decoder.simple8b.Current() == []
    ensures decoder.simple8b.Ahead(data, 16) == Body(data)[0..]
  {
  }

  lemma {:induction false} DecodeFails(build: Build, dataType: TSDataType, data: seq<u8>, k: nat, n: nat)
    requires k <= n && Decode(build, dataType, data, k).Failure?
    ensures Decode(build, dataType, data, n) == Decode(build, dataType, data, k)
    decreases n - k
  {
    hide NumberAt, DecodeStep;
    if k < n {
      DecodeFails(build, dataType, data, k, n - 1);
    }
  }

  /** One turn of the loop below. */
  method DecodeOne(decoder: DeltaOfDeltaDecoder, data: seq<u8>, pos: nat, k: nat)
      returns (r: Result<i64, Error>, pos': nat)
    requires HasRead(decoder, data, pos, k) && k < 0xFFFF_FFFF
    modifies decoder, decoder.simple8b
    ensures match NumberAt(decoder.simple8b.dataType, data, k)
            case Failure(e) => r == Failure(e)
            case Success(x) =>
              (match DecodeStep(decoder.build, old(decoder.State()), x)
               case Failure(e) => r == Failure(e)
               case Success(next) =>
                 && r == Success(next.value) && decoder.State() == next
                 && HasRead(decoder, data, pos', k + 1))
  {
    hide NumberAt, Body, Unread, UnpackAll, WordsAt, Machine, UnZigZag, WordAt;
    NextIsNumber(decoder, data, pos, k);
    r, pos' := decoder.DecodeValue(data, pos);
    if k == 1 && r.Success? {
      WordsBegin(decoder, data);
    }
  }

  /** Reads `n` values with one decoder. */
  method DecodeSequence(build: Build, dataType: TSDataType, data: seq<u8>, n: nat)
      returns (r: Result<(), Error>, values: seq<i64>)
    requires n < 0x1_0000_0000
    ensures match Decode(build, dataType, data, n)
            case Failure(e) => r == Failure(e)
            case Success(run) => r.Success? && values == run.numbers
  {
    hide DecodeStep, NumberAt, HasRead;
    var decoder := new DeltaOfDeltaDecoder(dataType, build);
    values := [];
    var i, pos := 0, 0;
    NothingRead(decoder, data);
    while i < n
      invariant 0 <= i <= n && fresh(decoder) && fresh(decoder.simple8b)
      invariant HasRead(decoder, data, pos, i)
      invariant Decode(build, dataType, data, i) == Success(Run(values, decoder.State()))
    {
      var value;
      value, pos := DecodeOne(decoder, data, pos, i);
      if value.Failure? {
        DecodeFails(build, dataType, data, i + 1, n);
        return Failure(value.error), values;
      }
      values := values + [value.value];
      i := i + 1;
    }
    r := Success(());
  }

  lemma NothingRead(decoder: DeltaOfDeltaDecoder, data: seq<u8>)
    requires decoder.Valid() && decoder.count == 0 && decoder.simple8b.Current() == []
    ensures HasRead(decoder, data, 0, 0)
  {
  }

  /** There and back: exactly the smooth sequences return, to a decoder for 64-bit integers. */
  method SequenceThere(build: Build, dataType: TSDataType, values: seq<i64>)
      returns (r: Result<(), Error>, decoded: seq<i64>)
    requires |values| < 0x1_0000_0000
    ensures r.Success? && decoded == values
       <==> Smooth(build, values) && (|values| <= 2 || IsInt64Type(dataType))
  {
    hide Encode, Decode, Encodable, Smooth;
    Lossless(build, dataType, values);
    var bytes;
    r, bytes := EncodeSequence(build, values);
    decoded := [];
    if r.Success? {
      r, decoded := DecodeSequence(build, dataType, bytes, |values|);
    } else {
      NotSmooth(build, values);
    }
  }

  lemma NotSmooth(build: Build, values: seq<i64>)
    ensures Smooth(build, values) ==> Encodable(build, values)
  {
  }
}
