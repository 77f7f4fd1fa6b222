/**
  The bytes of a delta-of-delta block: two 8-byte headers, then Simple8b words; and exactly
  which sequences come back from them.
 */
module DeltaOfDeltaStream {
  import opened Bits
  import opened DeltaOfDelta
  import opened LittleEndian
  import opened Simple8b
  import opened Simple8bCodec
  import opened Simple8bQueue
  import opened Types
  import opened Wrappers
  import opened Integers
  import opened ZigZags

  // ----- Encoding -----

  function Codes(numbers: seq<i64>): (zs: seq<u64>)
    ensures |zs| == |numbers|
  {
    seq(|numbers|, i requires 0 <= i < |numbers| => ZigZag(numbers[i]))
  }

  function Seconds(numbers: seq<i64>): (r: seq<i64>) {
    if |numbers| < 2 then [] else numbers[2..]
  }

  function Header(numbers: seq<i64>): (bytes: seq<u8>) {
    if |numbers| == 0 then []
    else if |numbers| == 1 then WordBytes(AsU64(numbers[0]))
    else WordBytes(AsU64(numbers[0])) + WordBytes(AsU64(numbers[1]))
  }

  function Frame(numbers: seq<i64>): (bytes: seq<u8>) {
    Header(numbers) + AllBytes(WordsFor(Codes(Seconds(numbers))))
  }

  /** The bytes for a whole sequence, after a flush. */
  function Encode(build: Build, values: seq<i64>): (r: Result<seq<u8>, Error>)
  {
    var run :- Differences(build, values);
    Success(Frame(run.numbers))
  }

  /** The values that are packed: the codes of the second differences. */
  function SecondCodes(values: seq<i64>): (zs: seq<u64>) {
    if |values| < 2 then []
    else
      seq(|values| - 2, j requires 0 <= j < |values| - 2 => ZigZag(Wrap(Second(values, j + 2))))
  }

  /** Where every byte of a block comes from. */
  ghost predicate Layout(values: seq<i64>, bytes: seq<u8>) {
    var words := WordsFor(SecondCodes(values));
    && |bytes| == 8 * Headers(values) + 8 * |words|
    && (|values| >= 1 ==> HoldsWord(bytes, 0, AsU64(values[0])))
    && (|values| >= 2 ==> HoldsWord(bytes, 1, AsU64(Wrap(Step(values, 1)))))
    && (forall k :: 0 <= k < |words| ==> HoldsWord(bytes, Headers(values) + k, words[k]))
  }

  function Headers(values: seq<i64>): (n: nat) {
    if |values| < 2 then |values| else 2
  }

  /**
    The bytes of a sequence: first value, first difference, then the words for the second
    differences, eight bytes each and the lowest first.
   */
  lemma EncodedLayout(build: Build, values: seq<i64>)
    requires |values| < 0x1_0000_0000 && Encode(build, values).Success?
    ensures Layout(values, Encode(build, values).value)
  {
    hide Differences, WordsFor, AllBytes, WordBytes, AsU64, ZigZag, Wrap, HoldsWord;
    DifferencesAre(build, values);
    var numbers := Differences(build, values).value.numbers;
    assert Codes(Seconds(numbers)) == SecondCodes(values);
    var words := WordsFor(SecondCodes(values));
    var header, body := Header(numbers), AllBytes(words);
    assert header + body + [] == header + body;
    AllBytesHold(header, words, [], Headers(values));
    if |numbers| == 1 {
      WordHeld([], AsU64(numbers[0]), body, 0);
      assert [] + header + body == header + body;
    } else if |numbers| > 1 {
      var first, second := WordBytes(AsU64(numbers[0])), WordBytes(AsU64(numbers[1]));
      WordHeld([], AsU64(numbers[0]), second + body, 0);
      assert [] + first + (second + body) == header + body;
      WordHeld(first, AsU64(numbers[1]), body, 1);
    }
  }

  // ----- Decoding -----

  /** The second differences that the words after the headers hold. */
  function Body(data: seq<u8>): (zs: seq<nat>)
    ensures forall i :: 0 <= i < |zs| ==> zs[i] < 0x1000_0000_0000_0000
  {
    SixtyBits();
    UnpackAll(WordsAt(data, 16))
  }

  /** The k-th number that a decoder for `dataType` reads. */
  function NumberAt(dataType: TSDataType, data: seq<u8>, k: nat): (r: Result<i64, Error>)
  {
    if k < 2 then
      if 8 * k + 8 <= |data| then Success(AsI64(WordAt(data, 8 * k))) else Failure(EndOfData)
    else if !IsInt64Type(dataType) then Failure(WrongType)
    else if k - 2 < |Body(data)| then Success(UnZigZag(Body(data)[k - 2]))
    else Failure(EndOfData)
  }

  /** `n` reads with a new decoder. */
  function Decode(build: Build, dataType: TSDataType, data: seq<u8>, n: nat): (r: Result<Run, Error>)
    ensures r.Success? ==> |r.value.numbers| == n
  {
    if n == 0 then Success(Run([], START))
    else
      var run :- Decode(build, dataType, data, n - 1);
      var number :- NumberAt(dataType, data, n - 1);
      var track :- DecodeStep(build, run.track, number);
      Success(Run(run.numbers + [track.value], track))
  }

  lemma {:induction false} DecodeIntegrates(build: Build, dataType: TSDataType, data: seq<u8>, numbers: seq<i64>)
    requires forall k :: 0 <= k < |numbers| ==> NumberAt(dataType, data, k) == Success(numbers[k])
    ensures Decode(build, dataType, data, |numbers|) == Integrate(build, numbers)
    decreases |numbers|
  {
    hide NumberAt, DecodeStep;
    if |numbers| > 0 {
      var n := |numbers| - 1;
      forall k | 0 <= k < n
        ensures NumberAt(dataType, data, k) == Success(numbers[..n][k])
      {
      }
      DecodeIntegrates(build, dataType, data, numbers[..n]);
    }
  }

  lemma {:induction false} DecodeReads(build: Build, dataType: TSDataType, data: seq<u8>, n: nat)
    requires Decode(build, dataType, data, n).Success?
    ensures forall k :: 0 <= k < n ==> NumberAt(dataType, data, k).Success?
  {
    hide NumberAt, DecodeStep;
    if n > 0 {
      DecodeReads(build, dataType, data, n - 1);
    }
  }

  // ----- The exact domain -----

  predicate Narrow(x: int) {
    -0x0800_0000_0000_0000 <= x < 0x0800_0000_0000_0000
  }

  lemma NarrowCode(x: i64)
    ensures Narrow(x) <==> ZigZag(x) < 0x1000_0000_0000_0000
    ensures Narrow(x) ==> UnZigZag(ZigZag(x)) == x
  {
    hide ZigZag, UnZigZag;
    ZigZagOrder(x);
    ZigZagInverse(x);
  }

  lemma NarrowRead(z: nat)
    requires z < 0x1000_0000_0000_0000
    ensures Narrow(UnZigZag(z))
  {
    hide ZigZag, UnZigZag;
    UnZigZagOf(z);
    NarrowCode(UnZigZag(z));
  }

  lemma HeaderReads(dataType: TSDataType, numbers: seq<i64>, k: nat)
    requires k < |numbers| && k < 2
    ensures NumberAt(dataType, Frame(numbers), k) == Success(numbers[k])
  {
    hide WordAt, WordBytes, AllBytes, WordsFor, Codes, AsI64, AsU64;
    var words := AllBytes(WordsFor(Codes(Seconds(numbers))));
    var first := WordBytes(AsU64(numbers[0]));
    SignedBack(numbers[k]);
    if k == 0 {
      var rest := (if |numbers| == 1 then [] else WordBytes(AsU64(numbers[1]))) + words;
      WordAtBytes([], AsU64(numbers[0]), rest);
      assert Frame(numbers) == [] + first + rest;
    } else {
      WordAtBytes(first, AsU64(numbers[1]), words);
    }
  }

  lemma BodyReads(numbers: seq<i64>)
    requires |numbers| >= 2
    requires forall i :: 0 <= i < |Seconds(numbers)| ==> Narrow(Seconds(numbers)[i])
    ensures Codes(Seconds(numbers)) <= Body(Frame(numbers))
  {
    hide WordBytes, AllBytes, ZigZag, UnpackAll, WordsFor, WordsAt;
    var codes := Codes(Seconds(numbers));
    forall i | 0 <= i < |codes|
      ensures codes[i] < 0x1000_0000_0000_0000
    {
      NarrowCode(Seconds(numbers)[i]);
    }
    WordsRoundTrip(Header(numbers), WordsFor(codes));
    WordsReadBack(codes);
  }

  /** A frame gives back its numbers if the second differences are below 2^59 in size. */
  lemma FrameReads(dataType: TSDataType, numbers: seq<i64>, k: nat)
    requires k < |numbers|
    requires forall i :: 0 <= i < |Seconds(numbers)| ==> Narrow(Seconds(numbers)[i])
    requires k < 2 || IsInt64Type(dataType)
    ensures NumberAt(dataType, Frame(numbers), k) == Success(numbers[k])
  {
    hide Frame, Body, ZigZag, UnZigZag;
    if k < 2 {
      HeaderReads(dataType, numbers, k);
    } else {
      BodyReads(numbers);
      NarrowCode(Seconds(numbers)[k - 2]);
      assert Body(Frame(numbers))[k - 2] == Codes(Seconds(numbers))[k - 2];
    }
  }

  lemma SignedBack(x: i64)
    ensures AsI64(AsU64(x)) == x
  {
  }

  /** The codec, with a decoder of the given type, returns its input. */
  predicate RoundTrips(build: Build, dataType: TSDataType, values: seq<i64>) {
    && Encode(build, values).Success?
    && var r := Decode(build, dataType, Encode(build, values).value, |values|);
       r.Success? && r.value.numbers == values
  }

  /** Every second difference, as the machine computes it, is in [-2^59, 2^59). */
  predicate Smooth(build: Build, values: seq<i64>) {
    && Encodable(build, values)
    && forall k :: 2 <= k < |values| ==> Narrow(Wrap(Second(values, k)))
  }

  /** Whatever the bytes are, no decoder returns values with a wider second difference. */
  lemma DecodedAreSmooth(build: Build, dataType: TSDataType, data: seq<u8>, values: seq<i64>)
    requires |values| < 0x1_0000_0000
    requires var r := Decode(build, dataType, data, |values|); r.Success? && r.value.numbers == values
    ensures Smooth(build, values)
    ensures |values| > 2 ==> IsInt64Type(dataType)
  {
    hide Decode, Body, Integrate, Differences, Wrap, UnZigZag;
    DecodeReads(build, dataType, data, |values|);
    var numbers := seq(|values|, k requires 0 <= k < |values| => NumberAt(dataType, data, k).value);
    DecodeIntegrates(build, dataType, data, numbers);
    Inverse(build, values, numbers, Integrate(build, numbers).value.track);
    DifferencesAre(build, values);
    forall k | 2 <= k < |values|
      ensures Narrow(Wrap(Second(values, k))) && IsInt64Type(dataType)
    {
      assert NumberAt(dataType, data, k).Success?;
      NarrowRead(Body(data)[k - 2]);
    }
    if |values| > 2 {
      assert NumberAt(dataType, data, 2).Success?;
    }
  }

  /**
    Exactly the sequences with narrow second differences come back, and from the third value
    on only a decoder for 64-bit integers gives them back: the decoder hands its data type
    on, while the encoder always packs 64-bit integers.
   */
  lemma Lossless(build: Build, dataType: TSDataType, values: seq<i64>)
    requires |values| < 0x1_0000_0000
    ensures RoundTrips(build, dataType, values)
       <==> Smooth(build, values) && (|values| <= 2 || IsInt64Type(dataType))
  {
    hide Decode, Frame, Integrate, Differences, NumberAt, Wrap;
    if RoundTrips(build, dataType, values) {
      DecodedAreSmooth(build, dataType, Encode(build, values).value, values);
    }
    if Smooth(build, values) && (|values| <= 2 || IsInt64Type(dataType)) {
      DifferencesAre(build, values);
      var run := Differences(build, values).value;
      Inverse(build, values, run.numbers, run.track);
      forall k | 0 <= k < |values|
        ensures NumberAt(dataType, Frame(run.numbers), k) == Success(run.numbers[k])
      {
        FrameReads(dataType, run.numbers, k);
      }
      DecodeIntegrates(build, dataType, Frame(run.numbers), run.numbers);
    }
  }

  /** Regular time stamps: any progression comes back, whatever its step. */
  lemma ProgressionsRoundTrip(build: Build, values: seq<i64>)
    requires |values| < 0x1_0000_0000 && Encodable(build, values) && Progression(values)
    ensures RoundTrips(build, Int64, values)
  {
    hide Differences, Wrap, RoundTrips;
    DifferencesAre(build, values);
    ZeroSecondDifferences(build, values);
    Lossless(build, Int64, values);
  }
}
