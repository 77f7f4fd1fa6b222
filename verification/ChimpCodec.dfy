/** The encoder and the decoder together: what comes back from the bytes of a flush. */
module ChimpCodec {
  import opened Bits
  import opened BitStream
  import opened Wrappers
  import opened Types
  import opened Chimp
  import opened ChimpRoundTrip
  import opened ChimpSize
  import opened Chimp128Encoders
  import opened Chimp128Decoders

  lemma AllAsU32Small(bits: seq<u64>, values: seq<u32>)
    requires |bits| == |values| && forall i :: 0 <= i < |bits| ==> bits[i] == values[i]
    ensures AllAsU32(bits) == values
  {
    Pow2Of64();
    forall i | 0 <= i < |bits|
      ensures AsU32(bits[i]) == values[i]
    {
      AsU32Small(bits[i]);
    }
  }

  /**
    Floats: a batch is written, flushed and read back unchanged, in nine bytes a value; after
    that something remains to be read exactly if the last byte was filled up.
   */
  method FloatsThere(build: Build, values: seq<u32>)
      returns (decoded: seq<u32>, bytes: seq<u8>, remaining: bool)
    ensures decoded == values
    ensures |bytes| <= 9 * |values|
    ensures AreValues(32, values) && (remaining <==> |Encode(32, values)| % 8 != 0)
  {
    hide EncodeFrom, DecodeFrom, CoderAfter, AllAsU32, Pad, Holds, StreamOf, Prefetched, CostFrom;
    ghost var bits: seq<u64> := values;
    var encoder := new Chimp128Encoder(Float);
    var encoded := encoder.EncodeF32Batch(values);
    bytes := encoder.Flush([]);
    assert bytes[0..] == bytes;
    var decoder := new Chimp128Decoder(Float, build);
    FloatsEnd(build, values);
    StreamSize(32, bits);
    var r;
    r, decoded := decoder.ReadF32Batch(bytes, [], |values|);
    AllAsU32Small(bits, values);
    remaining := decoder.HasRemaining(bytes);
    PaddedLength(Encode(32, bits));
  }

  lemma FloatsEnd(build: Build, vs: seq<u32>)
    ensures var bits: seq<u64> := vs;
            && AreValues(32, bits)
            && DecodeFrom(build, 32, START, Pad(Encode(32, bits)), 0, |vs|)
               == Success(Run(bits, CoderAfter(32, START, bits), |Encode(32, bits)|))
  {
    Pow2Of64();
    var bits: seq<u64> := vs;
    assert AreValues(32, bits);
    FloatsFitFrom(START, 0, bits);
    RoundTrip(build, 32, bits);
  }

  lemma PaddedLength(s: seq<bool>)
    ensures |s| < |Pad(s)| <==> |s| % 8 != 0
  {
  }

  /** Doubles: the codec returns its input exactly when the round trip of the model does. */
  method DoublesThere(build: Build, values: seq<u64>)
      returns (r: Result<(), Error>, decoded: seq<u64>, remaining: bool)
    requires AreValues(64, values)
    ensures r.Success? && decoded == values <==> RoundTrips(build, 64, values)
    ensures Fits(64, values) ==> r.Success? && decoded == values
    ensures Narrow(values) ==> r.Success? && decoded == values
    ensures Fits(64, values) ==> (remaining <==> |Encode(64, values)| % 8 != 0)
  {
    hide EncodeFrom, DecodeFrom, CoderAfter, Pad, Holds, StreamOf, Prefetched, FitsFrom, Narrow;
    var encoder := new Chimp128Encoder(Double);
    var encoded := encoder.EncodeF64Batch(values);
    var bytes := encoder.Flush([]);
    assert bytes[0..] == bytes;
    var decoder := new Chimp128Decoder(Double, build);
    r, decoded := decoder.ReadF64Batch(bytes, [], |values|);
    remaining := decoder.HasRemaining(bytes);
    PaddedLength(Encode(64, values));
    if Narrow(values) {
      NarrowFits(values);
    }
    if Fits(64, values) {
      RoundTrip(build, 64, values);
    }
  }
}
