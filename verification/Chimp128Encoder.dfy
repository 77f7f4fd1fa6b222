/**
  The Chimp128 encoder: a 64-bit accumulator that is drained into a byte buffer in stages
  of eight, four, two and one bytes, and the four-way choice of how to write a value.
 */
module Chimp128Encoders {
  import opened Bits
  import opened BitStream
  import opened Wrappers
  import opened Types
  import opened Chimp
  import opened ChimpRoundTrip

  function WidthOf(dataType: TSDataType): (width: nat)
    ensures IsWidth(width)
  {
    if dataType.Float? then 32 else 64
  }

  function SaturatingSub(x: nat, y: nat): nat
  {
    if x >= y then x - y else 0
  }

  class Chimp128Encoder {
    const dataType: TSDataType
    const bitWidth: nat
    var prevValue: u64
    var prevLeading: nat
    var prevTrailing: nat
    var count: nat
    var buffer: seq<u8>
    var bitBuffer: u64
    var bitsInBuffer: nat

    /** What has been written since the last flush. */
    ghost function Stream(): seq<bool>
      reads `buffer, `bitBuffer, `bitsInBuffer
    {
      StreamOf(buffer, bitBuffer, bitsInBuffer)
    }

    function State(): Coder
      reads `count, `prevValue, `prevLeading, `prevTrailing
    {
      Coder(count, prevValue, prevLeading, prevTrailing)
    }

    /** Fewer than eight bits are pending, and the rest of the accumulator is zero. */
    ghost predicate BitsOk()
      reads `buffer, `bitBuffer, `bitsInBuffer
    {
      bitsInBuffer < 8 && Holds(buffer, bitBuffer, bitsInBuffer, Stream())
    }

    ghost predicate Valid()
      reads this
    {
      BitsOk() && bitWidth == WidthOf(dataType) && CoderOk(bitWidth, State())
    }

    constructor (dataType: TSDataType)
      ensures Valid() && this.dataType == dataType
      ensures Stream() == [] && State() == START
    {
      this.dataType := dataType;
      bitWidth := WidthOf(dataType);
      prevValue, prevLeading, prevTrailing, count := 0, UNSET, 0, 0;
      buffer, bitBuffer, bitsInBuffer := [], 0, 0;
      new;
      ZeroBits(64);
      assert Zeros(64)[0..] == Zeros(64);
    }

    // ----- Writing bits -----

    method WriteBits(value: u64, numBits: nat)
      requires BitsOk() && numBits <= 64
      modifies `buffer, `bitBuffer, `bitsInBuffer
      ensures BitsOk() && Stream() == Put(old(Stream()), Field(value, numBits))
    {
      hide Put, StreamOf, Holds, BeBytes, Shl, Shr, Or;
      if numBits == 0 {
        PutNothing(Stream(), value);
        return;
      }
      ghost var s := Put(Stream(), Field(value, numBits));
      OrHolds(buffer, bitBuffer, bitsInBuffer, Stream(), Field(value, numBits));
      var shift := SaturatingSub(SaturatingSub(64, bitsInBuffer), numBits);
      bitBuffer := Or(bitBuffer, Shl(value, shift));
      bitsInBuffer := bitsInBuffer + numBits;

      if bitsInBuffer >= 64 {
        DrainAllHolds(buffer, bitBuffer, s);
        buffer := buffer + BeBytes(bitBuffer, 8);
        bitBuffer, bitsInBuffer := 0, 0;
        HoldsStream(buffer, bitBuffer, bitsInBuffer, s);
        return;
      }
      if bitsInBuffer >= 32 {
        DrainHolds(buffer, bitBuffer, bitsInBuffer, s, 4);
        buffer := buffer + BeBytes(Shr(bitBuffer, 32), 4);
        bitBuffer, bitsInBuffer := Shl(bitBuffer, 32), bitsInBuffer - 32;
        if bitsInBuffer < 8 {
          HoldsStream(buffer, bitBuffer, bitsInBuffer, s);
          return;
        }
      }
      if bitsInBuffer >= 16 {
        DrainHolds(buffer, bitBuffer, bitsInBuffer, s, 2);
        buffer := buffer + BeBytes(Shr(bitBuffer, 48), 2);
        bitBuffer, bitsInBuffer := Shl(bitBuffer, 16), bitsInBuffer - 16;
        if bitsInBuffer < 8 {
          HoldsStream(buffer, bitBuffer, bitsInBuffer, s);
          return;
        }
      }
      if bitsInBuffer >= 8 {
        DrainHolds(buffer, bitBuffer, bitsInBuffer, s, 1);
        buffer := buffer + BeBytes(Shr(bitBuffer, 56), 1);
        bitBuffer, bitsInBuffer := Shl(bitBuffer, 8), bitsInBuffer - 8;
      }
      HoldsStream(buffer, bitBuffer, bitsInBuffer, s);
    }

    method WriteBit(bit: bool)
      requires BitsOk()
      modifies `buffer, `bitBuffer, `bitsInBuffer
      ensures BitsOk() && Stream() == Put(old(Stream()), Bit(bit))
    {
      hide Put, StreamOf, Holds, BeBytes, Shl, Shr, Or;
      ghost var s := Put(Stream(), Bit(bit));
      OrHolds(buffer, bitBuffer, bitsInBuffer, Stream(), Bit(bit));
      bitBuffer := Or(bitBuffer, Shl(if bit then 1 else 0, 63 - bitsInBuffer));
      bitsInBuffer := bitsInBuffer + 1;
      if bitsInBuffer >= 8 {
        DrainHolds(buffer, bitBuffer, bitsInBuffer, s, 1);
        buffer := buffer + BeBytes(Shr(bitBuffer, 56), 1);
        bitBuffer, bitsInBuffer := Shl(bitBuffer, 8), bitsInBuffer - 8;
      }
      HoldsStream(buffer, bitBuffer, bitsInBuffer, s);
    }

    method FlushBits()
      requires BitsOk()
      modifies `buffer, `bitBuffer, `bitsInBuffer
      ensures BitsOk() && bitsInBuffer == 0
      ensures BytesToBits(buffer) == Stream() == Pad(old(Stream()))
    {
      if bitsInBuffer > 0 {
        FlushHolds(buffer, bitBuffer, bitsInBuffer, Stream());
        buffer := buffer + BeBytes(Shr(bitBuffer, 56), 1);
        bitBuffer, bitsInBuffer := 0, 0;
        ZeroBits(64);
        assert Zeros(64)[0..] == Zeros(64);
      } else {
        assert Zeros(0) == [];
      }
    }

    // ----- Encoding -----

    // The source has the next four methods inline in `EncodeBits`.

    /** Case 2: the window is reused. */
    method WriteReuse(data: u64, length: nat)
      requires BitsOk() && length <= 64
      modifies `buffer, `bitBuffer, `bitsInBuffer
      ensures BitsOk()
      ensures Stream() == Put(Put(Put(old(Stream()), Bit(true)), Bit(false)), Field(data, length))
    {
      hide Put, StreamOf, Holds;
      WriteBit(true);
      WriteBit(false);
      WriteBits(data, length);
    }

    /** Case 3: the number of leading zeros changes by at most one. */
    method WriteClose(delta: int, data: u64, length: nat)
      requires BitsOk() && length <= 64 && -1 <= delta <= 1
      modifies `buffer, `bitBuffer, `bitsInBuffer
      ensures BitsOk()
      ensures Stream()
           == Put(Put(Put(Put(Put(old(Stream()), Bit(true)), Bit(true)), Bit(false)),
                      Field(DeltaBits(delta), 2)), Field(data, length))
    {
      hide Put, StreamOf, Holds;
      WriteBit(true);
      WriteBit(true);
      WriteBit(false);
      var deltaBits: u64;
      if delta == -1 {
        deltaBits := 0;
      } else if delta == 0 {
        deltaBits := 1;
      } else {
        deltaBits := 2;
      }
      WriteBits(deltaBits, 2);
      WriteBits(data, length);
    }

    /** Case 4: a new window. */
    method WriteFresh(leading: nat, data: u64, length: nat)
      requires BitsOk() && length <= 64 && leading <= 64
      modifies `buffer, `bitBuffer, `bitsInBuffer
      ensures BitsOk()
      ensures Stream()
           == Put(Put(Put(Put(Put(Put(old(Stream()), Bit(true)), Bit(true)), Bit(true)),
                          Field(leading, 6)), Field(length, 6)), Field(data, length))
    {
      hide Put, StreamOf, Holds;
      WriteBit(true);
      WriteBit(true);
      WriteBit(true);
      WriteBits(leading, 6);
      WriteBits(length, 6);
      WriteBits(data, length);
    }

    /** The value differs from the previous one. */
    method EncodeXor(bits: u64, xor: u64)
      requires Valid() && IsValue(bitWidth, bits) && count > 0
      requires xor == XorWith(bitWidth, State(), bits) && xor != 0
      modifies `buffer, `bitBuffer, `bitsInBuffer, `prevLeading, `prevTrailing
      ensures BitsOk()
      ensures Stream() == EncodeStep(bitWidth, old(State()), bits, old(Stream()))
      ensures Coder(count + 1, bits, prevLeading, prevTrailing) == NextCoder(bitWidth, old(State()), bits)
    {
      hide Put, PutAll, StreamOf, Holds, EncodeStep, NextCoder, HeadFields, DataField;
      hide LeadingZeros, TrailingZeros, XorWith, Shr, DeltaBits, WidthOf, IsValue, Pow2;
      ghost var s, c := Stream(), State();
      var leading, trailing := LeadingZeros(xor, bitWidth), TrailingZeros(xor);
      if leading >= prevLeading && trailing >= prevTrailing {
        ReuseStep(bitWidth, c, bits, s);
        WriteReuse(Shr(xor, prevTrailing), bitWidth - prevLeading - prevTrailing);
      } else if trailing == prevTrailing
                && SaturatingSub(prevLeading, 1) <= leading <= prevLeading + 1 {
        CloseStep(bitWidth, c, bits, s);
        WriteClose(leading - prevLeading, Shr(xor, prevTrailing), bitWidth - leading - prevTrailing);
        prevLeading := leading;
      } else {
        FreshStep(bitWidth, c, bits, s);
        WriteFresh(leading, Shr(xor, trailing), bitWidth - leading - trailing);
        prevLeading := leading;
        prevTrailing := trailing;
      }
    }

    method EncodeBits(bits: u64)
      requires Valid() && IsValue(bitWidth, bits)
      modifies this
      ensures Valid()
      ensures Stream() == EncodeStep(bitWidth, old(State()), bits, old(Stream()))
      ensures State() == NextCoder(bitWidth, old(State()), bits)
    {
      hide Put, PutAll, StreamOf, Holds, EncodeStep, NextCoder, HeadFields, DataField, XorWith;
      ghost var s, c := Stream(), State();
      if count == 0 {
        FirstStep(bitWidth, c, bits, s);
        WriteBits(bits, bitWidth);
        prevValue := bits;
        count := 1;
        return;
      }
      var xor := XorWith(bitWidth, State(), bits);
      if xor == 0 {
        SameStep(bitWidth, c, bits, s);
        WriteBit(false);
      } else {
        EncodeXor(bits, xor);
      }
      prevValue := bits;
      count := count + 1;
    }

    // ----- The encoder interface -----

    /** Ends the stream: its bytes are handed out, and the buffer is left empty. */
    method Finish() returns (bytes: seq<u8>)
      requires BitsOk()
      modifies `buffer, `bitBuffer, `bitsInBuffer
      ensures BitsOk() && Stream() == []
      ensures BytesToBits(bytes) == Pad(old(Stream()))
    {
      FlushBits();
      bytes := buffer;
      buffer := [];
      assert ToBits(bitBuffer, 64)[..0] == [];
    }

    method Flush(out: seq<u8>) returns (out': seq<u8>)
      requires Valid()
      modifies `buffer, `bitBuffer, `bitsInBuffer
      ensures Valid() && Stream() == []
      ensures out <= out' && BytesToBits(out'[|out|..]) == Pad(old(Stream()))
      ensures |out'| == |out| + old(BufferedSize())
    {
      var bytes := Finish();
      out' := out + bytes;
      assert out'[|out|..] == bytes;
      assert 8 * |bytes| == |Pad(old(Stream()))|;
    }

    /** The number of bytes that a flush would append now. */
    function BufferedSize(): nat
      reads `buffer, `bitsInBuffer
    {
      |buffer| + if bitsInBuffer > 0 then 1 else 0
    }

    /** A reset encoder behaves as a new one. */
    method Reset()
      requires Valid()
      modifies this
      ensures Valid() && Stream() == [] && State() == START
    {
      prevValue, prevLeading, prevTrailing, count := 0, UNSET, 0, 0;
      buffer, bitBuffer, bitsInBuffer := [], 0, 0;
      ZeroBits(64);
      assert Zeros(64)[0..] == Zeros(64);
    }

    method EncodeF32(value: u32) returns (r: Result<(), Error>)
      requires Valid()
      modifies this
      ensures Valid() && r.Success? == dataType.Float?
      ensures r.Failure? ==> r.error == WrongType && Stream() == old(Stream()) && State() == old(State())
      ensures r.Success? ==>
                && IsValue(32, value)
                && Stream() == EncodeStep(32, old(State()), value, old(Stream()))
                && State() == NextCoder(32, old(State()), value)
    {
      if dataType != Float {
        return Failure(WrongType);
      }
      Pow2Of64();
      EncodeBits(value);
      return Success(());
    }

    method EncodeF64(value: u64) returns (r: Result<(), Error>)
      requires Valid()
      modifies this
      ensures Valid() && r.Success? == dataType.Double?
      ensures r.Failure? ==> r.error == WrongType && Stream() == old(Stream()) && State() == old(State())
      ensures r.Success? ==>
                && IsValue(64, value)
                && Stream() == EncodeStep(64, old(State()), value, old(Stream()))
                && State() == NextCoder(64, old(State()), value)
    {
      if dataType != Double {
        return Failure(WrongType);
      }
      Pow2Of64();
      EncodeBits(value);
      return Success(());
    }

    /** The loop of both batch methods. */
    method EncodeAll(values: seq<u64>)
      requires Valid() && AreValues(bitWidth, values)
      modifies this
      ensures Valid()
      ensures Stream() == EncodeFrom(bitWidth, old(State()), old(Stream()), values)
      ensures State() == CoderAfter(bitWidth, old(State()), values)
    {
      hide EncodeStep, NextCoder, EncodeFrom, CoderAfter, StreamOf, Holds, CoderOk;
      ghost var c, s := State(), Stream();
      EncodeNothing(bitWidth, c, s, values[..0]);
      for i := 0 to |values|
        invariant Valid()
        invariant Stream() == EncodeFrom(bitWidth, c, s, values[..i])
        invariant State() == CoderAfter(bitWidth, c, values[..i])
      {
        EncodeBits(values[i]);
        EncodeSnoc(bitWidth, c, s, values[..i], values[i]);
        assert values[..i + 1] == values[..i] + [values[i]];
      }
      assert values[..|values|] == values;
    }

    method EncodeF32Batch(values: seq<u32>) returns (r: Result<(), Error>)
      requires Valid()
      modifies this
      ensures Valid() && r.Success? == dataType.Float?
      ensures r.Failure? ==> r.error == WrongType && Stream() == old(Stream()) && State() == old(State())
      ensures r.Success? ==>
                && AreValues(32, values)
                && Stream() == EncodeFrom(32, old(State()), old(Stream()), values)
                && State() == CoderAfter(32, old(State()), values)
    {
      hide EncodeFrom, CoderAfter, StreamOf, Holds, CoderOk, AreValues;
      if dataType != Float {
        return Failure(WrongType);
      }
      FloatValues(values);
      EncodeAll(values);
      return Success(());
    }

    method EncodeF64Batch(values: seq<u64>) returns (r: Result<(), Error>)
      requires Valid()
      modifies this
      ensures Valid() && r.Success? == dataType.Double?
      ensures r.Failure? ==> r.error == WrongType && Stream() == old(Stream()) && State() == old(State())
      ensures r.Success? ==>
                && AreValues(64, values)
                && Stream() == EncodeFrom(64, old(State()), old(Stream()), values)
                && State() == CoderAfter(64, old(State()), values)
    {
      hide EncodeFrom, CoderAfter, StreamOf, Holds, CoderOk, AreValues;
      if dataType != Double {
        return Failure(WrongType);
      }
      DoubleValues(values);
      EncodeAll(values);
      return Success(());
    }
  }

  lemma FloatValues(values: seq<u32>)
    ensures var bits: seq<u64> := values;
            AreValues(32, bits)
  {
    Pow2Of64();
  }

  lemma DoubleValues(values: seq<u64>)
    ensures AreValues(64, values)
  {
    Pow2Of64();
  }

  lemma EncodeNothing(width: nat, c: Coder, s: seq<bool>, vs: seq<u64>)
    requires CoderOk(width, c) && |vs| == 0
    ensures EncodeFrom(width, c, s, vs) == s && CoderAfter(width, c, vs) == c
  {
  }

  // ----- The branches, as sequences of writes -----

  lemma FirstStep(width: nat, c: Coder, v: u64, s: seq<bool>)
    requires CoderOk(width, c) && IsValue(width, v) && CaseOf(width, c, v) == First
    ensures EncodeStep(width, c, v, s) == Put(s, Field(v, width))
    ensures NextCoder(width, c, v) == c.(count := 1, prev := v)
  {
    hide Put, PutAll;
    PutOne(s, Field(v, width));
  }

  lemma SameStep(width: nat, c: Coder, v: u64, s: seq<bool>)
    requires CoderOk(width, c) && IsValue(width, v) && CaseOf(width, c, v) == Same
    ensures EncodeStep(width, c, v, s) == Put(s, Bit(false))
    ensures NextCoder(width, c, v) == c.(count := c.count + 1) && c.prev == v
  {
    hide Put, PutAll;
    PutTwo(s, Bit(false), Field(0, 0));
    PutNothing(Put(s, Bit(false)), 0);
    XorUndo(c.prev, v);
  }

  lemma ReuseStep(width: nat, c: Coder, v: u64, s: seq<bool>)
    requires CoderOk(width, c) && IsValue(width, v) && CaseOf(width, c, v) == Reuse
    ensures width - c.leading - c.trailing >= 0
    ensures EncodeStep(width, c, v, s)
         == Put(Put(Put(s, Bit(true)), Bit(false)),
                Field(Shr(XorWith(width, c, v), c.trailing), width - c.leading - c.trailing))
    ensures NextCoder(width, c, v) == c.(count := c.count + 1, prev := v)
  {
    hide Put, PutAll;
    WindowHoldsAll(XorWith(width, c, v), width, c.leading, c.trailing);
    PutThree(s, Bit(true), Bit(false), DataField(width, c, v));
  }

  lemma CloseStep(width: nat, c: Coder, v: u64, s: seq<bool>)
    requires CoderOk(width, c) && IsValue(width, v) && CaseOf(width, c, v) == Close
    ensures var leading := LeadingZeros(XorWith(width, c, v), width);
            && width - leading - c.trailing >= 0
            && EncodeStep(width, c, v, s)
               == Put(Put(Put(Put(Put(s, Bit(true)), Bit(true)), Bit(false)),
                          Field(DeltaBits(leading - c.leading), 2)),
                      Field(Shr(XorWith(width, c, v), c.trailing), width - leading - c.trailing))
            && NextCoder(width, c, v) == Coder(c.count + 1, v, leading, c.trailing)
  {
    hide Put, PutAll;
    var leading := LeadingZeros(XorWith(width, c, v), width);
    WindowHoldsAll(XorWith(width, c, v), width, leading, c.trailing);
    PutFive(s, Bit(true), Bit(true), Bit(false), Field(DeltaBits(leading - c.leading), 2),
            DataField(width, c, v));
  }

  lemma FreshStep(width: nat, c: Coder, v: u64, s: seq<bool>)
    requires CoderOk(width, c) && IsValue(width, v) && CaseOf(width, c, v) == Fresh
    ensures var xor := XorWith(width, c, v);
            var leading, trailing := LeadingZeros(xor, width), TrailingZeros(xor);
            && width - leading - trailing >= 0
            && EncodeStep(width, c, v, s)
               == Put(Put(Put(Put(Put(Put(s, Bit(true)), Bit(true)), Bit(true)), Field(leading, 6)),
                          Field(width - leading - trailing, 6)),
                      Field(Shr(xor, trailing), width - leading - trailing))
            && NextCoder(width, c, v) == Coder(c.count + 1, v, leading, trailing)
  {
    hide Put, PutAll;
    var xor := XorWith(width, c, v);
    var leading, trailing := LeadingZeros(xor, width), TrailingZeros(xor);
    WindowHoldsAll(xor, width, leading, trailing);
    PutSix(s, Bit(true), Bit(true), Bit(true), Field(leading, 6), Field(width - leading - trailing, 6),
           DataField(width, c, v));
  }

  lemma PutNothing(s: seq<bool>, value: u64)
    ensures Put(s, Field(value, 0)) == s
  {
  }

  lemma PutOne(s: seq<bool>, a: Field)
    requires a.len <= 64
    ensures PutAll(s, [] + [a]) == Put(s, a)
  {
    hide Put;
    assert [] + [a] == [a] && [a][1..] == [];
    assert PutAll(Put(s, a), []) == Put(s, a);
  }

  lemma PutTwo(s: seq<bool>, a: Field, b: Field)
    requires a.len <= 64 && b.len <= 64
    ensures PutAll(s, [a] + [b]) == Put(Put(s, a), b)
  {
    hide Put;
    PutOne(s, a);
    PutAllSnoc(s, [] + [a], b);
    assert [] + [a] == [a];
  }

  lemma PutThree(s: seq<bool>, a: Field, b: Field, c: Field)
    requires a.len <= 64 && b.len <= 64 && c.len <= 64
    ensures PutAll(s, [a, b] + [c]) == Put(Put(Put(s, a), b), c)
  {
    hide Put;
    PutTwo(s, a, b);
    PutAllSnoc(s, [a] + [b], c);
    assert [a] + [b] == [a, b];
  }

  lemma PutFive(s: seq<bool>, a: Field, b: Field, c: Field, d: Field, e: Field)
    requires a.len <= 64 && b.len <= 64 && c.len <= 64 && d.len <= 64 && e.len <= 64
    ensures PutAll(s, [a, b, c, d] + [e]) == Put(Put(Put(Put(Put(s, a), b), c), d), e)
  {
    hide Put;
    PutThree(s, a, b, c);
    PutAllSnoc(s, [a, b] + [c], d);
    assert [a, b] + [c] + [d] == [a, b, c, d];
    PutAllSnoc(s, [a, b, c, d], e);
  }

  lemma PutSix(s: seq<bool>, a: Field, b: Field, c: Field, d: Field, e: Field, f: Field)
    requires a.len <= 64 && b.len <= 64 && c.len <= 64 && d.len <= 64 && e.len <= 64 && f.len <= 64
    ensures PutAll(s, [a, b, c, d, e] + [f]) == Put(Put(Put(Put(Put(Put(s, a), b), c), d), e), f)
  {
    hide Put;
    PutFive(s, a, b, c, d, e);
    assert [a, b, c, d] + [e] == [a, b, c, d, e];
    PutAllSnoc(s, [a, b, c, d, e], f);
  }
}
