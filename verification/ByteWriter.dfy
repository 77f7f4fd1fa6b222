/**
  The simple form of the bit writer, which drains its accumulator one byte at a time, and
  the proof that the staged drain of the Chimp128 encoder is a faster way to do the same.
 */
module ByteWriters {
  import opened Bits
  import opened BitStream
  import opened Chimp128Encoders

  class ByteWriter {
    var buffer: seq<u8>
    var bitBuffer: u64
    var bitsInBuffer: nat

    ghost function Stream(): seq<bool>
      reads this
    {
      StreamOf(buffer, bitBuffer, bitsInBuffer)
    }

    ghost predicate Valid()
      reads this
    {
      bitsInBuffer < 8 && Holds(buffer, bitBuffer, bitsInBuffer, Stream())
    }

    method WriteBits(value: u64, numBits: nat)
      requires Valid() && numBits <= 64
      modifies this
      ensures Valid() && Stream() == Put(old(Stream()), Field(value, numBits))
    {
      hide Put, StreamOf, Holds, BeBytes, Shl, Shr, Or;
      if numBits == 0 {
        PutNothing(Stream(), value);
        return;
      }
      ghost var s := Put(Stream(), Field(value, numBits));
      OrHolds(buffer, bitBuffer, bitsInBuffer, Stream(), Field(value, numBits));
      var shift := SaturatingSub(SaturatingSub(64, bitsInBuffer), numBits);
      bitBuffer := Or(bitBuffer, Shl(value, shift));
      bitsInBuffer := bitsInBuffer + numBits;
      if bitsInBuffer >= 64 {
        DrainAllHolds(buffer, bitBuffer, s);
        buffer := buffer + BeBytes(bitBuffer, 8);
        bitBuffer, bitsInBuffer := 0, 0;
      } else {
        while bitsInBuffer >= 8
          invariant Holds(buffer, bitBuffer, bitsInBuffer, s)
          decreases bitsInBuffer
        {
          DrainHolds(buffer, bitBuffer, bitsInBuffer, s, 1);
          buffer := buffer + BeBytes(Shr(bitBuffer, 56), 1);
          bitBuffer, bitsInBuffer := Shl(bitBuffer, 8), bitsInBuffer - 8;
        }
      }
      HoldsStream(buffer, bitBuffer, bitsInBuffer, s);
    }
  }

  /**
    Given the same field in the same state, the staged drain and the byte-at-a-time drain
    end with the same bytes and the same accumulator, whether or not the field fits.
   */
  method DrainsAgree(staged: Chimp128Encoder, simple: ByteWriter, value: u64, numBits: nat)
    requires staged.BitsOk() && simple.Valid() && numBits <= 64
    requires staged.buffer == simple.buffer && staged.bitBuffer == simple.bitBuffer
    requires staged.bitsInBuffer == simple.bitsInBuffer
    modifies staged`buffer, staged`bitBuffer, staged`bitsInBuffer, simple
    ensures staged.buffer == simple.buffer && staged.bitBuffer == simple.bitBuffer
    ensures staged.bitsInBuffer == simple.bitsInBuffer < 8
  {
    hide Put, StreamOf, Holds;
    staged.WriteBits(value, numBits);
    simple.WriteBits(value, numBits);
    HoldsUnique(staged.buffer, staged.bitBuffer, staged.bitsInBuffer,
                simple.buffer, simple.bitBuffer, simple.bitsInBuffer, staged.Stream());
  }
}
