# Verified models of the Timbre time-series file format

This project models the codecs and the ingestion path of a time-series file library and
proves what they promise: that compressed values come back, that columnar tablets hold the
rows they were given, that grouping a batch by device loses nothing, and that page statistics
merge to chunk statistics.

`dafny verify dfyconfig.toml` checks everything.

## How the model is laid out

| files | what they hold |
|---|---|
| `Wrappers`, `Types`, `Integers`, `Bits`, `Digits`, `LittleEndian` | outcomes, data types, machine integers (overflow included), bits and what they mean in arithmetic, bytes |
| `BitStream` | putting a field at the end of a bit stream and reading one from it, as the 64-bit accumulator and prefetch buffer do it |
| `Chimp`, `ChimpCode`, `ChimpRoundTrip`, `ChimpLoss`, `ChimpOverlap`, `ChimpDomain`, `ChimpChance`, `ChimpSize` | the Chimp128 float codec on values: its steps, its code in plain arithmetic, lossless round trip, exact domain for doubles and why it speaks of prefixes, stream size |
| `Chimp128Encoder`, `Chimp128Decoder`, `ChimpCodec`, `ByteWriter` | the same codec as classes that update their fields, and the byte-at-a-time bit writer it is a faster form of |
| `ZigZag`, `Simple8b`, `Simple8bQueue`, `Simple8bCodec` | the Simple8b word codec: packing, its queue, encoder and decoder |
| `DeltaOfDelta`, `DeltaOfDeltaStream`, `DeltaOfDeltaCodec` | second-order differencing over Simple8b |
| `BitMap`, `Sheet`, `Tablet`, `TabletRuns` | the packed null bitmap, and tablets filled row by row or in bulk |
| `Grouping`, `FromArrow` | columnar batches: grouping by device, the column extraction paths, the tablets |
| `Statistics`, `StatisticObjects` | page statistics and their merging |

Floating-point values are their bit patterns, so NaN payloads are covered. Machine integers
are numbers with an explicit range. Where the program's integer overflow depends on how it is
built, a `Build` parameter says whether it stops (`Checked`, an overflow check fails) or wraps
around (`Wrapping`), and the theorems hold for both unless they say otherwise.

## What was found

* **Doubles are not always lossless.** The Chimp128 module follows a paper on lossless
  compression (src/encoding/chimp128.rs:52-55). The code loses bits when a data field does not fit behind the pending
  bits of its byte in the 64-bit accumulator, and when a fresh window has all 64 bits, whose
  length does not fit in 6 bits. The model follows the code: `ChimpDomain.LosslessExactly`
  proves exactly which sequences of doubles survive together with all their prefixes.
  Prefixes are needed: `ChimpChance.ComesBackByChance` gives eight doubles that come back
  although the sixth does not fit, because later values happen to supply the lost bits, while
  the first six alone do not come back. `ChimpDomain.NeverRecovered` proves that no later
  values help if the first misfit has a fresh window, or if only zero bits of its field go
  into the overlap; `ChimpDomain.LossyPair` is an instance. `ChimpSize.NarrowFits` gives a
  sufficient condition on the values alone. Floats always survive
  (`ChimpRoundTrip.FloatRoundTrip`).
* **The Chimp128 comment describes another layout.** It says that a new range writes leading
  and trailing counts and that a close range may shift by one either way
  (src/encoding/chimp128.rs:13-16). The code writes leading count and length, and only ever a
  shift by minus one (`ChimpRoundTrip.CloseMeansOneLess`). The model follows the code.
* **Simple8b carries 60 bits.** Its words give back exactly the values below 2^60
  (`Simple8bQueue.WordsReadBack`); beyond that a queue that is held up can even turn zeros into
  ones: an oversized value, 120 zeros and a one come back as a cut value and 121 ones
  (`Simple8bQueue.ZerosReturnAsOnes`). The table comment calls selector 1 "all ones", while
  the encoder packs only zeros with it; within the range it is never chosen.
* **Delta-of-delta decoders need a 64-bit integer type.** The encoder packs 64-bit integers
  whatever its type, but the decoder hands its own type on, so from the third value on a
  decoder for any other type fails (`DeltaOfDeltaStream.Lossless`).
* **Bulk insertion does not check the order of time stamps**, so it agrees with row-by-row
  insertion into an aligned tablet exactly when they increase (`TabletRuns.BulkAgainstRows`).

## Model

| member | source | states |
|---|---|---|
| BitStream.PutAppends | src/encoding/chimp128.rs:207-260 | writing a field that fits behind the pending bits appends exactly its bits to the stream |
| BitStream.PutAppendsOnlyIfRoom | src/encoding/chimp128.rs:207-226 | and only then: the result is the appended bits only if pending bits and field fit in 64 |
| BitStream.HoldsUnique | src/encoding/chimp128.rs:207-287 | with fewer than eight pending bits, the bytes and the accumulator are determined by the stream they hold |
| BitStream.ReadBack | src/encoding/chimp128.rs:652-687 | a field that fits is read back as its value where it was written |
| Digits.StreamLayout | src/encoding/chimp128.rs:217-260 | the bits of a byte array, byte by byte with the highest bit first: each is the binary digit of its byte |
| Digits.BeByteIs | src/encoding/chimp128.rs:221-244 | byte i of the n big-endian bytes of x is x / 256^(n-1-i) modulo 256 |
| Digits.XorBits | src/encoding/chimp128.rs:321 | XOR compares two numbers digit by digit |
| Chimp128Encoders.Chimp128Encoder.WriteBits | src/encoding/chimp128.rs:207-260 | the accumulator and the 8/4/2/1-byte drain do to the stream what putting the field does, overflow included; fewer than eight bits stay pending and the rest of the accumulator is zero |
| Chimp128Encoders.Chimp128Encoder.WriteBit | src/encoding/chimp128.rs:266-277 | the same for one bit |
| Chimp128Encoders.Chimp128Encoder.FlushBits | src/encoding/chimp128.rs:280-287 | the bytes are the stream padded with zeros to a whole byte |
| Chimp128Encoders.Chimp128Encoder.EncodeBits | src/encoding/chimp128.rs:309-394 | one value adds to the stream, and changes the remembered window, as the code's step says; what that step is, the `ChimpCode` rows say without its branches |
| Chimp128Encoders.Chimp128Encoder.WriteReuse | src/encoding/chimp128.rs:332-340 | case 2: two control bits and the data field |
| Chimp128Encoders.Chimp128Encoder.WriteClose | src/encoding/chimp128.rs:341-368 | case 3: control bits, the 2-bit change of the leading count, and the data field |
| Chimp128Encoders.Chimp128Encoder.WriteFresh | src/encoding/chimp128.rs:369-389 | case 4: control bits, leading count, length, and the data field |
| ChimpCode.FirstCode | src/encoding/chimp128.rs:312-319 | the first value is written in full width and the window stays unset |
| ChimpCode.RepeatCode | src/encoding/chimp128.rs:323-325 | a repeated value is one zero bit, and the window stays |
| ChimpCode.WindowCode | src/encoding/chimp128.rs:332-340 | if the XOR x is below 2^(width - leading) and 2^trailing divides it: `10` and x / 2^trailing in the window's length, 2 + length bits, and the window stays |
| ChimpCode.CloseCode | src/encoding/chimp128.rs:341-368 | if 2^trailing divides x with an odd quotient and 2^(width - leading) <= x < 2^(width - leading + 1): `11000` and the quotient in one bit more, and the leading count drops by one |
| ChimpCode.FreshCode | src/encoding/chimp128.rs:369-389 | for every other x: `111`, its exact leading zeros and length in six bits each, its significant bits, 15 + length bits, and the window is the exact one |
| Chimp128Encoders.Chimp128Encoder.Finish | src/encoding/chimp128.rs:397-400 | hands out the padded stream and leaves the buffer empty |
| Chimp128Encoders.Chimp128Encoder.Flush | src/encoding/chimp128.rs:505-510 | appends the padded stream, as many bytes as `BufferedSize` promised |
| Chimp128Encoders.Chimp128Encoder.Reset | src/encoding/chimp128.rs:416-424 | a reset encoder has the state and the empty stream of a new one |
| Chimp128Encoders.Chimp128Encoder.EncodeF32 | src/encoding/chimp128.rs:428-440 | a float is encoded, or refused for the wrong data type with nothing changed |
| Chimp128Encoders.Chimp128Encoder.EncodeF64 | src/encoding/chimp128.rs:442-454 | the same for a double |
| Chimp128Encoders.Chimp128Encoder.EncodeF32Batch | src/encoding/chimp128.rs:464-484 | a batch writes what its values one by one write |
| Chimp128Encoders.Chimp128Encoder.EncodeF64Batch | src/encoding/chimp128.rs:486-503 | the same for doubles |
| ByteWriters.ByteWriter.WriteBits | benches/profile_write_bits_detailed.rs:42-73 | the byte-at-a-time loop also does what putting the field does |
| ByteWriters.DrainsAgree | benches/profile_write_bits_detailed.rs:42-73 | from the same state, both drains end with the same bytes and the same accumulator, for every field |
| ChimpRoundTrip.CloseMeansOneLess | src/encoding/chimp128.rs:332-368 | case 3 is only reached with the same trailing count and exactly one leading zero fewer, so only one delta is ever written and its field is the XOR's significant bits |
| ChimpRoundTrip.HeadFits | src/encoding/chimp128.rs:332-389 | the control fields always fit, the length of a full window excepted |
| ChimpRoundTrip.StepAppends | src/encoding/chimp128.rs:309-394 | a value whose data field fits only appends its code to the stream |
| ChimpRoundTrip.PlanDecodes | src/encoding/chimp128.rs:730-780 | the decoder reads from the control bits the window that the encoder used |
| ChimpRoundTrip.StepDecodes | src/encoding/chimp128.rs:712-791 | one value: the decoder returns it and moves to the encoder's next state |
| ChimpCode.ZeroReads | src/encoding/chimp128.rs:724-730 | in any stream a zero bit returns the previous value and leaves the window |
| ChimpCode.TwoReads | src/encoding/chimp128.rs:735-741 | in any stream `10` reads a field of the window's length, shifts it up and XORs it to the previous value |
| ChimpCode.DeltaReads | src/encoding/chimp128.rs:746-768 | in any stream `110` and 0, 1 or 2 change the leading count by -1, 0 or 1, and 3 is refused |
| ChimpCode.FreshReads | src/encoding/chimp128.rs:770-776 | in any stream `111` reads leading count and length; if together they exceed the width the byte arithmetic stops, or wraps around |
| ChimpCode.ShiftArithmetic | src/encoding/chimp128.rs:784 | the shift multiplies by 2^trailing in 64 bits; from 64 places on it stops, or starts over |
| ChimpCode.ByteArithmetic | src/encoding/chimp128.rs:735-776 | differences and changes of byte counts are exact modulo 256 and stop a checked build exactly where the byte overflows |
| ChimpRoundTrip.EncodeFromConcat | src/encoding/chimp128.rs:464-503 | encoding a sequence in two parts writes the same stream |
| ChimpRoundTrip.EncodeAppends | src/encoding/chimp128.rs:309-394 | a sequence that fits appends as many bits as its values cost (width, 1, 2+L, 5+L or 15+L) |
| ChimpRoundTrip.PrefixStream | src/encoding/chimp128.rs:464-503 | the stream of a prefix of the values is a prefix of the stream |
| ChimpRoundTrip.DecodeFollows | src/encoding/chimp128.rs:712-791 | a decoder that reads any extension of the stream recovers the values and ends in the encoder's state |
| ChimpRoundTrip.DecodeConcat | src/encoding/chimp128.rs:829-884 | reading m values and then n values is reading m + n values, with the same values, state and position or the same failure |
| ChimpRoundTrip.Lockstep | src/encoding/chimp128.rs:712-791 | after k reads the decoder has the encoder's previous value, leading and trailing counts after k values, and stands where the stream of k values ends |
| ChimpRoundTrip.RoundTrip | src/encoding/chimp128.rs:207-791 | every sequence whose data fields fit comes back from its padded stream |
| ChimpRoundTrip.FloatRoundTrip | src/encoding/chimp128.rs:207-791 | every sequence of 32-bit patterns comes back |
| ChimpDomain.LosslessExactly | src/encoding/chimp128.rs:207-394 | a sequence of 64-bit patterns and all its prefixes come back if and only if every data field fits where the encoder puts it |
| ChimpChance.ComesBackByChance | src/encoding/chimp128.rs:207-394 | eight given doubles come back although the sixth does not fit, and the first six alone do not: the equivalence cannot do without prefixes |
| ChimpDomain.LossyPair | src/encoding/chimp128.rs:369-389 | no sequence that begins with +0.0 and a negative double whose last mantissa bit is set comes back, whatever follows |
| ChimpLoss.LostInPlace | src/encoding/chimp128.rs:213-260 | from the stream that ends with it, a decoder in the encoder's state does not recover a value whose field overflowed the accumulator |
| ChimpLoss.FullLost | src/encoding/chimp128.rs:770-784 | in every stream in which the three leading control bits survive, a value with a full 64-bit window is not recovered: a field of at most 63 bits cannot hold both its first and its last bit |
| ChimpLoss.FreshTooWide | src/encoding/chimp128.rs:369-389 | the overlap of a shorter fresh window can only raise its 6-bit length, so its data field stays unreadable in every stream that goes on from it |
| ChimpLoss.LostWithoutOverlap | src/encoding/chimp128.rs:332-340 | if only zero bits of the field go into the overlap, the decoder reads the same control bits and finds the field too wide, whatever follows |
| ChimpDomain.NeverRecovered | src/encoding/chimp128.rs:207-394 | if the first value that does not fit has a fresh window, or only zero bits of its field go into the overlap, no continuation of the sequence comes back |
| ChimpDomain.LastValueLost | src/encoding/chimp128.rs:207-394 | if the last value is the first whose field does not fit, the sequence does not come back |
| ChimpSize.WindowOrigin | src/encoding/chimp128.rs:321-393 | the window stays unset while values repeat, and from the first change on it is the exact, non-empty window of some earlier XOR, so it is never reused before it is set |
| ChimpSize.NarrowFits | src/encoding/chimp128.rs:213-226 | doubles whose neighbouring XORs have at most 57 significant bits fit, in nine bytes a value |
| ChimpSize.StreamSize | src/encoding/chimp128.rs:178-179 | the stream is exactly as long as its values cost; floats, and doubles under the 57-bit condition, take at most nine bytes each |
| ChimpSize.ConstantSize | src/encoding/chimp128.rs:321-330 | n equal values take width + n - 1 bits |
| ChimpSize.PaddingRepeats | src/encoding/chimp128.rs:722-729 | after the counted reads fewer than eight bits are left, and each of them would decode as one more repeat of the last value |
| Chimp128Decoders.Chimp128Decoder.RefillBuffer | src/encoding/chimp128.rs:608-645 | a refill appends whole bytes of the input behind the bits that are there and does not move the read position |
| Chimp128Decoders.Chimp128Decoder.ReadBits | src/encoding/chimp128.rs:652-687 | reads the bits at the position as a number and moves past them; succeeds exactly when they are there and fit in the buffer behind the offset of the position in its byte, and does not move on failure |
| Chimp128Decoders.Chimp128Decoder.ReadWindow | src/encoding/chimp128.rs:730-780 | what follows a leading one bit is read as the code's plan for the window says, errors included |
| Chimp128Decoders.Chimp128Decoder.DecodeBits | src/encoding/chimp128.rs:712-791 | one value is decoded as the code's step says, errors included |
| Chimp128Decoders.Chimp128Decoder.HasRemaining | src/encoding/chimp128.rs:915-918 | true exactly when some bit is unread |
| Chimp128Decoders.Chimp128Decoder.ReadF32 | src/encoding/chimp128.rs:795-805 | one float, or the error of the wrong data type |
| Chimp128Decoders.Chimp128Decoder.ReadF64 | src/encoding/chimp128.rs:807-816 | one double, or the error of the wrong data type |
| Chimp128Decoders.Chimp128Decoder.ReadF32Batch | src/encoding/chimp128.rs:829-857 | a batch returns what that many single reads return, and fails if one of them does |
| Chimp128Decoders.Chimp128Decoder.ReadF64Batch | src/encoding/chimp128.rs:859-884 | the same for doubles |
| ChimpCodec.FloatsThere | src/encoding/chimp128.rs:464-918 | through the real accumulator and prefetch buffer: encode a batch of floats, flush, decode with a new decoder, get the batch back, in at most nine bytes a value; something remains to be read after that exactly if the last byte was padded |
| ChimpCodec.DoublesThere | src/encoding/chimp128.rs:464-918 | the same for doubles: the batch comes back exactly when the round trip of the model succeeds, so whenever every field fits, and then something remains exactly if the last byte was padded |
| ZigZags.ZigZagOrder | src/encoding/simple8b.rs:123-131 | shift and XOR map v to 2v or -2v-1 |
| ZigZags.UnZigZagOf | src/encoding/simple8b.rs:398-402 | below 2^63 the decoder's formula is the inverse of the encoder's |
| ZigZags.ZigZagInverse | src/encoding/simple8b.rs:398-402 | because its right shift is signed, the decoder undoes the encoder exactly on numbers of 63 bits |
| Integers.WrapIs | src/encoding/delta_of_delta.rs:117-126 | a wrapped result is the one 64-bit number that differs by a multiple of 2^64, and an overflow is a number it changes |
| Simple8b.MaxValueBits | src/encoding/simple8b.rs:51-88 | the two tables agree: the greatest value of a selector is that of its bit width |
| Simple8b.SelectorTable | src/encoding/simple8b.rs:51-68 | 240 and 120 values of no bits, and then, by decreasing count, pairs that fill 60 bits so that neither one more value nor one more bit a value fits |
| Simple8b.PackOne | src/encoding/simple8b.rs:180-187 | OR-ing in a shifted value puts it into the next slot and leaves the others alone |
| Simple8b.WordNumber | src/encoding/simple8b.rs:168-188 | a word is the number selector * 2^60 plus the sum of the values times 2^(width * index) |
| Simple8b.WordUnpacks | src/encoding/simple8b.rs:168-188 | a word unpacks to the values packed into it, if they fit and the selector is not 1 |
| Simple8b.OnesUnpack | src/encoding/simple8b.rs:171-178 | selector 1 reads as ones, whatever was packed |
| Simple8bQueue.PushWaits | src/encoding/simple8b.rs:123-131 | nothing leaves before sixty values wait; with the sixtieth, in range, exactly one word does |
| Simple8bQueue.FirstFit | src/encoding/simple8b.rs:134-245 | the first selector whose slots the first values fill, each below 2^bits, or at the end hold all there are, takes them out in one word; the rest waits on |
| Simple8bQueue.WordCount | src/encoding/simple8b.rs:134-245 | any number n of codes that need exactly b bits each, 1 <= b <= 60, leave in n / (60 / b) words, rounded up |
| Simple8bQueue.PushKnows | src/encoding/simple8b.rs:123-165 | below 2^60, packing in the middle of a run neither loses nor changes a value, and fewer than sixty wait |
| Simple8bQueue.FinishKnows | src/encoding/simple8b.rs:191-245 | finishing packs every waiting value; only zeros are added, at the end |
| Simple8bQueue.WordsReadBack | src/encoding/simple8b.rs:134-245 | the words for a sequence decode to it, and then zeros, if and only if all its values are below 2^60 |
| Simple8bQueue.ZerosBecomeOnes | src/encoding/simple8b.rs:140-155 | any queue of 120 or more zeros that are not part of 240 emits a word of ones |
| Simple8bQueue.HeldUp | src/encoding/simple8b.rs:123-155 | behind a first value of 2^60 or more an encoder packs nothing until 240 values wait, so such queues are reached |
| Simple8bQueue.Released | src/encoding/simple8b.rs:159-164 | with the 240th waiting value, and not before, an oversized first value leaves alone, in a word of selector 15 |
| Simple8bQueue.ZerosReturnAsOnes | src/encoding/simple8b.rs:191-245 | the words for an oversized value, 120 zeros and a one read as its low 60 bits, 120 ones, a one, and zeros |
| Simple8bCodec.Simple8bEncoder.PackValues | src/encoding/simple8b.rs:168-188 | the loop of shifts and ORs builds the word of the selector and the values |
| Simple8bCodec.Simple8bEncoder.TryPack | src/encoding/simple8b.rs:134-165 | the first selector that can be filled is used; with 240 waiting values and none, the first value is cut to 60 bits; the table itself is fixed by `SelectorTable` and `WordCount` |
| Simple8bCodec.Simple8bEncoder.EncodeI64 | src/encoding/simple8b.rs:265-273 | queues the zigzag code and packs from sixty on, or refuses the data type |
| Simple8bCodec.Simple8bEncoder.Finish | src/encoding/simple8b.rs:191-245 | packs the queue to the end, filling the last word up with zeros |
| Simple8bCodec.Simple8bEncoder.Flush | src/encoding/simple8b.rs:293-299 | appends all words, lowest byte first |
| Simple8bCodec.Simple8bDecoder.EnsureWord | src/encoding/simple8b.rs:336-356 | takes a word when needed without changing the values to come; fails exactly when there are none |
| Simple8bCodec.Simple8bDecoder.ReadI64 | src/encoding/simple8b.rs:382-428 | returns the next of the values to come and leaves the rest, or fails with the right error |
| LittleEndian.WordsRoundTrip | src/encoding/simple8b.rs:293-299 | words written as bytes are read back from where they start |
| LittleEndian.LeByteIs | src/encoding/delta_of_delta.rs:113-121 | byte i of a number is x / 256^i modulo 256, the lowest byte first |
| LittleEndian.AllBytesHold | src/encoding/simple8b.rs:293-299 | words one after the other take eight bytes each, in order, each with its lowest byte first |
| DeltaOfDelta.StepInverse | src/encoding/delta_of_delta.rs:106-137 | from any state, the encoder's step on a value and the decoder's step on the number it writes are inverse, overflow included |
| DeltaOfDelta.Inverse | src/encoding/delta_of_delta.rs:239-273 | on whole sequences differencing and integrating are inverse in both directions, with equal states |
| DeltaOfDelta.DifferencesAre | src/encoding/delta_of_delta.rs:106-137 | the numbers are the first value, the first difference and the second differences; encoding fails exactly where one of them overflows in a checked build |
| DeltaOfDelta.CountUpIs | src/encoding/delta_of_delta.rs:133 | the counter counts modulo 2^32, or stops a checked build there |
| DeltaOfDelta.ClosedForm | src/encoding/delta_of_delta.rs:259-270 | the k-th decoded value is the first value plus k times the first difference plus the double sum of the second differences, in 64 bits |
| DeltaOfDelta.ZeroSecondDifferences | src/encoding/delta_of_delta.rs:123-135 | all second differences are zero exactly for an arithmetic progression |
| DeltaOfDeltaStream.FrameReads | src/encoding/delta_of_delta.rs:106-195 | two 8-byte headers and the words give back every number whose second differences are in [-2^59, 2^59) |
| DeltaOfDeltaStream.EncodedLayout | src/encoding/delta_of_delta.rs:106-195 | every byte of a block: bytes 0 to 7 are the first value's, 8 to 15 the first difference's, and then each word's for the zigzag codes of the second differences, lowest byte first; the length is exact |
| DeltaOfDeltaStream.DecodedAreSmooth | src/encoding/delta_of_delta.rs:239-273 | no bytes whatever decode to values with a wider second difference, or past two values for another data type |
| DeltaOfDeltaStream.Lossless | src/encoding/delta_of_delta.rs:218-273 | a sequence comes back if and only if its second differences are in range and, from the third value on, the decoder is for 64-bit integers |
| DeltaOfDeltaStream.ProgressionsRoundTrip | src/encoding/delta_of_delta.rs:20-31 | regular sequences always come back |
| DeltaOfDeltaCodec.DeltaOfDeltaEncoder.EncodeValue | src/encoding/delta_of_delta.rs:106-137 | one value: a header into the output, or a second difference into the word codec |
| DeltaOfDeltaCodec.DeltaOfDeltaEncoder.Flush | src/encoding/delta_of_delta.rs:191-195 | appends the finished words |
| DeltaOfDeltaCodec.DeltaOfDeltaEncoder.Reset | src/encoding/delta_of_delta.rs:152-159 | a reset encoder has the state of a new one |
| DeltaOfDeltaCodec.DeltaOfDeltaDecoder.DecodeValue | src/encoding/delta_of_delta.rs:239-273 | one value from the next number of the bytes, or the error |
| DeltaOfDeltaCodec.EncodeSequence | src/encoding/delta_of_delta.rs:106-195 | one encoder and a flush write the bytes of the model, and each byte is the one that `DeltaOfDeltaStream.Layout` names; it fails exactly where a difference overflows in a checked build |
| DeltaOfDeltaCodec.DecodeSequence | src/encoding/delta_of_delta.rs:239-273 | one decoder reads what the model reads, and fails where it fails |
| DeltaOfDeltaCodec.SequenceThere | src/encoding/delta_of_delta.rs:106-273 | through encoder, bytes and decoder: the same sequence comes back if and only if it is in the exact domain |
| BitMaps.UpdateByte | src/common/tablet.rs:120-131 | changing one bit of one byte changes the flag of one index |
| BitMaps.FlagIsDigit | src/common/tablet.rs:84-149 | index i is the binary digit for 2^(i % 8) of byte i / 8 |
| BitMaps.BitMap.constructor | src/common/tablet.rs:102-108 | a new bitmap has no null and no padding bit set |
| BitMaps.BitMap.Set | src/common/tablet.rs:120-131 | one flag is set or cleared, all others stay, and an index out of range changes nothing |
| BitMaps.BitMap.Get | src/common/tablet.rs:142-149 | the flag, or false out of range |
| BitMaps.BitMap.IsAllNotNull | src/common/tablet.rs:155-157 | true exactly when no index is null, because padding bits stay zero |
| Sheets.AddAt | src/common/tablet.rs:489-520 | a cell goes to the end of a column, where it is read back; both kinds of string are text, and a null leaves zero, false or the empty text |
| Sheets.AcceptsMeans | src/common/tablet.rs:468-507 | a column takes a cell exactly if it is null or some column of the same kind can give its value back |
| Sheets.AcceptsTyped | src/common/tablet.rs:197-212 | a column of a declared type takes exactly nulls and values of that type; types without a kind of their own take 32-bit integers |
| Sheets.RowAddedRows | src/common/tablet.rs:442-520 | after a row is added the earlier rows are as before and the new one reads back as added, nulls and text included |
| Sheets.RowsAddedRows | src/common/tablet.rs:442-520 | the same for many rows |
| Sheets.BulkIsRows | src/common/tablet.rs:602-793 | appending whole columns gives the same tablet as adding their rows one by one |
| Tablets.Tablet.constructor | src/common/tablet.rs:360-384 | a new tablet is blank |
| Tablets.Tablet.AddCell | src/common/tablet.rs:489-520 | one null flag and one value or default, in one column only |
| Tablets.Tablet.AddRow | src/common/tablet.rs:442-486 | succeeds exactly if there is room, every cell is null or of its column's declared type, and in an aligned tablet the time grows; each check that fails first is named; then the row is added, while a check that fails before anything was written changes nothing |
| Tablets.NullsTyped | src/common/tablet.rs:474-482 | a row of nulls is of every type, so it is always accepted where a row is |
| Tablets.Int64Columns | src/common/tablet.rs:203-205 | the columns of 64-bit integers, and no others, are those whose type the delta-of-delta decoder reads |
| Tablets.Tablet.AddColumnBulk | src/common/tablet.rs:656-793 | one column is extended and flagged from a row on, if every value has its type |
| Tablets.Tablet.AddRowsBulk | src/common/tablet.rs:602-652 | succeeds exactly if there are no rows, or there is room and every column has as many cells, each null or of its declared type; then the columns are added |
| Tablets.Tablet.Clear | src/common/tablet.rs:526-541 | a cleared tablet is as new |
| TabletRuns.RunHoldsRows | src/common/tablet.rs:442-652 | after any successful run of single rows, bulk insertions and clears, the tablet's rows are those added since the last clear |
| TabletRuns.RunTablet | src/common/tablet.rs:442-652 | a tablet object put through any run ends in the model's state and holds the rows since the last clear, and stops exactly where the model does |
| TabletRuns.SinceClear | src/common/tablet.rs:526-541 | what was added before a clear is forgotten |
| TabletRuns.AlignedIncreasing | src/common/tablet.rs:454-465 | an aligned tablet filled row by row has strictly increasing time stamps |
| TabletRuns.AcceptedRows | src/common/tablet.rs:442-465 | rows are accepted one by one exactly if there is room, the types match and, in an aligned tablet, the time stamps increase |
| TabletRuns.BulkAgainstRows | src/common/tablet.rs:602-652 | bulk insertion succeeds and does what its rows one by one do: always when not aligned, and when aligned exactly if the time stamps increase |
| Grouping.GroupRows | src/arrow/from_arrow.rs:119-140 | one pass puts every row into the group of its device |
| Grouping.GroupIs | src/arrow/from_arrow.rs:131-140 | a group holds exactly its device's rows, in increasing order |
| Grouping.GroupsPartition | src/arrow/from_arrow.rs:131-140 | all groups together hold each row with a device once, and no other |
| FromArrow.ExtractChecked | src/arrow/from_arrow.rs:290-299 | the loop with null checks: values, defaults and null flags for the given rows |
| FromArrow.ExtractDirect | src/arrow/from_arrow.rs:301-333 | the borrowed slice, the gather and the loop give the same column |
| FromArrow.ExtractColumnDirect | src/arrow/from_arrow.rs:276-544 | the column of the tablet reads as the batch's cells, promoted, for every supported type (value by value in `MatchesReads`), and other types are refused |
| FromArrow.MatchesReads | src/arrow/from_arrow.rs:284-534 | for each of the twelve types, null flags are the batch's, and every other place holds the very element: equal for booleans, signed and narrow unsigned numbers, floats and texts, congruent modulo 2^32 or 2^64 for wide unsigned numbers |
| FromArrow.TimbreTypeFits | src/arrow/schema_mapping.rs:128-147 | the declared type is one of the six basic ones, and the cells of the column are of it |
| FromArrow.BuildTabletForDevice | src/arrow/from_arrow.rs:203-265 | a device's tablet is not aligned, has the mapped type for each column, and holds exactly its rows: time stamps, cells and nulls |
| FromArrow.BuildTablets | src/arrow/from_arrow.rs:142-197 | one such tablet for every device, or an error if a column is not supported |
| FromArrow.TabletsConserveRows | src/arrow/from_arrow.rs:119-265 | in whatever order the tablets are written, their rows are the batch's rows with a device, each once |
| Statistics.BoundsAttained | src/common/statistic.rs:196-204 | the least and greatest of a list bound it and occur in it |
| Statistics.TotalBound | src/common/statistic.rs:428-444 | while the 32-bit count does not overflow, a sum of 32-bit integers stays below 2^62 in size |
| Statistics.UpdateTimeIs | src/common/statistic.rs:196-204 | count and time range of one point more |
| Statistics.BaseMeans | src/common/statistic.rs:196-204 | count is the number of points, start and end bound all times and occur among them |
| Statistics.Machine32Is | src/common/statistic.rs:197 | the count is exact modulo 2^32 and stops a checked build exactly where it overflows |
| Statistics.Int32Means | src/common/statistic.rs:428-444 | minimum and maximum bound all values and occur among them, first and last are those that arrived first and last |
| Statistics.Int32Sums | src/common/statistic.rs:428-444 | the sum of one point is its value, and sums of lists add up |
| Statistics.UpdateInt32Is | src/common/statistic.rs:428-444 | an update gives the summary of the longer list; in a checked build it fails exactly where the count overflows |
| Statistics.MergeInt32Is | src/common/statistic.rs:394-415 | merging two summaries gives the summary of the concatenation; it fails exactly where the count overflows |
| Statistics.MergeInt32Monoid | src/common/statistic.rs:394-415 | merging is associative and the empty statistic is its identity |
| Statistics.UpdateAllInt32Is | src/common/statistic.rs:1289-1298 | updating with a list and merging its summary are the same |
| Statistics.UpdateBooleanIs | src/common/statistic.rs:287-294 | the same for booleans, whose sum counts the true values |
| Statistics.BooleanSums | src/common/statistic.rs:287-294 | the sum of one point is 1 if it is true and 0 if not, and sums of lists add up |
| Statistics.FirstAndLast | src/common/statistic.rs:287-294 | boolean and string summaries keep the first and the last value to arrive |
| Statistics.MergeBooleanIs | src/common/statistic.rs:258-278 | merging boolean summaries is concatenation |
| Statistics.MergeBooleanMonoid | src/common/statistic.rs:258-278 | merging boolean summaries is associative, with the empty one as identity |
| Statistics.UpdateAllBooleanIs | src/common/statistic.rs:1349-1358 | boolean updates and merges agree |
| Statistics.MergeStringIs | src/common/statistic.rs:1029-1048 | merging string summaries is concatenation |
| Statistics.MergeStringMonoid | src/common/statistic.rs:1029-1048 | merging string summaries is associative, with the empty one as identity |
| Statistics.UpdateAllStringIs | src/common/statistic.rs:1063-1069 | string updates and merges agree |
| StatisticObjects.Int32Statistic.UpdateI32 | src/common/statistic.rs:428-444 | the fields become those of the updated summary |
| StatisticObjects.Int32Statistic.Merge | src/common/statistic.rs:394-415 | the fields become those of the merged summary |
| StatisticObjects.Int32Statistic.UpdateI32Batch | src/common/statistic.rs:1289-1298 | a batch does what its updates one by one do |
| StatisticObjects.BooleanStatistic.UpdateBool | src/common/statistic.rs:287-294 | the fields become those of the updated summary |
| StatisticObjects.BooleanStatistic.Merge | src/common/statistic.rs:258-278 | the fields become those of the merged summary |
| StatisticObjects.StringStatistic.UpdateString | src/common/statistic.rs:1063-1069 | the fields become those of the updated summary |
| StatisticObjects.StringStatistic.Merge | src/common/statistic.rs:1029-1048 | the fields become those of the merged summary |
| StatisticObjects.MergePages | src/common/statistic.rs:394-444 | two pages, updated in batches and merged, have the statistics of all their points |

## Left out

- ChimpDomain.NeverRecovered: a first misfit that reuses or widens the window and puts a one bit into the overlap is left to `ChimpDomain.LosslessExactly`: such a value is lost where the stream ends with it, and may come back with the right later values, as `ChimpChance.ComesBackByChance` shows; which later values do that is not characterised.
- Simple8bCodec.Simple8bEncoder.Flush: one flush per encoder; the source keeps its words, so a second flush would write them again.
- Chimp128Encoders.Chimp128Encoder.Flush: one flush per reset; the padded segments of several flushes do not form one decodable stream.
- DeltaOfDeltaCodec.EncodeSequence: sequences shorter than 2^32, the range of the value counter; a single step is modelled for every counter value.
- Tablets.Tablet.AddRow: says nothing about the tablet after a type mismatch, when time stamps and some columns may already be longer.
- Tablets.Tablet.AddRowsBulk: likewise.
- StatisticObjects.Int32Statistic.UpdateI32: says nothing about the fields after an overflow has stopped a checked build; the same holds for the other statistics and for the codecs.
- FromArrow.ExtractColumnDirect: says nothing about the place of a null, which is never read; `ExtractChecked` and `ExtractDirect` put the default there that they are given.
- FromArrow.BuildTablets: the order in which a hash map yields the devices is a parameter; the parallel path builds the same tablets, and writing them to the file is not modelled.
- The data types, the null flags and the values of an Arrow array are modelled; downcasting, time-unit conversion, schema lookups and encoding hints are not.
- Conversions of 32-bit integers and floats to the 64-bit integers of the delta-of-delta codec, and the 32-bit entry points of Simple8b: easy variants of what is modelled.
- Statistics of 64-bit integers and of floating-point numbers: their sums are rounded floating-point arithmetic.
- Dispatch of the statistics by data type, which ignores values and statistics of another type: easy.
- Compression modules, file input and output, the Arrow reader, raw aligned buffers, the other encodings (plain, Gorilla, quantized, dictionary), the query side and the index.
- Capacity reservation, inlining and other matters of speed, except where a fast form had to be shown equal to a simple one.
