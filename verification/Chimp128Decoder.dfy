/**
  The Chimp128 decoder: a 64-bit prefetch buffer that refills by whole bytes, and the
  reading of values through it.
 */
module Chimp128Decoders {
  import opened Bits
  import opened BitStream
  import opened Wrappers
  import opened Types
  import opened Chimp
  import opened ChimpRoundTrip
  import opened Chimp128Encoders

  // ----- The prefetch buffer -----

  /**
    The top `available` bits of `acc` are the bits of the input before byte `bytePos`, and
    the rest of `acc` is zero.
   */
  ghost predicate Prefetched(input: seq<u8>, bytePos: nat, acc: u64, available: nat)
  {
    && bytePos <= |input| && available <= 64 && available <= 8 * bytePos
    && ToBits(acc, 64)
       == BytesToBits(input)[8 * bytePos - available..8 * bytePos] + Zeros(64 - available)
  }

  /** Eight bytes of which the first `n` come from the input. */
  function ZeroPadded(bytes: seq<u8>): (r: seq<u8>)
    requires |bytes| <= 8
    ensures |r| == 8
  {
    bytes + ZeroBytes(8 - |bytes|)
  }

  function ZeroBytes(n: nat): (r: seq<u8>)
    ensures |r| == n
  {
    seq(n, i => 0)
  }

  lemma {:induction false} ZeroBytesBits(n: nat)
    ensures BytesToBits(ZeroBytes(n)) == Zeros(8 * n)
  {
    if n > 0 {
      ZeroBytesBits(n - 1);
      assert ZeroBytes(n)[..n - 1] == ZeroBytes(n - 1);
      ZeroBits(8);
    }
  }

  lemma ZeroPaddedBits(bytes: seq<u8>, n: nat)
    requires |bytes| + n == 8
    ensures BytesToBits(ZeroPadded(bytes)) == BytesToBits(bytes) + Zeros(8 * n)
  {
    hide BytesToBits, Zeros, ZeroBytes, ToBits;
    BytesToBitsConcat(bytes, ZeroBytes(n));
    ZeroBytesBits(n);
  }

  /** `x >> k` in 64 bits. */
  lemma ShrBitsInWord(x: u64, k: nat)
    requires k <= 64
    ensures ToBits(Shr(x, k), 64) == Zeros(k) + ToBits(x, 64)[..64 - k]
  {
    Pow2Of64();
    ShrBound(x, 64 - k, k);
    SmallBits(Shr(x, k), k, 64 - k);
    ShrBits(x, k);
  }

  lemma ZerosCut(n: nat, b: seq<bool>)
    requires n + |b| <= 64
    ensures Zeros(n) + (b + Zeros(64 - |b|))[..64 - n] == Zeros(n) + b + Zeros(64 - n - |b|)
  {
  }

  lemma SliceJoin<T>(s: seq<T>, i: nat, j: nat, k: nat)
    requires i <= j <= k <= |s|
    ensures s[i..j] + s[j..k] == s[i..k]
  {
  }

  /** A refill appends `n` whole bytes behind the bits that are there. */
  lemma RefillKeeps(input: seq<u8>, bytePos: nat, acc: u64, available: nat, n: nat)
    requires Prefetched(input, bytePos, acc, available)
    requires bytePos + n <= |input| && available + 8 * n <= 64
    ensures var newData := FromBeBytes(ZeroPadded(input[bytePos..bytePos + n]));
            Prefetched(input, bytePos + n, Or(acc, Shr(newData, available)), available + 8 * n)
  {
    hide BytesToBits, Or, OrNat, Shr, ToBits, ZeroPadded, FromBeBytes, Zeros, BitOr;
    var all := BytesToBits(input);
    var added := input[bytePos..bytePos + n];
    var newData := FromBeBytes(ZeroPadded(added));
    ZeroPaddedBits(added, 8 - n);
    assert 8 * (8 - n) == 64 - 8 * n;
    BytesToBitsSlice(input, bytePos, bytePos + n);
    ShrBitsInWord(newData, available);
    OrBits(acc, Shr(newData, available), 64);
    var a, b := all[8 * bytePos - available..8 * bytePos], all[8 * bytePos..8 * bytePos + 8 * n];
    OrPlaces(a, b);
    ZerosCut(available, b);
    SliceJoin(all, 8 * bytePos - available, 8 * bytePos, 8 * (bytePos + n));
    OrIsOr(acc, Shr(newData, available));
  }

  lemma OrIsOr(x: u64, y: u64)
    ensures Or(x, y) == OrNat(x, y)
  {
  }

  /** Taking `k` bits from the top of the buffer. */
  lemma TakeKeeps(input: seq<u8>, bytePos: nat, acc: u64, available: nat, k: nat)
    requires Prefetched(input, bytePos, acc, available) && 0 < k <= available
    ensures var pos := 8 * bytePos - available;
            && Readable(BytesToBits(input), pos, k)
            && Shr(acc, 64 - k) == ReadAt(BytesToBits(input), pos, k)
    ensures Prefetched(input, bytePos, if k < 64 then Shl(acc, k) else 0, available - k)
  {
    hide BytesToBits, Shl, Shr, ToBits, FromBits, Pow2, Zeros;
    var all, pos := BytesToBits(input), 8 * bytePos - available;
    var ahead := all[pos..8 * bytePos];
    ShrBits(acc, 64 - k);
    ShiftFront(ToBits(acc, 64), ahead, k);
    assert ahead[..k] == all[pos..pos + k] && ahead[k..] == all[pos + k..8 * bytePos];
    Pow2Of64();
    ShrBound(acc, k, 64 - k);
    FieldRoundTrip(Shr(acc, 64 - k), k);
    ShlBits(acc, k);
    if k == 64 {
      ZeroBits(64);
      assert ahead[k..] == [];
    }
  }

  lemma ShiftFront(bits: seq<bool>, a: seq<bool>, k: nat)
    requires |bits| == 64 && k <= |a| <= 64 && bits == a + Zeros(64 - |a|)
    ensures bits[..k] == a[..k]
    ensures bits[k..] + Zeros(k) == a[k..] + Zeros(64 - (|a| - k))
  {
  }

  class Chimp128Decoder {
    const dataType: TSDataType
    const bitWidth: nat
    const build: Build
    var prevValue: u64
    var prevLeading: nat
    var prevTrailing: nat
    var count: nat
    var bytePos: nat
    var bitBuffer: u64
    var bitsAvailable: nat

    function State(): Coder
      reads `count, `prevValue, `prevLeading, `prevTrailing
    {
      Coder(count, prevValue, prevLeading, prevTrailing)
    }

    /** The position in the input of the next bit to be read. */
    ghost function Position(): int
      reads `bytePos, `bitsAvailable
    {
      8 * bytePos - bitsAvailable
    }

    /** Every call so far was given this input. */
    ghost predicate Reading(input: seq<u8>)
      reads `bytePos, `bitBuffer, `bitsAvailable
    {
      Prefetched(input, bytePos, bitBuffer, bitsAvailable)
    }

    ghost predicate Valid(input: seq<u8>)
      reads this
    {
      Reading(input) && bitWidth == WidthOf(dataType) && prevLeading < 256 && prevTrailing < 256
    }

    constructor (dataType: TSDataType, build: Build)
      ensures this.dataType == dataType && this.build == build
      ensures State() == START && Position() == 0
      ensures forall input :: Valid(input)
    {
      this.dataType, this.build := dataType, build;
      bitWidth := WidthOf(dataType);
      prevValue, prevLeading, prevTrailing, count := 0, UNSET, 0, 0;
      bytePos, bitBuffer, bitsAvailable := 0, 0, 0;
      new;
      ZeroBits(64);
      assert forall input :: BytesToBits(input)[0..0] + Zeros(64) == Zeros(64);
    }

    /** Adds as many whole bytes as fit; says whether there were any. */
    method RefillBuffer(input: seq<u8>) returns (more: bool)
      requires Reading(input)
      modifies `bytePos, `bitBuffer, `bitsAvailable
      ensures Reading(input) && Position() == old(Position())
      ensures more <==> old(bytePos) < |input| && old(bitsAvailable) <= 56
      ensures more ==> bitsAvailable > old(bitsAvailable)
      ensures !more ==> bytePos == old(bytePos) && bitsAvailable == old(bitsAvailable)
    {
      hide Prefetched, Or, Shr, FromBeBytes, ZeroPadded;
      PositionFacts(input, bytePos, bitBuffer, bitsAvailable);
      var remaining := |input| - bytePos;
      if remaining == 0 {
        return false;
      }
      var maxBytes := (64 - bitsAvailable) / 8;
      if maxBytes == 0 {
        return false;
      }
      var bytesToRead := if remaining < maxBytes then remaining else maxBytes;
      var newData: u64;
      if bytesToRead == 8 {
        newData := FromBeBytes(input[bytePos..bytePos + 8]);
        NothingToPad(input[bytePos..bytePos + 8]);
      } else {
        newData := FromBeBytes(ZeroPadded(input[bytePos..bytePos + bytesToRead]));
      }
      RefillKeeps(input, bytePos, bitBuffer, bitsAvailable, bytesToRead);
      bitBuffer := Or(bitBuffer, Shr(newData, bitsAvailable));
      bytePos := bytePos + bytesToRead;
      bitsAvailable := bitsAvailable + bytesToRead * 8;
      return true;
    }

    /** Refills, more than once if need be, until `numBits` bits are there. */
    method Prefetch(input: seq<u8>, numBits: nat) returns (ok: bool)
      requires Reading(input) && numBits > 0
      modifies `bytePos, `bitBuffer, `bitsAvailable
      ensures Reading(input) && Position() == old(Position()) >= 0
      ensures ok ==> numBits <= bitsAvailable
      ensures !ok ==> !Readable(BytesToBits(input), Position(), numBits)
    {
      hide Prefetched;
      PositionFacts(input, bytePos, bitBuffer, bitsAvailable);
      if bitsAvailable < numBits {
        var more := RefillBuffer(input);
        if !more {
          return false;
        }
        while bitsAvailable < numBits
          invariant Reading(input) && Position() == old(Position())
          decreases numBits - bitsAvailable
        {
          more := RefillBuffer(input);
          if !more {
            PositionFacts(input, bytePos, bitBuffer, bitsAvailable);
            return false;
          }
        }
      }
      return true;
    }

    /**
      Reads `numBits` bits: succeeds exactly when that many remain and they fit in the
      buffer behind the position's offset in its byte, and on failure does not move.
     */
    method ReadBits(input: seq<u8>, numBits: nat) returns (r: Result<u64, Error>)
      requires Reading(input)
      modifies `bytePos, `bitBuffer, `bitsAvailable
      ensures Reading(input) && old(Position()) >= 0
      ensures r == ReadField(BytesToBits(input), old(Position()), numBits)
      ensures Position() == if r.Success? then old(Position()) + numBits else old(Position())
    {
      hide Prefetched, Readable, ReadAt, Shr, Shl;
      if numBits == 0 {
        PositionFacts(input, bytePos, bitBuffer, bitsAvailable);
        NothingToRead(BytesToBits(input), Position());
        return Success(0);
      }
      var ok := Prefetch(input, numBits);
      if !ok {
        return Failure(EndOfData);
      }
      PositionFacts(input, bytePos, bitBuffer, bitsAvailable);
      TakeKeeps(input, bytePos, bitBuffer, bitsAvailable, numBits);
      var result := Shr(bitBuffer, 64 - numBits);
      bitBuffer := if numBits < 64 then Shl(bitBuffer, numBits) else 0;
      bitsAvailable := bitsAvailable - numBits;
      return Success(result);
    }

    // ----- Decoding -----

    // The source has the next three methods inline in `DecodeBits`.

    /** Case 3: the number of leading zeros changes by at most one. */
    method ReadCloseWindow(input: seq<u8>) returns (r: Result<Window, Error>)
      requires Valid(input)
      modifies `bytePos, `bitBuffer, `bitsAvailable
      ensures Valid(input) && old(Position()) >= 0
      ensures r == WindowOf(PlanClose(build, bitWidth, State(), BytesToBits(input), old(Position())))
      ensures r.Success? ==> Position() == old(Position()) + 2
    {
      hide Prefetched, Sub8, AddDelta, ReadField;
      var deltaBits :- ReadBits(input, 2);
      PositionFacts(input, bytePos, bitBuffer, bitsAvailable);
      if deltaBits > 2 {
        return Failure(InvalidDelta);
      }
      var leading :- AddDelta(build, prevLeading, deltaBits as int - 1);
      var rest :- Sub8(build, bitWidth, leading);
      var significant :- Sub8(build, rest, prevTrailing);
      return Success(Window(leading, prevTrailing, significant));
    }

    /** Case 4: a new window. */
    method ReadFreshWindow(input: seq<u8>) returns (r: Result<Window, Error>)
      requires Valid(input)
      modifies `bytePos, `bitBuffer, `bitsAvailable
      ensures Valid(input) && old(Position()) >= 0
      ensures r == WindowOf(PlanFresh(build, bitWidth, BytesToBits(input), old(Position())))
      ensures r.Success? ==> Position() == old(Position()) + 12
    {
      hide Prefetched, Sub8, ReadField, AsU8;
      var leading :- ReadBits(input, 6);
      var significant :- ReadBits(input, 6);
      var rest :- Sub8(build, bitWidth, AsU8(leading));
      var trailing :- Sub8(build, rest, AsU8(significant));
      return Success(Window(AsU8(leading), trailing, AsU8(significant)));
    }

    /** What follows a leading one bit. */
    method ReadWindow(input: seq<u8>) returns (r: Result<Window, Error>)
      requires Valid(input)
      modifies `bytePos, `bitBuffer, `bitsAvailable
      ensures Valid(input) && old(Position()) >= 0
      ensures var plan := PlanAt(build, bitWidth, State(), BytesToBits(input), old(Position()));
              r == WindowOf(plan) && (plan.Success? ==> Position() == plan.value.pos)
      ensures r.Success? ==> r.value.leading < 256 && r.value.trailing < 256
    {
      hide Prefetched, Sub8, ReadField, PlanClose, PlanFresh, AddDelta;
      ghost var bits, pos := BytesToBits(input), Position();
      var second :- ReadBits(input, 1);
      if second == 0 {
        var rest :- Sub8(build, bitWidth, prevLeading);
        var length :- Sub8(build, rest, prevTrailing);
        return Success(Window(prevLeading, prevTrailing, length));
      }
      var third :- ReadBits(input, 1);
      if third == 0 {
        ClosePosition(build, bitWidth, State(), bits, pos + 2);
        r := ReadCloseWindow(input);
      } else {
        FreshPosition(build, bitWidth, bits, pos + 2);
        r := ReadFreshWindow(input);
      }
    }

    /** Decodes one value. */
    method DecodeBits(input: seq<u8>) returns (r: Result<u64, Error>)
      requires Valid(input)
      modifies this
      ensures Valid(input) && old(Position()) >= 0
      ensures var step := DecodeStep(build, bitWidth, old(State()), BytesToBits(input), old(Position()));
              match step
              case Success(d) => r == Success(d.value) && State() == d.coder && Position() == d.pos
              case Failure(e) => r == Failure(e) && (e != Overflow ==> State() == old(State()))
    {
      hide Prefetched, ReadField, PlanAt, Shl, Xor;
      if count == 0 {
        var bits :- ReadBits(input, bitWidth);
        prevValue := bits;
        count := 1;
        return Success(bits);
      }
      var first :- ReadBits(input, 1);
      if first == 0 {
        count := count + 1;
        return Success(prevValue);
      }
      var window :- ReadWindow(input);
      var x :- ReadBits(input, window.len);
      prevLeading := window.leading;
      prevTrailing := window.trailing;
      var xor :- ShlBy(build, x, window.trailing);
      prevValue := Xor(prevValue, xor);
      count := count + 1;
      return Success(prevValue);
    }

    // ----- The decoder interface -----

    /** Whether bytes are left to read, or bits in the buffer: whether any bit is unread. */
    method HasRemaining(input: seq<u8>) returns (remaining: bool)
      requires Valid(input)
      ensures remaining <==> Position() < |BytesToBits(input)|
    {
      PositionFacts(input, bytePos, bitBuffer, bitsAvailable);
      return bytePos < |input| || bitsAvailable > 0;
    }

    method ReadF32(input: seq<u8>) returns (r: Result<u32, Error>, pos: nat)
      requires Valid(input)
      modifies this
      ensures Valid(input) && old(Position()) >= 0 && pos == bytePos
      ensures dataType != Float ==> r == Failure(WrongType) && State() == old(State()) && Position() == old(Position())
      ensures dataType == Float ==>
                match DecodeStep(build, 32, old(State()), BytesToBits(input), old(Position()))
                case Success(d) => r == Success(AsU32(d.value)) && State() == d.coder && Position() == d.pos
                case Failure(e) => r == Failure(e) && (e != Overflow ==> State() == old(State()))
    {
      hide DecodeStep, Prefetched, AsU32;
      PositionFacts(input, bytePos, bitBuffer, bitsAvailable);
      if dataType != Float {
        return Failure(WrongType), bytePos;
      }
      var bits := DecodeBits(input);
      match bits
      case Success(x) => return Success(AsU32(x)), bytePos;
      case Failure(e) => return Failure(e), bytePos;
    }

    method ReadF64(input: seq<u8>) returns (r: Result<u64, Error>, pos: nat)
      requires Valid(input)
      modifies this
      ensures Valid(input) && old(Position()) >= 0 && pos == bytePos
      ensures dataType != Double ==> r == Failure(WrongType) && State() == old(State()) && Position() == old(Position())
      ensures dataType == Double ==>
                match DecodeStep(build, 64, old(State()), BytesToBits(input), old(Position()))
                case Success(d) => r == Success(d.value) && State() == d.coder && Position() == d.pos
                case Failure(e) => r == Failure(e) && (e != Overflow ==> State() == old(State()))
    {
      hide DecodeStep, Prefetched;
      PositionFacts(input, bytePos, bitBuffer, bitsAvailable);
      if dataType != Double {
        return Failure(WrongType), bytePos;
      }
      r := DecodeBits(input);
      pos := bytePos;
    }

    method ReadF32Batch(input: seq<u8>, output: seq<u32>, n: nat) returns (r: Result<(), Error>, output': seq<u32>)
      requires Valid(input)
      modifies this
      ensures Valid(input) && old(Position()) >= 0
      ensures dataType != Float ==> r == Failure(WrongType) && output' == output
      ensures dataType == Float ==>
                match DecodeFrom(build, 32, old(State()), BytesToBits(input), old(Position()), n)
                case Success(run) =>
                  r == Success(()) && output' == output + AllAsU32(run.values)
                  && State() == run.coder && Position() == run.pos
                case Failure(e) => r == Failure(e) && output <= output'
    {
      hide DecodeStep, Prefetched, AsU32;
      PositionFacts(input, bytePos, bitBuffer, bitsAvailable);
      output' := output;
      if dataType != Float {
        return Failure(WrongType), output;
      }
      ghost var bits, c, pos := BytesToBits(input), State(), Position();
      ghost var values: seq<u64> := [];
      for i := 0 to n
        invariant Valid(input) && Position() >= 0
        invariant DecodeFrom(build, 32, c, bits, pos, i) == Success(Run(values, State(), Position()))
        invariant output' == output + AllAsU32(values)
      {
        DecodeMore(build, 32, c, bits, pos, i, n);
        var x :- DecodeBits(input);
        output' := output' + [AsU32(x)];
        values := values + [x];
      }
      return Success(()), output';
    }

    method ReadF64Batch(input: seq<u8>, output: seq<u64>, n: nat) returns (r: Result<(), Error>, output': seq<u64>)
      requires Valid(input)
      modifies this
      ensures Valid(input) && old(Position()) >= 0
      ensures dataType != Double ==> r == Failure(WrongType) && output' == output
      ensures dataType == Double ==>
                match DecodeFrom(build, 64, old(State()), BytesToBits(input), old(Position()), n)
                case Success(run) =>
                  r == Success(()) && output' == output + run.values
                  && State() == run.coder && Position() == run.pos
                case Failure(e) => r == Failure(e) && output <= output'
    {
      hide DecodeStep, Prefetched;
      PositionFacts(input, bytePos, bitBuffer, bitsAvailable);
      output' := output;
      if dataType != Double {
        return Failure(WrongType), output;
      }
      ghost var bits, c, pos := BytesToBits(input), State(), Position();
      ghost var values: seq<u64> := [];
      for i := 0 to n
        invariant Valid(input) && Position() >= 0
        invariant DecodeFrom(build, 64, c, bits, pos, i) == Success(Run(values, State(), Position()))
        invariant output' == output + values
      {
        DecodeMore(build, 64, c, bits, pos, i, n);
        var x :- DecodeBits(input);
        output' := output' + [x];
        values := values + [x];
      }
      return Success(()), output';
    }
  }

  /** A window, and the number of bits it leaves for the data field. */
  datatype Window = Window(leading: nat, trailing: nat, len: nat)

  function WindowOf(plan: Result<Plan, Error>): Result<Window, Error>
  {
    var p :- plan;
    Success(Window(p.leading, p.trailing, p.len))
  }

  lemma ClosePosition(build: Build, width: nat, c: Coder, s: seq<bool>, pos: nat)
    requires width < 256 && c.leading < 256 && c.trailing < 256
    ensures var r := PlanClose(build, width, c, s, pos);
            r.Success? ==> r.value.pos == pos + 2
  {
  }

  lemma FreshPosition(build: Build, width: nat, s: seq<bool>, pos: nat)
    requires width < 256
    ensures var r := PlanFresh(build, width, s, pos);
            r.Success? ==> r.value.pos == pos + 12
  {
  }

  /** `x as u32`: the low 32 bits. */
  function AsU32(x: u64): (r: u32)
    ensures ToBits(r, 32) == ToBits(x, 32)
  {
    Pow2Of64();
    Low(x, 32)
  }

  function AllAsU32(xs: seq<u64>): (r: seq<u32>)
    ensures |r| == |xs| && forall i :: 0 <= i < |xs| ==> r[i] == AsU32(xs[i])
  {
    seq(|xs|, i requires 0 <= i < |xs| => AsU32(xs[i]))
  }

  lemma AsU32Small(x: u64)
    requires x < Pow2(32)
    ensures AsU32(x) == x
  {
    FieldRoundTrip(x, 32);
  }

  /** How a batch goes on after `i` values, and fails if the next value does. */
  lemma DecodeMore(build: Build, width: nat, c: Coder, s: seq<bool>, pos: nat, i: nat, n: nat)
    requires width < 256 && c.leading < 256 && c.trailing < 256 && i < n
    requires DecodeFrom(build, width, c, s, pos, i).Success?
    ensures var run := DecodeFrom(build, width, c, s, pos, i).value;
            match DecodeStep(build, width, run.coder, s, run.pos)
            case Failure(e) => DecodeFrom(build, width, c, s, pos, n) == Failure(e)
            case Success(d) =>
              DecodeFrom(build, width, c, s, pos, i + 1) == Success(Run(run.values + [d.value], d.coder, d.pos))
  {
    hide DecodeStep;
    DecodeSnoc(build, width, c, s, pos, i);
    var run := DecodeFrom(build, width, c, s, pos, i).value;
    var step := DecodeStep(build, width, run.coder, s, run.pos);
    if step.Failure? {
      FailureStays(build, width, c, s, pos, i + 1, n);
    }
  }

  lemma {:induction false} FailureStays(build: Build, width: nat, c: Coder, s: seq<bool>, pos: nat, i: nat, n: nat)
    requires width < 256 && c.leading < 256 && c.trailing < 256 && i <= n
    requires DecodeFrom(build, width, c, s, pos, i).Failure?
    ensures DecodeFrom(build, width, c, s, pos, n) == DecodeFrom(build, width, c, s, pos, i)
    decreases n
  {
    hide DecodeStep;
    if i < n {
      FailureStays(build, width, c, s, pos, i, n - 1);
      DecodeSnoc(build, width, c, s, pos, n - 1);
    }
  }

  lemma NothingToRead(s: seq<bool>, pos: nat)
    ensures ReadField(s, pos, 0) == Success(0)
  {
  }

  lemma PositionFacts(input: seq<u8>, bytePos: nat, acc: u64, available: nat)
    requires Prefetched(input, bytePos, acc, available)
    ensures bytePos <= |input| && available <= 64 && available <= 8 * bytePos
    ensures available > 56 ==> 64 - available == (8 * bytePos - available) % 8
    ensures (8 * bytePos - available) % 8 + available <= 64
  {
  }

  lemma NothingToPad(bytes: seq<u8>)
    requires |bytes| == 8
    ensures ZeroPadded(bytes) == bytes
  {
  }
}
