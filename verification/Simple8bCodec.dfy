/** The Simple8b encoder and decoder as the program runs them. */
module Simple8bCodec {
  import opened Bits
  import opened BitStream
  import opened LittleEndian
  import opened Simple8b
  import opened Simple8bQueue
  import opened Types
  import opened Wrappers
  import opened Integers
  import opened ZigZags

  predicate IsInt64Type(dataType: TSDataType) {
    dataType == Int64 || dataType == Timestamp
  }

  class Simple8bEncoder {
    const dataType: TSDataType
    var pending: seq<u64>
    var output: seq<u64>

    function Contents(): Queue
      reads this
    {
      Queue(pending, output)
    }

    constructor (dataType: TSDataType)
      ensures this.dataType == dataType && Contents() == EMPTY
    {
      this.dataType := dataType;
      pending, output := [], [];
    }

    /** OR-ing masked values into a word behind its selector. */
    static method PackValues(values: seq<u64>, selector: nat, bitsPerValue: nat) returns (word: u64)
      requires selector < 16 && bitsPerValue == BitsOf(selector) && |values| == CountOf(selector)
      ensures word == WordOf(selector, values)
    {
      hide ToBits, Shl, Or, Low, PackBits, WordOf, BitOr, Zeros;
      word := Shl(selector, 60);
      SelectorWord(selector, bitsPerValue);
      if bitsPerValue == 0 {
        if selector == 1 {
          OrOnes(word);
          word := Or(word, 0x0FFF_FFFF_FFFF_FFFF);
        } else {
          NoPayload(values);
        }
        SameWord(word, WordOf(selector, values));
        return;
      }
      var i := 0;
      while i < |values|
        invariant i <= |values| && Packed(word, selector, values[..i], bitsPerValue)
      {
        SlotsFit(selector, i);
        LowBelow(values[i], bitsPerValue);
        PackOne(word, selector, values[..i], bitsPerValue, Low(values[i], bitsPerValue));
        word := Or(word, Shl(Low(values[i], bitsPerValue), i * bitsPerValue));
        PackLow(values[..i], values[i], bitsPerValue);
        assert values[..i + 1] == values[..i] + [values[i]];
        i := i + 1;
      }
      assert values[..i] == values;
      SameWord(word, WordOf(selector, values));
    }

    /** Writes one word if a selector can be filled, or if 240 values wait. */
    method TryPack()
      modifies `pending, `output
      ensures Contents() == Simple8bQueue.TryPack(old(Contents()))
    {
      hide Filled, WordOf;
      if pending == [] {
        return;
      }
      var selector := 0;
      while selector < 16
        invariant 0 <= selector <= 16 && Contents() == old(Contents())
        invariant Choose(pending, 0, false) == Choose(pending, selector, false)
      {
        var (count, bits) := SELECTORS[selector];
        if count <= |pending| {
          var values := pending[..count];
          if AllAtMost(values, MAX_VALUES[selector]) {
            var packed := PackValues(values, selector, bits);
            FilledPrefix(pending, count);
            output := output + [packed];
            pending := pending[count..];
            return;
          }
        }
        selector := selector + 1;
      }
      if |pending| >= 240 {
        var packed := PackValues(pending[..1], 15, 60);
        FilledPrefix(pending, 1);
        output := output + [packed];
        pending := pending[1..];
      }
    }

    /** Queues a value; packs once sixty wait. */
    method EncodeI64(value: i64) returns (r: Result<(), Error>)
      modifies `pending, `output
      ensures r == if IsInt64Type(dataType) then Success(()) else Failure(WrongType)
      ensures Contents() == if r.Success? then Push(old(Contents()), ZigZag(value)) else old(Contents())
    {
      if dataType != Int64 && dataType != Timestamp {
        return Failure(WrongType);
      }
      pending := pending + [ZigZag(value)];
      if |pending| >= 60 {
        TryPack();
      }
      return Success(());
    }

    /** The selector search of `Finish`, which the source has inline. */
    method BestSelector() returns (bestSelector: nat, bestCount: nat)
      ensures bestSelector < 16 && bestCount == CountOf(bestSelector)
      ensures var choice := Choose(pending, 0, true); bestSelector == if choice < 16 then choice else 15
    {
      bestSelector, bestCount := 15, 1;
      var selector := 0;
      while selector < 16
        invariant 0 <= selector <= 16 && bestSelector == 15 && bestCount == 1
        invariant Choose(pending, 0, true) == Choose(pending, selector, true)
      {
        var (count, _) := SELECTORS[selector];
        var canPack := 0;
        if count <= |pending| {
          if AllAtMost(pending[..count], MAX_VALUES[selector]) {
            canPack := count;
          }
        } else if AllAtMost(pending, MAX_VALUES[selector]) {
          canPack := count;
        }
        assert pending[..|pending|] == pending;
        if canPack > 0 {
          bestSelector, bestCount := selector, canPack;
          return;
        }
        selector := selector + 1;
      }
    }

    /** Packs everything, filling the last word up with zeros. */
    method Finish()
      modifies `pending, `output
      ensures Contents() == Simple8bQueue.Finish(old(Contents()))
    {
      hide Filled, WordOf, Choose;
      while pending != []
        invariant Simple8bQueue.Finish(Contents()) == Simple8bQueue.Finish(old(Contents()))
        decreases |pending|
      {
        var bestSelector, bestCount := BestSelector();
        var values := FillUp(pending[..Min(|pending|, bestCount)], bestCount);
        FilledAgain(pending, bestCount);
        var packed := PackValues(values, bestSelector, BitsOf(bestSelector));
        output := output + [packed];
        pending := pending[Min(|pending|, bestCount)..];
      }
    }

    /** Appends all words, lowest byte first; they are not removed from the encoder. */
    method Flush(out: seq<u8>) returns (out': seq<u8>)
      modifies `pending, `output
      ensures Contents() == Simple8bQueue.Finish(old(Contents()))
      ensures out' == out + AllBytes(output)
    {
      hide WordBytes, AllBytes, Simple8bQueue.Finish;
      Finish();
      NoBytes(output);
      out' := out;
      var i := 0;
      while i < |output|
        invariant 0 <= i <= |output| && Contents() == Simple8bQueue.Finish(old(Contents()))
        invariant out' == out + AllBytes(output[..i])
      {
        MoreBytes(output, i);
        SeqAssoc(out, AllBytes(output[..i]), WordBytes(output[i]));
        out' := out' + WordBytes(output[i]);
        i := i + 1;
      }
      assert output[..i] == output;
    }

    /** Pads with zeros. */
    static method FillUp(values: seq<u64>, n: nat) returns (r: seq<u64>)
      requires |values| <= n
      ensures r == Filled(values, n)
    {
      r := values;
      while |r| < n
        invariant |values| <= |r| <= n && r == Filled(values, |r|)
      {
        r := r + [0];
      }
    }
  }

  lemma NoPayload(values: seq<u64>)
    requires |values| == 240
    ensures PackBits(values, 0) == PackBits([], 0) == []
  {
  }

  lemma SlotsFit(selector: nat, i: nat)
    requires selector < 16 && i < CountOf(selector)
    ensures (i + 1) * BitsOf(selector) <= 60
  {
    var n, b := CountOf(selector), BitsOf(selector);
    assert (n - i - 1) * b >= 0;
    assert (i + 1) * b + (n - i - 1) * b == n * b;
  }

  lemma LowBelow(x: nat, k: nat)
    requires k <= 60
    ensures Low(x, k) < 0x1_0000_0000_0000_0000
  {
    Pow2Of64();
    Pow2Monotone(k, 64);
  }

  /** Packing a value and packing its low bits are the same. */
  lemma PackLow(vs: seq<nat>, v: nat, bits: nat)
    ensures PackBits(vs + [v], bits) == PackBits(vs + [Low(v, bits)], bits)
  {
    assert (vs + [v])[..|vs|] == vs == (vs + [Low(v, bits)])[..|vs|];
  }

  lemma SameWord(a: u64, b: u64)
    requires ToBits(a, 64) == ToBits(b, 64)
    ensures a == b
  {
    Pow2Of64();
    BitsInjective(a, b, 64);
  }

  lemma {:induction false} OnesBits(w: nat)
    ensures ToBits(Pow2(w) - 1, w) == seq(w, i => true)
  {
    if w > 0 {
      OnesBits(w - 1);
      assert (Pow2(w) - 1) / 2 == Pow2(w - 1) - 1;
    }
  }

  lemma OrOnes(word: u64)
    requires Packed(word, 1, [], 0)
    ensures ToBits(Or(word, 0x0FFF_FFFF_FFFF_FFFF), 64) == ToBits(1, 4) + seq(60, i => true)
  {
    hide ToBits;
    SixtyBits();
    OrBits(word, 0x0FFF_FFFF_FFFF_FFFF, 64);
    OnesBits(60);
    SmallBits(0x0FFF_FFFF_FFFF_FFFF, 4, 60);
  }

  lemma NoBytes(words: seq<u64>)
    ensures AllBytes(words[..0]) == []
  {
  }

  lemma MoreBytes(words: seq<u64>, i: nat)
    requires i < |words|
    ensures AllBytes(words[..i + 1]) == AllBytes(words[..i]) + WordBytes(words[i])
  {
    assert words[..i + 1][..i] == words[..i];
  }

  lemma FilledPrefix(vs: seq<u64>, n: nat)
    requires n <= |vs|
    ensures Filled(vs, n) == vs[..n]
  {
  }

  lemma FilledAgain(vs: seq<u64>, n: nat)
    ensures Filled(vs[..Min(|vs|, n)], n) == Filled(vs, n)
  {
  }

  lemma Shorter<T>(ahead: seq<T>, first: seq<T>, rest: seq<T>)
    requires |first| > 0 && ahead == first + rest
    ensures ahead[0] == first[0] && ahead[1..] == first[1..] + rest
  {
  }

  /** The last `left` values of a word. */
  ghost function Unread(word: u64, left: nat): (vs: seq<nat>)
    requires left > 0 ==> left <= |Unpack(word)|
    ensures |vs| == left && forall i :: 0 <= i < |vs| ==> vs[i] < Pow2(60)
  {
    if left == 0 then [] else Unpack(word)[|Unpack(word)| - left..]
  }

  lemma UnreadNext(word: u64, left: nat)
    requires 0 < left <= |Unpack(word)|
    ensures left <= CountOf(SelectorOf(word))
    ensures var v := ValueAt(word, SelectorOf(word), CountOf(SelectorOf(word)) - left);
            v < 0x1000_0000_0000_0000 && Unread(word, left) == [v] + Unread(word, left - 1)
  {
    hide SelectorOf, ValueAt, CountOf;
    SixtyBits();
  }

  lemma NextWord(data: seq<u8>, pos: nat)
    requires pos <= |data|
    ensures pos + 8 > |data| ==> UnpackAll(WordsAt(data, pos)) == []
    ensures pos + 8 <= |data| ==>
      UnpackAll(WordsAt(data, pos)) == Unpack(WordAt(data, pos)) + UnpackAll(WordsAt(data, pos + 8))
  {
    hide WordAt, Unpack;
    if pos + 8 <= |data| {
      assert WordsAt(data, pos)[1..] == WordsAt(data, pos + 8);
    }
  }

  class Simple8bDecoder {
    const dataType: TSDataType
    var currentWord: u64
    var currentPos: nat
    var currentSelector: nat

    ghost predicate Valid()
      reads this
    {
      currentPos > 0 ==>
        currentSelector == SelectorOf(currentWord) && currentPos <= |Unpack(currentWord)|
    }

    /** The values of the current word that were not read yet. */
    ghost function Current(): (zs: seq<nat>)
      reads this
      requires Valid()
      ensures forall i :: 0 <= i < |zs| ==> zs[i] < Pow2(60)
    {
      Unread(currentWord, currentPos)
    }

    /** All values to come, if the reads go on in `data` at `pos`. */
    ghost function Ahead(data: seq<u8>, pos: nat): (zs: seq<nat>)
      reads this
      requires Valid()
      ensures forall i :: 0 <= i < |zs| ==> zs[i] < 0x1000_0000_0000_0000
    {
      SixtyBits();
      Current() + UnpackAll(WordsAt(data, pos))
    }

    constructor (dataType: TSDataType)
      ensures this.dataType == dataType && Valid() && Current() == []
    {
      this.dataType := dataType;
      currentWord, currentPos, currentSelector := 0, 0, 0;
    }

    function HasPendingValues(): bool
      reads this
      requires Valid()
      ensures HasPendingValues() <==> Current() != []
    {
      currentPos > 0
    }

    /** Takes the next word if the current one is used up. */
    method EnsureWord(data: seq<u8>, pos: nat) returns (r: Result<(), Error>, pos': nat)
      requires Valid() && pos <= |data|
      modifies this
      ensures Valid() && pos' <= |data|
      ensures Ahead(data, pos') == old(Ahead(data, pos))
      ensures r == if old(Ahead(data, pos)) == [] then Failure(EndOfData) else Success(())
      ensures r.Success? ==> currentPos > 0
    {
      hide WordAt, SelectorOf, ValueAt, UnpackAll, WordsAt;
      pos' := pos;
      NextWord(data, pos);
      if currentPos == 0 {
        if pos + 8 > |data| {
          return Failure(EndOfData), pos;
        }
        currentWord := WordAt(data, pos);
        pos' := pos + 8;
        currentSelector := SelectorOf(currentWord);
        currentPos := CountOf(currentSelector);
      }
      return Success(()), pos';
    }

    /** The next value; an error leaves the values to come as they were. */
    method ReadI64(data: seq<u8>, pos: nat) returns (r: Result<i64, Error>, pos': nat)
      requires Valid() && pos <= |data|
      modifies this
      ensures Valid() && pos' <= |data|
      ensures r.Failure? ==> Ahead(data, pos') == old(Ahead(data, pos))
      ensures !IsInt64Type(dataType) ==> r == Failure(WrongType)
      ensures IsInt64Type(dataType) && old(Ahead(data, pos)) == [] ==> r == Failure(EndOfData)
      ensures IsInt64Type(dataType) && old(Ahead(data, pos)) != [] ==>
        && r == Success(UnZigZag(old(Ahead(data, pos))[0]))
        && Ahead(data, pos') == old(Ahead(data, pos))[1..]
    {
      hide WordAt, Unpack, UnZigZag, UnpackAll, WordsAt, SelectorOf, ValueAt, Unread;
      if dataType != Int64 && dataType != Timestamp {
        return Failure(WrongType), pos;
      }
      var ok;
      ok, pos' := EnsureWord(data, pos);
      if ok.Failure? {
        return Failure(EndOfData), pos';
      }
      UnreadNext(currentWord, currentPos);
      Shorter(old(Ahead(data, pos)), Current(), UnpackAll(WordsAt(data, pos')));
      var index := CountOf(currentSelector) - currentPos;
      var value := ValueAt(currentWord, currentSelector, index);
      currentPos := currentPos - 1;
      r := Success(UnZigZag(value));
    }
  }
}
