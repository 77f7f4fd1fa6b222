/** 64-bit integers as eight bytes, lowest byte first. */
module LittleEndian {
  import opened Bits
  import opened Digits

  function LeBytes(x: nat, n: nat): (bytes: seq<u8>)
    ensures |bytes| == n
  {
    if n == 0 then [] else [x % 0x100] + LeBytes(x / 0x100, n - 1)
  }

  /** Byte `i` of a number, counted from the lowest. */
  function ByteAt(x: nat, i: nat): (b: u8) {
    x / Pow2(8 * i) % 0x100
  }

  lemma {:induction false} LeByteIs(x: nat, n: nat, i: nat)
    requires i < n
    ensures LeBytes(x, n)[i] == x / Pow2(8 * i) % 0x100
  {
    assert Pow2(0) == 1;
    hide Pow2;
    Pow2Byte(0);
    if i > 0 {
      LeByteIs(x / 0x100, n - 1, i - 1);
      ShrTwice(x, 8, 8 * i - 8);
      ShrDivides(x, 8);
      ShrDivides(x, 8 * i);
      ShrDivides(x / 0x100, 8 * i - 8);
    }
  }

  function FromLe(bytes: seq<u8>): (x: nat)
    ensures x < Pow2(8 * |bytes|)
  {
    if |bytes| == 0 then 0
    else
      assert Pow2(8 * |bytes|) == 0x100 * Pow2(8 * |bytes[1..]|) by { Pow2Byte(8 * |bytes[1..]|); }
      bytes[0] + 0x100 * FromLe(bytes[1..])
  }

  lemma {:induction false} LeRoundTrip(x: nat, n: nat)
    requires x < Pow2(8 * n)
    ensures FromLe(LeBytes(x, n)) == x
  {
    if n > 0 {
      Pow2Byte(8 * n - 8);
      LeRoundTrip(x / 0x100, n - 1);
      assert LeBytes(x, n)[1..] == LeBytes(x / 0x100, n - 1);
    }
  }

  /** `to_le_bytes`. */
  function WordBytes(word: u64): (bytes: seq<u8>)
    ensures |bytes| == 8
  {
    LeBytes(word, 8)
  }

  /** `from_le_bytes` of the eight bytes at `pos`. */
  function WordAt(data: seq<u8>, pos: nat): (word: u64)
    requires pos + 8 <= |data|
  {
    Pow2Of64();
    FromLe(data[pos..pos + 8])
  }

  /** The words that fill `data` from `pos` on; up to seven bytes may be left over. */
  function WordsAt(data: seq<u8>, pos: nat): (words: seq<u64>)
    decreases |data| - pos
  {
    if pos + 8 <= |data| then [WordAt(data, pos)] + WordsAt(data, pos + 8) else []
  }

  function AllBytes(words: seq<u64>): (bytes: seq<u8>)
    decreases |words|
  {
    if |words| == 0 then [] else AllBytes(words[..|words| - 1]) + WordBytes(words[|words| - 1])
  }

  lemma WordAtBytes(a: seq<u8>, word: u64, b: seq<u8>)
    ensures WordAt(a + WordBytes(word) + b, |a|) == word
  {
    hide LeBytes, FromLe, Pow2;
    Pow2Of64();
    LeRoundTrip(word, 8);
    assert (a + WordBytes(word) + b)[|a|..|a| + 8] == WordBytes(word);
  }

  /** Words written one after the other are read back from where they start. */
  lemma {:induction false} WordsRoundTrip(a: seq<u8>, words: seq<u64>)
    ensures WordsAt(a + AllBytes(words), |a|) == words
  {
    WordsBefore(a, words, []);
    assert a + AllBytes(words) + [] == a + AllBytes(words);
    assert words + [] == words;
  }

  lemma {:induction false} WordsBefore(a: seq<u8>, words: seq<u64>, b: seq<u8>)
    ensures WordsAt(a + AllBytes(words) + b, |a|)
         == words + WordsAt(a + AllBytes(words) + b, |a| + |AllBytes(words)|)
    decreases |words|
  {
    hide WordAt, WordBytes;
    if |words| > 0 {
      var init, last := words[..|words| - 1], words[|words| - 1];
      var c := AllBytes(init);
      var data := a + AllBytes(words) + b;
      WordsBefore(a, init, WordBytes(last) + b);
      WordAtBytes(a + c, last, b);
      assert data == a + c + (WordBytes(last) + b) == (a + c) + WordBytes(last) + b;
      var rest := WordsAt(data, |a| + |c| + 8);
      assert init + ([last] + rest) == words + rest;
    } else {
      assert words == [];
    }
  }

  /** The eight bytes from `8 * k` on are those of `word`, lowest first. */
  ghost predicate HoldsWord(bytes: seq<u8>, k: nat, word: u64) {
    8 * k + 8 <= |bytes| && forall i :: 0 <= i < 8 ==> bytes[8 * k + i] == ByteAt(word, i)
  }

  lemma WordHeld(a: seq<u8>, word: u64, b: seq<u8>, k: nat)
    requires |a| == 8 * k
    ensures HoldsWord(a + WordBytes(word) + b, k, word)
  {
    hide LeBytes, Pow2;
    forall i | 0 <= i < 8
      ensures (a + WordBytes(word) + b)[8 * k + i] == ByteAt(word, i)
    {
      LeByteIs(word, 8, i);
    }
  }

  /** Words one after the other: eight bytes each, in order. */
  lemma {:induction false} AllBytesHold(a: seq<u8>, words: seq<u64>, b: seq<u8>, n: nat)
    requires |a| == 8 * n
    ensures |AllBytes(words)| == 8 * |words|
    ensures forall k :: 0 <= k < |words| ==> HoldsWord(a + AllBytes(words) + b, n + k, words[k])
    decreases |words|
  {
    hide HoldsWord, WordBytes;
    if |words| > 0 {
      var init, last := words[..|words| - 1], words[|words| - 1];
      AllBytesHold(a, init, WordBytes(last) + b, n);
      WordHeld(a + AllBytes(init), last, b, n + |init|);
      var data := a + AllBytes(words) + b;
      assert data == a + AllBytes(init) + (WordBytes(last) + b) == (a + AllBytes(init)) + WordBytes(last) + b;
    }
  }
}
