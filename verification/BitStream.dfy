/**
  Bytes, bit strings, and the two bit-level operations of the codecs: putting a field at
  the end of a stream and reading a field from it.

  The stream of a writer is the bit string of its flushed bytes followed by the pending
  bits at the top of its 64-bit accumulator.
 */
module BitStream {
  import opened Bits

  // ----- Bytes -----

  /** `x as u8`: the low eight bits. */
  function AsU8(x: nat): (r: u8)
    ensures ToBits(r, 8) == ToBits(x, 8)
  {
    Pow2Byte(0);
    Low(x, 8)
  }

  /** The bits of a byte string, first byte first. */
  function BytesToBits(bytes: seq<u8>): (s: seq<bool>)
    ensures |s| == 8 * |bytes|
  {
    if |bytes| == 0 then []
    else BytesToBits(bytes[..|bytes| - 1]) + ToBits(bytes[|bytes| - 1], 8)
  }

  /** `to_be_bytes` of an `8 * n`-bit number. */
  function BeBytes(x: nat, n: nat): (bytes: seq<u8>)
    ensures |bytes| == n
  {
    if n == 0 then [] else BeBytes(Shr(x, 8), n - 1) + [AsU8(x)]
  }

  /** `u64::from_be_bytes`. */
  function FromBeBytes(bytes: seq<u8>): (x: u64)
    requires |bytes| == 8
    ensures ToBits(x, 64) == BytesToBits(bytes)
  {
    Pow2Of64();
    ToFromBits(BytesToBits(bytes));
    FromBits(BytesToBits(bytes))
  }

  lemma {:induction false} BytesToBitsConcat(a: seq<u8>, b: seq<u8>)
    ensures BytesToBits(a + b) == BytesToBits(a) + BytesToBits(b)
  {
    if |b| == 0 {
      assert a + b == a;
    } else {
      var b' := b[..|b| - 1];
      BytesToBitsConcat(a, b');
      assert (a + b)[..|a + b| - 1] == a + b';
    }
  }

  lemma MiddleOf<T>(a: seq<T>, b: seq<T>, c: seq<T>)
    ensures (a + b + c)[|a|..|a| + |b|] == b
  {
  }

  lemma BytesToBitsSlice(bytes: seq<u8>, i: nat, j: nat)
    requires i <= j <= |bytes|
    ensures BytesToBits(bytes[i..j]) == BytesToBits(bytes)[8 * i..8 * j]
  {
    hide BytesToBits;
    var a, b, c := bytes[..i], bytes[i..j], bytes[j..];
    assert bytes == a + b + c;
    BytesToBitsConcat(a + b, c);
    BytesToBitsConcat(a, b);
    MiddleOf(BytesToBits(a), BytesToBits(b), BytesToBits(c));
  }

  lemma {:induction false} BytesToBitsInjective(a: seq<u8>, b: seq<u8>)
    requires BytesToBits(a) == BytesToBits(b)
    ensures a == b
  {
    assert |a| == |b|;
    if |a| > 0 {
      var a', b' := a[..|a| - 1], b[..|b| - 1];
      var x, y := BytesToBits(a), BytesToBits(b);
      assert x[..8 * |a'|] == BytesToBits(a') && y[..8 * |a'|] == BytesToBits(b');
      assert x[8 * |a'|..] == ToBits(a[|a'|], 8) && y[8 * |a'|..] == ToBits(b[|a'|], 8);
      BytesToBitsInjective(a', b');
      Pow2Byte(0);
      BitsInjective(a[|a'|], b[|a'|], 8);
      assert a == a' + [a[|a'|]] && b == b' + [b[|a'|]];
    }
  }

  lemma {:induction false} BeBytesBits(x: nat, n: nat)
    ensures BytesToBits(BeBytes(x, n)) == ToBits(x, 8 * n)
  {
    if n > 0 {
      BeBytesBits(Shr(x, 8), n - 1);
      SplitBits(x, 8 * (n - 1), 8);
      var bytes := BeBytes(x, n);
      assert bytes[..n - 1] == BeBytes(Shr(x, 8), n - 1);
    }
  }

  /** Zero bits that fill up the last byte. */
  function Pad(s: seq<bool>): (p: seq<bool>)
    ensures |p| % 8 == 0 && |s| <= |p| < |s| + 8 && p[..|s|] == s
  {
    s + Zeros((8 - |s| % 8) % 8)
  }

  // ----- Writing -----

  /** `value` written in `len` bits. */
  datatype Field = Field(value: u64, len: nat)

  function FieldBits(f: Field): (s: seq<bool>)
    ensures |s| == f.len
  {
    ToBits(f.value, f.len)
  }

  function TotalLength(fs: seq<Field>): (n: nat)
  {
    if |fs| == 0 then 0 else fs[0].len + TotalLength(fs[1..])
  }

  function ConcatFields(fs: seq<Field>): (s: seq<bool>)
    ensures |s| == TotalLength(fs)
  {
    if |fs| == 0 then [] else FieldBits(fs[0]) + ConcatFields(fs[1..])
  }

  /**
    What writing a field does to the stream: the value is shifted to just behind the
    pending bits - to the bottom of the accumulator if there is no room for it - and
    OR-ed in, and what lies beyond 64 bits is lost.
   */
  function Put(s: seq<bool>, f: Field): (r: seq<bool>)
    requires f.len <= 64
    ensures |r| == if |s| % 8 + f.len <= 64 then |s| + f.len else |s| - |s| % 8 + 64
  {
    if f.len == 0 then s
    else
      var word := OrInto(s[|s| - |s| % 8..], f);
      s[..|s| - |s| % 8] + word[..if |s| % 8 + f.len < 64 then |s| % 8 + f.len else 64]
  }

  /** The accumulator with the field OR-ed in behind the pending bits `pend`. */
  function OrInto(pend: seq<bool>, f: Field): (word: seq<bool>)
    requires |pend| < 8
    ensures |word| == 64
  {
    BitOr(pend + Zeros(64 - |pend|), ToBits(Shl(f.value, ShiftFor(|pend|, f.len)), 64))
  }

  function ShiftFor(pending: nat, len: nat): nat
  {
    if pending + len >= 64 then 0 else 64 - pending - len
  }

  predicate AreFields(fs: seq<Field>)
  {
    forall i :: 0 <= i < |fs| ==> fs[i].len <= 64
  }

  function PutAll(s: seq<bool>, fs: seq<Field>): (r: seq<bool>)
    requires AreFields(fs)
    decreases |fs|
  {
    if |fs| == 0 then s else PutAll(Put(s, fs[0]), fs[1..])
  }

  lemma {:induction false} PutAllSnoc(s: seq<bool>, fs: seq<Field>, f: Field)
    requires AreFields(fs) && f.len <= 64
    ensures AreFields(fs + [f]) && PutAll(s, fs + [f]) == Put(PutAll(s, fs), f)
    decreases |fs|
  {
    if |fs| == 0 {
      assert fs + [f] == [f];
      assert PutAll(Put(s, f), [f][1..]) == Put(s, f);
    } else {
      assert (fs + [f])[1..] == fs[1..] + [f];
      PutAllSnoc(Put(s, fs[0]), fs[1..], f);
    }
  }

  /** A field that fits behind the pending bits of its byte. */
  predicate FieldFits(pos: nat, f: Field)
  {
    f.value < Pow2(f.len) && pos % 8 + f.len <= 64
  }

  predicate AllFit(pos: nat, fs: seq<Field>)
    decreases |fs|
  {
    |fs| == 0 || (FieldFits(pos, fs[0]) && AllFit(pos + fs[0].len, fs[1..]))
  }

  lemma ShiftedBits(f: Field, pending: nat)
    requires f.value < Pow2(f.len) && pending + f.len <= 64
    ensures ToBits(Shl(f.value, 64 - pending - f.len), 64)
         == Zeros(pending) + FieldBits(f) + Zeros(64 - pending - f.len)
  {
    var k := 64 - pending - f.len;
    ShlBits(f.value, k);
    SmallBits(f.value, pending + k, f.len);
    assert (Zeros(pending + k) + FieldBits(f))[k..] == Zeros(pending) + FieldBits(f);
  }

  lemma OrPlaces(pend: seq<bool>, field: seq<bool>)
    requires |pend| + |field| <= 64
    ensures var rest := 64 - |pend| - |field|;
            BitOr(pend + Zeros(64 - |pend|), Zeros(|pend|) + field + Zeros(rest))
            == pend + field + Zeros(rest)
  {
  }

  /** The writer refines "append these bits" for every field that fits. */
  lemma PutAppends(s: seq<bool>, f: Field)
    requires FieldFits(|s|, f)
    ensures Put(s, f) == s + FieldBits(f)
  {
    hide ToBits, Shl, BitOr, Zeros, Pow2;
    var b := |s| % 8;
    if f.len > 0 {
      ShiftedBits(f, b);
      var pend := s[|s| - b..];
      OrPlaces(pend, FieldBits(f));
      assert OrInto(pend, f) == pend + FieldBits(f) + Zeros(64 - b - f.len);
      assert (pend + FieldBits(f) + Zeros(64 - b - f.len))[..b + f.len] == pend + FieldBits(f);
      assert s[..|s| - b] + (pend + FieldBits(f)) == s + FieldBits(f);
    } else {
      assert FieldBits(f) == [];
    }
  }

  lemma {:induction false} PutAllAppends(s: seq<bool>, fs: seq<Field>)
    requires AreFields(fs) && AllFit(|s|, fs)
    ensures PutAll(s, fs) == s + ConcatFields(fs)
    decreases |fs|
  {
    if |fs| > 0 {
      PutAppends(s, fs[0]);
      PutAllAppends(s + FieldBits(fs[0]), fs[1..]);
      SeqAssoc(s, FieldBits(fs[0]), ConcatFields(fs[1..]));
    }
  }

  lemma {:induction false} SmallFieldsFit(pos: nat, fs: seq<Field>)
    requires forall i :: 0 <= i < |fs| ==> fs[i].len <= 57 && fs[i].value < Pow2(fs[i].len)
    ensures AllFit(pos, fs)
    decreases |fs|
  {
    if |fs| > 0 {
      SmallFieldsFit(pos + fs[0].len, fs[1..]);
    }
  }

  lemma {:induction false} AllFitSnoc(pos: nat, fs: seq<Field>, f: Field)
    requires AllFit(pos, fs) && FieldFits(pos + TotalLength(fs), f)
    ensures AllFit(pos, fs + [f]) && TotalLength(fs + [f]) == TotalLength(fs) + f.len
    decreases |fs|
  {
    if |fs| == 0 {
      assert fs + [f] == [f] && [f][1..] == [];
    } else {
      assert (fs + [f])[1..] == fs[1..] + [f];
      AllFitSnoc(pos + fs[0].len, fs[1..], f);
    }
  }

  lemma {:induction false} ConcatFieldsSnoc(fs: seq<Field>, f: Field)
    ensures ConcatFields(fs + [f]) == ConcatFields(fs) + FieldBits(f)
    decreases |fs|
  {
    if |fs| == 0 {
      assert fs + [f] == [f];
      assert ConcatFields([f][1..]) == [];
    } else {
      assert (fs + [f])[1..] == fs[1..] + [f];
      ConcatFieldsSnoc(fs[1..], f);
      SeqAssoc(FieldBits(fs[0]), ConcatFields(fs[1..]), FieldBits(f));
    }
  }

  /** Exactly: the result is the appended bits only if the field does not overflow. */
  lemma PutAppendsOnlyIfRoom(s: seq<bool>, f: Field)
    requires f.len <= 64
    ensures Put(s, f) == s + FieldBits(f) ==> |s| % 8 + f.len <= 64
  {
    assert |s + FieldBits(f)| == |s| + f.len;
  }

  // ----- The accumulator -----

  /** The flushed bytes followed by the top `n` bits of the accumulator. */
  function StreamOf(buffer: seq<u8>, acc: u64, n: nat): (s: seq<bool>)
  {
    BytesToBits(buffer) + ToBits(acc, 64)[..if n <= 64 then n else 64]
  }

  /** The buffer and the accumulator hold the stream `s`, and nothing else. */
  ghost predicate Holds(buffer: seq<u8>, acc: u64, n: nat, s: seq<bool>)
  {
    n <= 64 && s == StreamOf(buffer, acc, n) && ToBits(acc, 64)[n..] == Zeros(64 - n)
  }

  lemma HoldsStream(buffer: seq<u8>, acc: u64, n: nat, s: seq<bool>)
    requires Holds(buffer, acc, n, s)
    ensures s == StreamOf(buffer, acc, n)
  {
  }

  /** Between calls the concrete state is determined by the stream. */
  lemma HoldsUnique(b1: seq<u8>, a1: u64, n1: nat, b2: seq<u8>, a2: u64, n2: nat, s: seq<bool>)
    requires Holds(b1, a1, n1, s) && n1 < 8 && Holds(b2, a2, n2, s) && n2 < 8
    ensures b1 == b2 && a1 == a2 && n1 == n2
  {
    assert |s| == 8 * |b1| + n1 && |s| == 8 * |b2| + n2;
    assert BytesToBits(b1) == s[..8 * |b1|] && BytesToBits(b2) == s[..8 * |b2|];
    BytesToBitsInjective(b1, b2);
    assert ToBits(a1, 64) == ToBits(a1, 64)[..n1] + ToBits(a1, 64)[n1..];
    assert ToBits(a2, 64) == ToBits(a2, 64)[..n2] + ToBits(a2, 64)[n2..];
    assert ToBits(a1, 64)[..n1] == s[8 * |b1|..] && ToBits(a2, 64)[..n2] == s[8 * |b2|..];
    Pow2Of64();
    BitsInjective(a1, a2, 64);
  }

  /** Only the pending bits of the last byte take part in a write. */
  lemma PutPending(flushed: seq<bool>, pend: seq<bool>, f: Field)
    requires |flushed| % 8 == 0 && |pend| < 8 && 0 < f.len <= 64
    ensures Put(flushed + pend, f)
         == flushed + OrInto(pend, f)[..if |pend| + f.len < 64 then |pend| + f.len else 64]
  {
    hide OrInto;
    var s := flushed + pend;
    assert |s| % 8 == |pend| && s[|s| - |pend|..] == pend && s[..|s| - |pend|] == flushed;
  }

  /** OR-ing a field into the accumulator. */
  lemma OrHolds(buffer: seq<u8>, acc: u64, n: nat, s: seq<bool>, f: Field)
    requires Holds(buffer, acc, n, s) && n < 8 && 0 < f.len <= 64
    ensures var acc' := Or(acc, Shl(f.value, ShiftFor(n, f.len)));
            Holds(buffer, acc', if n + f.len < 64 then n + f.len else 64, Put(s, f))
  {
    hide ToBits, Shl, BitOr, Zeros, BytesToBits, OrNat, Put;
    var v := Shl(f.value, ShiftFor(n, f.len));
    OrBits(acc, v, 64);
    ShlBits(f.value, ShiftFor(n, f.len));
    var flushed, bits := BytesToBits(buffer), ToBits(acc, 64);
    PutPending(flushed, bits[..n], f);
    assert bits == bits[..n] + Zeros(64 - n) by {
      assert bits == bits[..n] + bits[n..];
    }
    var total := if n + f.len < 64 then n + f.len else 64;
    OrTail(bits, ToBits(v, 64), total);
  }

  lemma OrTail(a: seq<bool>, b: seq<bool>, n: nat)
    requires |a| == |b| == 64 && n <= 64
    requires a[n..] == Zeros(64 - n) && b[n..] == Zeros(64 - n)
    ensures BitOr(a, b)[n..] == Zeros(64 - n)
  {
    assert forall i :: n <= i < 64 ==> a[i] == a[n..][i - n] && b[i] == b[n..][i - n];
  }

  /** The top `k` bytes of the accumulator, and what is left when they are shifted out. */
  lemma TopBytes(acc: u64, k: nat)
    requires k <= 8
    ensures BytesToBits(BeBytes(Shr(acc, 64 - 8 * k), k)) == ToBits(acc, 64)[..8 * k]
    ensures ToBits(Shl(acc, 8 * k), 64) == ToBits(acc, 64)[8 * k..] + Zeros(8 * k)
  {
    BeBytesBits(Shr(acc, 64 - 8 * k), k);
    ShrBits(acc, 64 - 8 * k);
    ShlBits(acc, 8 * k);
  }

  /** Draining the top `k` bytes of the accumulator. */
  lemma DrainHolds(buffer: seq<u8>, acc: u64, n: nat, s: seq<bool>, k: nat)
    requires Holds(buffer, acc, n, s) && 8 * k <= n
    ensures Holds(buffer + BeBytes(Shr(acc, 64 - 8 * k), k), Shl(acc, 8 * k), n - 8 * k, s)
  {
    var bytes := BeBytes(Shr(acc, 64 - 8 * k), k);
    BytesToBitsConcat(buffer, bytes);
    TopBytes(acc, k);
    ShiftOut(ToBits(acc, 64), n, 8 * k);
    SeqAssoc(BytesToBits(buffer), BytesToBits(bytes), ToBits(Shl(acc, 8 * k), 64)[..n - 8 * k]);
  }

  lemma SeqAssoc<T>(a: seq<T>, b: seq<T>, c: seq<T>)
    ensures a + (b + c) == a + b + c
  {
  }

  lemma ShiftOut(bits: seq<bool>, n: nat, m: nat)
    requires m <= n <= |bits| && bits[n..] == Zeros(|bits| - n)
    ensures var rest := bits[m..] + Zeros(m);
            && bits[..n] == bits[..m] + rest[..n - m]
            && rest[n - m..] == Zeros(|bits| - n + m)
  {
    assert forall i :: n <= i < |bits| ==> bits[i] == bits[n..][i - n];
  }

  /** A drain of all 64 bits leaves an empty accumulator. */
  lemma DrainAllHolds(buffer: seq<u8>, acc: u64, s: seq<bool>)
    requires Holds(buffer, acc, 64, s)
    ensures Holds(buffer + BeBytes(acc, 8), 0, 0, s)
  {
    DrainHolds(buffer, acc, 64, s, 8);
    assert Shr(acc, 0) == acc;
    ZeroBits(64);
  }

  /** Padding out the last byte. */
  lemma FlushHolds(buffer: seq<u8>, acc: u64, n: nat, s: seq<bool>)
    requires Holds(buffer, acc, n, s) && 0 < n < 8
    ensures BytesToBits(buffer + BeBytes(Shr(acc, 56), 1)) == Pad(s)
  {
    hide BeBytes, Shr, BytesToBits;
    BytesToBitsConcat(buffer, BeBytes(Shr(acc, 56), 1));
    TopBytes(acc, 1);
    FirstByte(ToBits(acc, 64), n);
    SeqAssoc(BytesToBits(buffer), ToBits(acc, 64)[..n], Zeros(8 - n));
    assert |s| == 8 * |buffer| + n;
  }

  lemma FirstByte(bits: seq<bool>, n: nat)
    requires n <= 8 <= |bits| && bits[n..] == Zeros(|bits| - n)
    ensures bits[..8] == bits[..n] + Zeros(8 - n)
  {
    assert forall i :: n <= i < 8 ==> bits[i] == bits[n..][i - n];
  }

  // ----- Reading -----

  /**
    Reading `len` bits at position `pos`: fails when fewer remain, or when the bits
    behind `pos` do not fit in the 64-bit prefetch buffer, which refills by whole bytes.
   */
  predicate Readable(s: seq<bool>, pos: nat, len: nat)
  {
    len == 0 || (pos + len <= |s| && pos % 8 + len <= 64)
  }

  function ReadAt(s: seq<bool>, pos: nat, len: nat): (x: u64)
    requires Readable(s, pos, len)
  {
    if len == 0 then 0
    else
      Pow2Of64();
      Pow2Monotone(len, 64);
      ToFromBits(s[pos..pos + len]);
      FromBits(s[pos..pos + len])
  }

  /** A field that fits is read back where it was written. */
  lemma ReadBack(s: seq<bool>, pos: nat, f: Field)
    requires FieldFits(pos, f) && pos + f.len <= |s|
    requires s[pos..pos + f.len] == FieldBits(f)
    ensures Readable(s, pos, f.len) && ReadAt(s, pos, f.len) == f.value
  {
    FieldRoundTrip(f.value, f.len);
    if f.len == 0 {
      assert Pow2(0) == 1;
    }
  }
}
