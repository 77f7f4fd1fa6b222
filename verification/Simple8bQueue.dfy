/**
  The Simple8b encoder's packing policy: values wait in a queue, and words leave it as soon
  as sixty values wait.  Also what a decoder makes of all the words.
 */
module Simple8bQueue {
  import opened Bits
  import opened Simple8b

  /** The values that wait, and the words that are complete. */
  datatype Queue = Queue(pending: seq<u64>, output: seq<u64>)

  const EMPTY := Queue([], [])

  predicate AllAtMost(vs: seq<u64>, max: u64) {
    forall i :: 0 <= i < |vs| ==> vs[i] <= max
  }

  function Min(a: nat, b: nat): nat {
    if a <= b then a else b
  }

  /** The first values of `vs`, filled up with zeros to `n`. */
  function Filled(vs: seq<u64>, n: nat): (r: seq<u64>)
    ensures |r| == n
    ensures forall i :: 0 <= i < n ==> r[i] == if i < |vs| then vs[i] else 0
  {
    seq(n, i requires 0 <= i < n => if i < |vs| then vs[i] else 0)
  }

  /** Whether the selector's slots hold the first values, zeros standing in for missing ones. */
  predicate FitsIn(pending: seq<u64>, selector: nat)
    requires selector < 16
  {
    AllAtMost(pending[..Min(CountOf(selector), |pending|)], MAX_VALUES[selector])
  }

  /** Whether a selector can be used: before the end, only a full word is written. */
  predicate Usable(pending: seq<u64>, selector: nat, atEnd: bool)
    requires selector < 16
  {
    (atEnd || CountOf(selector) <= |pending|) && FitsIn(pending, selector)
  }

  /** The first selector from `selector` on that can be used; 16 if there is none. */
  function Choose(pending: seq<u64>, selector: nat, atEnd: bool): (r: nat)
    requires selector <= 16
    ensures selector <= r <= 16
    ensures r < 16 ==> Usable(pending, r, atEnd)
    ensures forall i :: selector <= i < r ==> !Usable(pending, i, atEnd)
    decreases 16 - selector
  {
    if selector == 16 || Usable(pending, selector, atEnd) then selector
    else Choose(pending, selector + 1, atEnd)
  }

  /** One word with `selector` leaves the queue. */
  function Emit(q: Queue, selector: nat): (r: Queue)
    requires selector < 16
    ensures q.pending != [] ==> |r.pending| < |q.pending|
  {
    var n := CountOf(selector);
    Queue(q.pending[Min(n, |q.pending|)..], q.output + [WordOf(selector, Filled(q.pending, n))])
  }

  /** Full words only; with 240 waiting values the first one is cut to 60 bits. */
  function TryPack(q: Queue): (r: Queue)
  {
    var selector := Choose(q.pending, 0, false);
    if selector < 16 then Emit(q, selector)
    else if |q.pending| >= 240 then Emit(q, 15)
    else q
  }

  function Push(q: Queue, z: u64): (r: Queue)
  {
    var next := Queue(q.pending + [z], q.output);
    if |next.pending| >= 60 then TryPack(next) else next
  }

  /** Everything leaves; the last word may be filled up with zeros. */
  function Finish(q: Queue): (r: Queue)
    ensures r.pending == []
    decreases |q.pending|
  {
    if q.pending == [] then q
    else
      var selector := Choose(q.pending, 0, true);
      Finish(Emit(q, if selector < 16 then selector else 15))
  }

  function PushAll(q: Queue, zs: seq<u64>): (r: Queue)
    decreases |zs|
  {
    if |zs| == 0 then q else Push(PushAll(q, zs[..|zs| - 1]), zs[|zs| - 1])
  }

  /** The words that a new encoder writes for `zs`. */
  function WordsFor(zs: seq<u64>): (words: seq<u64>)
  {
    Finish(PushAll(EMPTY, zs)).output
  }

  // ----- What the words mean -----

  /** Values that a word can carry. */
  predicate InRange(zs: seq<nat>) {
    forall i :: 0 <= i < |zs| ==> zs[i] < 0x1000_0000_0000_0000
  }

  /** A queue that still knows `zs`, in words or waiting. */
  ghost predicate Knows(q: Queue, zs: seq<u64>)
  {
    && |q.pending| < 60
    && InRange(zs)
    && UnpackAll(q.output) + q.pending == zs
  }

  /** A selector that can be used is found, and it is not selector 1. */
  lemma Chosen(pending: seq<u64>, atEnd: bool)
    requires 0 < |pending| <= 60 && InRange(pending)
    ensures Choose(pending, 0, atEnd) < 16
    ensures Choose(pending, 0, atEnd) != 1
  {
    assert Usable(pending, 15, atEnd);
    if atEnd && Usable(pending, 1, atEnd) {
      assert pending[..|pending|] == pending;
      assert Usable(pending, 0, atEnd);
    }
  }

  /** The word that leaves reads back as the values that left, and zeros if too few waited. */
  lemma EmitUnpacks(q: Queue, selector: nat)
    requires selector < 16 && selector != 1 && FitsIn(q.pending, selector)
    ensures UnpackAll(Emit(q, selector).output)
         == UnpackAll(q.output) + Filled(q.pending, CountOf(selector))
  {
    hide WordOf, UnpackAll;
    var vs := Filled(q.pending, CountOf(selector));
    forall i | 0 <= i < |vs|
      ensures vs[i] <= MAX_VALUES[selector]
    {
      if i < |q.pending| {
        assert q.pending[..Min(CountOf(selector), |q.pending|)][i] == vs[i];
      }
    }
    WordUnpacks(selector, vs);
    UnpackAllSnoc(q.output, WordOf(selector, vs));
  }

  lemma Split<T>(a: seq<T>, b: seq<T>, n: nat)
    requires n <= |b|
    ensures (a + b[..n]) + b[n..] == a + b
  {
  }

  /** Packing in the middle of a run loses nothing and invents nothing. */
  lemma PushKnows(q: Queue, zs: seq<u64>, z: u64)
    requires Knows(q, zs) && z < 0x1000_0000_0000_0000
    ensures Knows(Push(q, z), zs + [z])
  {
    hide WordOf, UnpackAll;
    var next := Queue(q.pending + [z], q.output);
    assert UnpackAll(q.output) + (q.pending + [z]) == zs + [z];
    if |next.pending| >= 60 {
      assert forall i :: 0 <= i < |q.pending| ==> q.pending[i] == zs[|UnpackAll(q.output)| + i];
      Chosen(next.pending, false);
      var selector := Choose(next.pending, 0, false);
      var n := CountOf(selector);
      EmitUnpacks(next, selector);
      assert Filled(next.pending, n) == next.pending[..n];
      Split(UnpackAll(q.output), next.pending, n);
    }
  }

  lemma EmptyKnows()
    ensures Knows(EMPTY, [])
  {
  }

  lemma {:induction false} PushAllKnows(zs: seq<u64>)
    requires InRange(zs)
    ensures Knows(PushAll(EMPTY, zs), zs)
    decreases |zs|
  {
    hide Push, Knows, UnpackAll;
    if |zs| == 0 {
      EmptyKnows();
    } else {
      var init := zs[..|zs| - 1];
      PushAllKnows(init);
      PushKnows(PushAll(EMPTY, init), init, zs[|zs| - 1]);
      assert init + [zs[|zs| - 1]] == zs;
    }
  }

  /** `vs` begins with `zs`, and only zeros follow. */
  ghost predicate BeginsWith(vs: seq<nat>, zs: seq<nat>)
  {
    && zs <= vs
    && forall i :: |zs| <= i < |vs| ==> vs[i] == 0
  }

  lemma EmitKnows(q: Queue, zs: seq<u64>, selector: nat)
    requires Knows(q, zs) && selector < 16 && selector != 1 && FitsIn(q.pending, selector)
    ensures CountOf(selector) <= |q.pending| ==> Knows(Emit(q, selector), zs)
    ensures CountOf(selector) > |q.pending| ==>
      Emit(q, selector).pending == [] && BeginsWith(UnpackAll(Emit(q, selector).output), zs)
  {
    hide WordOf, UnpackAll, FitsIn, CountOf, InRange;
    EmitUnpacks(q, selector);
    var n := CountOf(selector);
    if n <= |q.pending| {
      assert Filled(q.pending, n) == q.pending[..n];
      Split(UnpackAll(q.output), q.pending, n);
    }
  }

  lemma PendingInRange(q: Queue, zs: seq<u64>)
    requires Knows(q, zs)
    ensures InRange(q.pending)
  {
    assert forall i :: 0 <= i < |q.pending| ==> q.pending[i] == zs[|UnpackAll(q.output)| + i];
  }

  lemma {:induction false} FinishKnows(q: Queue, zs: seq<u64>)
    requires Knows(q, zs)
    ensures BeginsWith(UnpackAll(Finish(q).output), zs)
    decreases |q.pending|
  {
    hide WordOf, UnpackAll, Emit, Choose, Usable, InRange, FitsIn, CountOf;
    if q.pending == [] {
      assert UnpackAll(q.output) + [] == UnpackAll(q.output);
    } else {
      PendingInRange(q, zs);
      Chosen(q.pending, true);
      var selector := Choose(q.pending, 0, true);
      assert FitsIn(q.pending, selector) by { UsableFits(q.pending, selector); }
      EmitKnows(q, zs, selector);
      if CountOf(selector) <= |q.pending| {
        FinishKnows(Emit(q, selector), zs);
      }
    }
  }

  lemma UsableFits(pending: seq<u64>, selector: nat)
    requires selector < 16 && Usable(pending, selector, true)
    ensures FitsIn(pending, selector)
  {
  }

  /**
    The words for `zs` decode to `zs`, and then zeros, exactly when every value of `zs` is
    below 2^60.
   */
  lemma WordsReadBack(zs: seq<u64>)
    ensures InRange(zs) ==> BeginsWith(UnpackAll(WordsFor(zs)), zs)
    ensures zs <= UnpackAll(WordsFor(zs)) <==> InRange(zs)
  {
    if InRange(zs) {
      PushAllKnows(zs);
      FinishKnows(PushAll(EMPTY, zs), zs);
    }
    var vs := UnpackAll(WordsFor(zs));
    if zs <= vs {
      SixtyBits();
      assert forall i :: 0 <= i < |zs| ==> zs[i] == vs[i];
    }
  }

  lemma SixtyBits()
    ensures Pow2(60) == 0x1000_0000_0000_0000
  {
    MaxValueBits(15);
  }

  /**
    A queue that an oversized value has held up can even send ones for zeros: 120 zeros that
    are not part of 240 leave as a word of ones.
   */
  lemma ZerosBecomeOnes(q: Queue)
    requires |q.pending| >= 120 && (forall i :: 0 <= i < 120 ==> q.pending[i] == 0)
    requires |q.pending| < 240 || exists i :: 0 <= i < 240 && q.pending[i] != 0
    ensures var n := |UnpackAll(q.output)|;
            var vs := UnpackAll(TryPack(q).output);
            |vs| == n + 120 && forall i :: n <= i < n + 120 ==> vs[i] == 1
  {
    hide WordOf, UnpackAll;
    if |q.pending| >= 240 {
      var i :| 0 <= i < 240 && q.pending[i] != 0;
      assert q.pending[..240][i] != 0;
    }
    assert !Usable(q.pending, 0, false);
    assert Usable(q.pending, 1, false);
    assert Choose(q.pending, 1, false) == 1;
    OnesUnpack(Filled(q.pending, 120));
    UnpackAllSnoc(q.output, WordOf(1, Filled(q.pending, 120)));
  }

  // ----- How a run of the encoder gets there -----

  /** No selector takes a first value of more than 60 bits. */
  lemma NothingUsable(zs: seq<u64>, atEnd: bool)
    requires |zs| > 0 && zs[0] >= 0x1000_0000_0000_0000
    ensures Choose(zs, 0, atEnd) == 16
  {
    forall selector | 0 <= selector < 16
      ensures !Usable(zs, selector, atEnd)
    {
      var first := zs[..Min(CountOf(selector), |zs|)];
      assert first[0] == zs[0];
    }
  }

  /** Behind such a value everything waits, until 240 values do. */
  lemma {:induction false} HeldUp(zs: seq<u64>)
    requires 0 < |zs| < 240 && zs[0] >= 0x1000_0000_0000_0000
    ensures PushAll(EMPTY, zs) == Queue(zs, [])
    decreases |zs|
  {
    hide Choose;
    var init := zs[..|zs| - 1];
    assert init + [zs[|zs| - 1]] == zs;
    NothingUsable(zs, false);
    if |zs| > 1 {
      HeldUp(init);
    } else {
      assert init == [];
    }
  }

  /** With the 240th value it leaves alone. */
  lemma Released(q: Queue, z: u64)
    requires q.pending != [] && q.pending[0] >= 0x1000_0000_0000_0000
    ensures |q.pending| + 1 < 240 ==> Push(q, z) == Queue(q.pending + [z], q.output)
    ensures |q.pending| + 1 >= 240 ==>
      Push(q, z) == Queue(q.pending[1..] + [z], q.output + [WordOf(15, [q.pending[0]])])
  {
    hide WordOf, Choose;
    var next := q.pending + [z];
    NothingUsable(next, false);
    assert Filled(next, 1) == [q.pending[0]];
    assert next[1..] == q.pending[1..] + [z];
  }

  /** A word of 60 bits keeps the low bits of its value. */
  lemma CutValue(z: u64)
    ensures Low(z, 60) < 0x1000_0000_0000_0000 && Unpack(WordOf(15, [z])) == [Low(z, 60)]
  {
    hide WordOf, Unpack, ToBits, Low;
    SixtyBits();
    CutWord(z);
    WordUnpacks(15, [Low(z, 60)]);
  }

  lemma CutWord(z: u64)
    requires Low(z, 60) < 0x1_0000_0000_0000_0000
    ensures WordOf(15, [z]) == WordOf(15, [Low(z, 60)])
  {
    hide ToBits, Low;
    assert PackBits([], 60) == [];
    assert [z][..0] == [] && [Low(z, 60)][..0] == [];
    assert PackBits([z], 60) == PackBits([Low(z, 60)], 60);
  }

  /** The oversized value leaves alone, cut to 60 bits. */
  lemma FirstLeaves(zs: seq<u64>)
    requires |zs| > 0 && zs[0] >= 0x1000_0000_0000_0000
    ensures var q := Emit(Queue(zs, []), 15);
            && Finish(Queue(zs, [])) == Finish(q)
            && q.pending == zs[1..] && UnpackAll(q.output) == [Low(zs[0], 60)]
  {
    hide WordOf, UnpackAll, Choose, Low;
    NothingUsable(zs, true);
    assert Filled(zs, 1) == [zs[0]];
    CutValue(zs[0]);
    UnpackAllSnoc([], WordOf(15, [zs[0]]));
    NoWords();
    assert [] + [WordOf(15, [zs[0]])] == [WordOf(15, [zs[0]])];
  }

  lemma NoWords()
    ensures UnpackAll([]) == []
  {
  }

  /** At the end, 120 zeros before a one leave as 120 ones. */
  lemma OnesLeave(q: Queue)
    requires |q.pending| == 121 && q.pending[120] == 1
    requires forall i :: 0 <= i < 120 ==> q.pending[i] == 0
    ensures var r := Emit(q, 1);
            && Finish(q) == Finish(r) && r.pending == [1]
            && UnpackAll(r.output) == UnpackAll(q.output) + seq(120, i => 1)
  {
    hide WordOf, UnpackAll, Unpack;
    assert q.pending[..121][120] == 1;
    assert !Usable(q.pending, 0, true) && Usable(q.pending, 1, true);
    assert Choose(q.pending, 1, true) == 1;
    var word := WordOf(1, Filled(q.pending, 120));
    OnesUnpack(Filled(q.pending, 120));
    assert Unpack(word) == seq(120, i => 1);
    UnpackAllSnoc(q.output, word);
  }

  /** A one that is left over leaves in a word of its own, filled up with zeros. */
  lemma OneLeaves(q: Queue)
    requires q.pending == [1]
    ensures UnpackAll(Finish(q).output) == UnpackAll(q.output) + Filled([1], 60)
  {
    hide WordOf, UnpackAll;
    assert q.pending[..1][0] == 1;
    assert !Usable(q.pending, 0, true) && !Usable(q.pending, 1, true) && Usable(q.pending, 2, true);
    assert Choose(q.pending, 2, true) == 2 && Choose(q.pending, 1, true) == 2;
    EmitUnpacks(q, 2);
    assert Finish(q) == Emit(q, 2);
  }

  /**
    So an encoder that is given an oversized value, 120 zeros and a one writes words that read
    as the low bits of that value, 120 ones, a one, and zeros: no value but the one comes back.
   */
  lemma ZerosReturnAsOnes(z: u64, zs: seq<u64>)
    requires z >= 0x1000_0000_0000_0000
    requires zs == [z] + Filled([], 120) + [1]
    ensures UnpackAll(WordsFor(zs)) == [Low(z, 60)] + seq(120, i => 1) + Filled([1], 60)
  {
    hide UnpackAll, Emit, Finish, Choose, PushAll, Low;
    HeldUp(zs);
    FirstLeaves(zs);
    var q := Emit(Queue(zs, []), 15);
    assert q.pending == Filled([], 120) + [1];
    OnesLeave(q);
    OneLeaves(Emit(q, 1));
  }

  // ----- Which word -----

  /** The values fit the slots exactly if they are below `2^bits`. */
  lemma UsableIs(pending: seq<u64>, selector: nat, atEnd: bool)
    requires selector < 16
    ensures Usable(pending, selector, atEnd) <==>
      && (atEnd || CountOf(selector) <= |pending|)
      && forall j :: 0 <= j < |pending| && j < CountOf(selector) ==> pending[j] < Pow2(BitsOf(selector))
  {
    hide CountOf, BitsOf, Pow2;
    MaxValueBits(selector);
    var first := pending[..Min(CountOf(selector), |pending|)];
    assert forall j :: 0 <= j < |first| ==> first[j] == pending[j];
  }

  /**
    The first selector of the table that can be filled with the first values, or at the end
    holds all there are, takes them out in a word.
   */
  lemma FirstFit(q: Queue, selector: nat, atEnd: bool)
    requires selector < 16
    ensures
      && q.pending != [] && (atEnd || CountOf(selector) <= |q.pending|)
      && (forall j :: 0 <= j < |q.pending| && j < CountOf(selector) ==> q.pending[j] < Pow2(BitsOf(selector)))
      && (forall i :: 0 <= i < selector ==>
            || (!atEnd && |q.pending| < CountOf(i))
            || exists j :: 0 <= j < |q.pending| && j < CountOf(i) && q.pending[j] >= Pow2(BitsOf(i)))
      ==>
      var n := CountOf(selector);
      var rest := if n <= |q.pending| then q.pending[n..] else [];
      var next := Queue(rest, q.output + [WordOf(selector, Filled(q.pending, n))]);
      if atEnd then Finish(q) == Finish(next) else TryPack(q) == next
  {
    UsableIs(q.pending, selector, atEnd);
    forall i | 0 <= i < selector
      ensures Usable(q.pending, i, atEnd) <==>
        && (atEnd || CountOf(i) <= |q.pending|)
        && forall j :: 0 <= j < |q.pending| && j < CountOf(i) ==> q.pending[j] < Pow2(BitsOf(i))
    {
      UsableIs(q.pending, i, atEnd);
    }
    hide Usable, CountOf, BitsOf, Pow2, WordOf, Choose;
    var choice := Choose(q.pending, 0, atEnd);
    if Usable(q.pending, selector, atEnd) && choice == selector {
      assert q.pending[|q.pending|..] == [];
      var n := CountOf(selector);
      var rest := if n <= |q.pending| then q.pending[n..] else [];
      assert Emit(q, selector) == Queue(rest, q.output + [WordOf(selector, Filled(q.pending, n))]);
    }
  }

  // ----- How many words -----

  /** Nothing leaves before sixty values wait; then, in range, exactly one word does. */
  lemma PushWaits(q: Queue, z: u64)
    ensures |q.pending| < 59 ==> Push(q, z) == Queue(q.pending + [z], q.output)
    ensures |q.pending| == 59 && InRange(q.pending + [z]) ==> |Push(q, z).output| == |q.output| + 1
  {
    hide Choose, WordOf;
    var next := q.pending + [z];
    if |q.pending| == 59 && InRange(next) {
      Chosen(next, false);
    }
  }

  /** Numbers of exactly `b` bits. */
  predicate OfWidth(zs: seq<nat>, b: nat)
    requires b > 0
  {
    forall i :: 0 <= i < |zs| ==> Pow2(b - 1) <= zs[i] < Pow2(b)
  }

  /** The first selector wide enough for `b` bits. */
  ghost predicate ForWidth(selector: nat, b: nat) {
    && 1 < selector < 16 && 1 <= b <= BitsOf(selector)
    && forall i :: 2 <= i < selector ==> BitsOf(i) < b
  }

  /** It is the one that is used. */
  lemma WidthChosen(pending: seq<u64>, b: nat, selector: nat, atEnd: bool)
    requires ForWidth(selector, b) && |pending| > 0 && OfWidth(pending, b)
    requires atEnd || CountOf(selector) <= |pending|
    ensures Choose(pending, 0, atEnd) == selector
  {
    hide CountOf, BitsOf, Pow2, Choose;
    forall i | 0 <= i < selector
      ensures !Usable(pending, i, atEnd)
    {
      var first := pending[..Min(CountOf(i), |pending|)];
      assert first[0] == pending[0];
      NarrowMax(i, b);
    }
    WideMax(selector, b);
    assert Usable(pending, selector, atEnd);
  }

  lemma NarrowMax(selector: nat, b: nat)
    requires selector < 16 && b > 0 && (selector < 2 || BitsOf(selector) < b)
    ensures MAX_VALUES[selector] < Pow2(b - 1)
  {
    hide Pow2;
    MaxValueBits(selector);
    if selector >= 2 {
      Pow2Monotone(BitsOf(selector), b - 1);
    }
  }

  lemma WideMax(selector: nat, b: nat)
    requires selector < 16 && b <= BitsOf(selector)
    ensures Pow2(b) - 1 <= MAX_VALUES[selector]
  {
    hide Pow2;
    MaxValueBits(selector);
    Pow2Monotone(b, BitsOf(selector));
  }

  /** `words` words of `n` values, and `rest` more. */
  predicate Filling(words: nat, n: nat, rest: nat, total: nat) {
    words * n + rest == total
  }

  /** `k` words of `n` values are just enough for `m` values. */
  predicate JustEnough(k: nat, n: nat, m: nat) {
    m <= k * n < m + n
  }

  lemma FillingMore(words: nat, n: nat, rest: nat, total: nat)
    requires Filling(words, n, rest, total)
    ensures Filling(words, n, rest + 1, total + 1)
    ensures n <= rest ==> Filling(words + 1, n, rest - n, total)
  {
    assert (words + 1) * n == words * n + n;
  }

  lemma EnoughMore(k: nat, n: nat, m: nat)
    requires n > 0
    ensures JustEnough(0, n, 0)
    ensures JustEnough(k, n, m) ==> JustEnough(k + 1, n, m + n)
    ensures 0 < m <= n ==> JustEnough(1, n, m)
  {
    assert (k + 1) * n == k * n + n;
    assert 0 * n == 0 && 1 * n == n;
  }

  lemma EnoughInAll(words: nat, k: nat, n: nat, m: nat, total: nat)
    requires Filling(words, n, m, total) && JustEnough(k, n, m)
    ensures JustEnough(words + k, n, total)
  {
    assert (words + k) * n == words * n + k * n;
  }

  /** What a word with that selector takes out of the queue. */
  lemma EmitTakes(q: Queue, b: nat, selector: nat)
    requires ForWidth(selector, b) && OfWidth(q.pending, b)
    ensures var r := Emit(q, selector);
            && |r.output| == |q.output| + 1 && OfWidth(r.pending, b)
            && |r.pending| == |q.pending| - Min(CountOf(selector), |q.pending|)
  {
    hide WordOf, CountOf, BitsOf, Pow2;
    var n := Min(CountOf(selector), |q.pending|);
    assert forall i :: 0 <= i < |q.pending| - n ==> q.pending[n..][i] == q.pending[n + i];
  }

  lemma PushCounts(q: Queue, z: u64, b: nat, selector: nat, total: nat)
    requires ForWidth(selector, b) && OfWidth(q.pending + [z], b) && |q.pending| < 60
    requires Filling(|q.output|, CountOf(selector), |q.pending|, total)
    ensures var r := Push(q, z);
            && |r.pending| < 60 && OfWidth(r.pending, b)
            && Filling(|r.output|, CountOf(selector), |r.pending|, total + 1)
  {
    AtMostSixty(selector);
    hide Choose, Emit, CountOf, BitsOf, ForWidth, OfWidth, Filling;
    var next, n := Queue(q.pending + [z], q.output), CountOf(selector);
    FillingMore(|q.output|, n, |q.pending|, total);
    if |next.pending| >= 60 {
      FillingMore(|q.output|, n, |next.pending|, total + 1);
      WidthChosen(next.pending, b, selector, false);
      EmitTakes(next, b, selector);
    }
  }

  lemma AtMostSixty(selector: nat)
    requires 1 < selector < 16
    ensures CountOf(selector) <= 60
  {
  }

  lemma {:induction false} PushAllCounts(zs: seq<u64>, b: nat, selector: nat)
    requires ForWidth(selector, b) && OfWidth(zs, b)
    ensures var q := PushAll(EMPTY, zs);
            && |q.pending| < 60 && OfWidth(q.pending, b)
            && Filling(|q.output|, CountOf(selector), |q.pending|, |zs|)
    decreases |zs|
  {
    hide Push, Filling;
    if |zs| > 0 {
      var init := zs[..|zs| - 1];
      PushAllCounts(init, b, selector);
      PushCounts(PushAll(EMPTY, init), zs[|zs| - 1], b, selector, |init|);
    } else {
      FillingNone(CountOf(selector));
    }
  }

  lemma FillingNone(n: nat)
    ensures Filling(0, n, 0, 0)
  {
  }

  lemma {:induction false} FinishCounts(q: Queue, b: nat, selector: nat)
    requires ForWidth(selector, b) && OfWidth(q.pending, b)
    ensures |q.output| <= |Finish(q).output|
    ensures JustEnough(|Finish(q).output| - |q.output|, CountOf(selector), |q.pending|)
    decreases |q.pending|
  {
    hide Choose, Emit, CountOf, JustEnough, OfWidth, BitsOf;
    var n := CountOf(selector);
    EnoughMore(0, n, |q.pending|);
    if q.pending != [] {
      WidthChosen(q.pending, b, selector, true);
      EmitTakes(q, b, selector);
      var r := Emit(q, selector);
      FinishCounts(r, b, selector);
      EnoughMore(|Finish(r).output| - |r.output|, n, |r.pending|);
    }
  }

  /** How many values of `b` bits a word holds. */
  function PerWord(b: nat): (n: nat)
    requires b > 0
  {
    60 / b
  }

  /**
    Values that need exactly `b` bits each are packed `60 / b` to a word: the encoder writes
    just as many words as that takes.
   */
  lemma WordCount(zs: seq<u64>, b: nat)
    requires 1 <= b <= 60 && OfWidth(zs, b)
    ensures JustEnough(|WordsFor(zs)|, PerWord(b), |zs|)
  {
    hide CountOf, BitsOf, PushAll, Finish, JustEnough, Filling, OfWidth;
    var selector := WidthSelector(b);
    PushAllCounts(zs, b, selector);
    var q := PushAll(EMPTY, zs);
    FinishCounts(q, b, selector);
    EnoughInAll(|q.output|, |Finish(q).output| - |q.output|, CountOf(selector), |q.pending|, |zs|);
  }
}
