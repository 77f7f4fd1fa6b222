/**
  The Chimp128 code: what one value adds to the bit stream, how a decoder reads it back,
  and the state both sides keep - the previous value and the window of significant bits.

  `width` is 32 for floats and 64 for doubles; values are bit patterns.
 */
module Chimp {
  import opened Bits
  import opened BitStream
  import opened Wrappers
  import opened Types

  // ----- State -----

  const UNSET: nat := 255

  datatype Coder = Coder(count: nat, prev: u64, leading: nat, trailing: nat)

  const START := Coder(0, 0, UNSET, 0)

  predicate IsWidth(width: nat)
  {
    width == 32 || width == 64
  }

  predicate IsValue(width: nat, v: u64)
  {
    v < Pow2(width)
  }

  /** The window is unset, or leaves at least one significant bit. */
  predicate CoderOk(width: nat, c: Coder)
  {
    && IsWidth(width)
    && IsValue(width, c.prev)
    && (c.count == 0 ==> c == START)
    && ((c.leading == UNSET && c.trailing == 0) || c.leading + c.trailing < width)
  }

  function WindowLength(width: nat, c: Coder): int
  {
    width - c.leading - c.trailing
  }

  // ----- Encoding one value -----

  datatype Case = First | Same | Reuse | Close | Fresh

  function XorWith(width: nat, c: Coder, v: u64): (x: u64)
    requires CoderOk(width, c) && IsValue(width, v)
    ensures x < Pow2(width)
  {
    XorBound(v, c.prev, width);
    Xor(v, c.prev)
  }

  /** The branch the encoder takes. */
  function CaseOf(width: nat, c: Coder, v: u64): Case
    requires CoderOk(width, c) && IsValue(width, v)
  {
    if c.count == 0 then First
    else
      var xor := XorWith(width, c, v);
      if xor == 0 then Same
      else
        var leading, trailing := LeadingZeros(xor, width), TrailingZeros(xor);
        if leading >= c.leading && trailing >= c.trailing then Reuse
        else if trailing == c.trailing
                && (if c.leading == 0 then 0 else c.leading - 1) <= leading <= c.leading + 1 then Close
        else Fresh
  }

  function DeltaBits(delta: int): (d: u64)
    requires -1 <= delta <= 1
  {
    if delta == -1 then 0 else if delta == 0 then 1 else 2
  }

  function Bit(b: bool): Field
  {
    Field(if b then 1 else 0, 1)
  }

  /** The control fields of `v`. */
  function HeadFields(width: nat, c: Coder, v: u64): (fs: seq<Field>)
    requires CoderOk(width, c) && IsValue(width, v)
    ensures AreFields(fs)
  {
    match CaseOf(width, c, v)
    case First => []
    case Same => [Bit(false)]
    case Reuse => [Bit(true), Bit(false)]
    case Close =>
      var leading := LeadingZeros(XorWith(width, c, v), width);
      [Bit(true), Bit(true), Bit(false), Field(DeltaBits(leading - c.leading), 2)]
    case Fresh =>
      var xor := XorWith(width, c, v);
      var leading, trailing := LeadingZeros(xor, width), TrailingZeros(xor);
      WindowHoldsAll(xor, width, leading, trailing);
      [Bit(true), Bit(true), Bit(true), Field(leading, 6), Field(width - leading - trailing, 6)]
  }

  /** The data field of `v`; empty for a repeated value. */
  function DataField(width: nat, c: Coder, v: u64): (f: Field)
    requires CoderOk(width, c) && IsValue(width, v)
    ensures f.len <= width
  {
    match CaseOf(width, c, v)
    case First => Field(v, width)
    case Same => Field(0, 0)
    case Reuse =>
      var xor := XorWith(width, c, v);
      WindowHoldsAll(xor, width, c.leading, c.trailing);
      Field(Shr(xor, c.trailing), width - c.leading - c.trailing)
    case Close =>
      var xor := XorWith(width, c, v);
      WindowHoldsAll(xor, width, LeadingZeros(xor, width), c.trailing);
      Field(Shr(xor, c.trailing), width - LeadingZeros(xor, width) - c.trailing)
    case Fresh =>
      var xor := XorWith(width, c, v);
      WindowHoldsAll(xor, width, LeadingZeros(xor, width), TrailingZeros(xor));
      Field(Shr(xor, TrailingZeros(xor)), width - LeadingZeros(xor, width) - TrailingZeros(xor))
  }

  /** Everything that is written for `v`. */
  function Fields(width: nat, c: Coder, v: u64): (fs: seq<Field>)
    requires CoderOk(width, c) && IsValue(width, v)
    ensures AreFields(fs)
  {
    HeadFields(width, c, v) + [DataField(width, c, v)]
  }

  function EncodeStep(width: nat, c: Coder, v: u64, s: seq<bool>): (r: seq<bool>)
    requires CoderOk(width, c) && IsValue(width, v)
  {
    PutAll(s, Fields(width, c, v))
  }

  function NextCoder(width: nat, c: Coder, v: u64): (c': Coder)
    requires CoderOk(width, c) && IsValue(width, v)
    ensures CoderOk(width, c') && c'.count == c.count + 1 && c'.prev == v
  {
    match CaseOf(width, c, v)
    case First => c.(count := 1, prev := v)
    case Same =>
      XorUndo(c.prev, v);
      c.(count := c.count + 1)
    case Reuse => c.(count := c.count + 1, prev := v)
    case Close =>
      var xor := XorWith(width, c, v);
      WindowHoldsAll(xor, width, LeadingZeros(xor, width), c.trailing);
      Coder(c.count + 1, v, LeadingZeros(xor, width), c.trailing)
    case Fresh =>
      var xor := XorWith(width, c, v);
      WindowHoldsAll(xor, width, LeadingZeros(xor, width), TrailingZeros(xor));
      Coder(c.count + 1, v, LeadingZeros(xor, width), TrailingZeros(xor))
  }

  // ----- Encoding a sequence -----

  predicate AreValues(width: nat, vs: seq<u64>)
  {
    forall i :: 0 <= i < |vs| ==> IsValue(width, vs[i])
  }

  function CoderAfter(width: nat, c: Coder, vs: seq<u64>): (c': Coder)
    requires CoderOk(width, c) && AreValues(width, vs)
    ensures CoderOk(width, c') && c'.count == c.count + |vs|
    decreases |vs|
  {
    if |vs| == 0 then c else CoderAfter(width, NextCoder(width, c, vs[0]), vs[1..])
  }

  function EncodeFrom(width: nat, c: Coder, s: seq<bool>, vs: seq<u64>): (r: seq<bool>)
    requires CoderOk(width, c) && AreValues(width, vs)
    decreases |vs|
  {
    if |vs| == 0 then s
    else EncodeFrom(width, NextCoder(width, c, vs[0]), EncodeStep(width, c, vs[0], s), vs[1..])
  }

  /** The stream a new encoder writes. */
  function Encode(width: nat, vs: seq<u64>): (r: seq<bool>)
    requires IsWidth(width) && AreValues(width, vs)
  {
    EncodeFrom(width, START, [], vs)
  }

  // ----- Decoding -----

  function ReadField(s: seq<bool>, pos: nat, len: nat): (r: Result<u64, Error>)
  {
    if Readable(s, pos, len) then Success(ReadAt(s, pos, len)) else Failure(EndOfData)
  }

  /** `x - y` on `u8`. */
  function Sub8(build: Build, x: nat, y: nat): (r: Result<nat, Error>)
    requires x < 256 && y < 256
    ensures r.Success? ==> r.value < 256
  {
    if x >= y then Success(x - y)
    else if build.Checked? then Failure(Overflow)
    else Success(x - y + 256)
  }

  /** `(x as i8 + delta) as u8`. */
  function AddDelta(build: Build, x: nat, delta: int): (r: Result<nat, Error>)
    requires x < 256 && -1 <= delta <= 1
    ensures r.Success? ==> r.value < 256
  {
    var signed := if x < 128 then x else x - 256;
    if build.Checked? && !(-128 <= signed + delta < 128) then Failure(Overflow)
    else Success((x + delta) % 256)
  }

  /** `x << t` on `u64`; a wrapping shift uses `t` modulo 64. */
  function ShlBy(build: Build, x: u64, t: nat): (r: Result<u64, Error>)
  {
    if t < 64 then Success(Shl(x, t))
    else if build.Checked? then Failure(Overflow)
    else Success(Shl(x, t % 64))
  }

  /** The window to use for the data field that starts at `pos`. */
  datatype Plan = Plan(leading: nat, trailing: nat, len: nat, pos: nat)

  function PlanReuse(build: Build, width: nat, c: Coder, pos: nat): (r: Result<Plan, Error>)
    requires width < 256 && c.leading < 256 && c.trailing < 256
    ensures r.Success? ==> r.value.leading < 256 && r.value.trailing < 256
  {
    var rest :- Sub8(build, width, c.leading);
    var len :- Sub8(build, rest, c.trailing);
    Success(Plan(c.leading, c.trailing, len, pos))
  }

  function PlanClose(build: Build, width: nat, c: Coder, s: seq<bool>, pos: nat): (r: Result<Plan, Error>)
    requires width < 256 && c.leading < 256 && c.trailing < 256
    ensures r.Success? ==> r.value.leading < 256 && r.value.trailing < 256
  {
    var d :- ReadField(s, pos, 2);
    if d > 2 then Failure(InvalidDelta)
    else
      var leading :- AddDelta(build, c.leading, d - 1);
      var rest :- Sub8(build, width, leading);
      var len :- Sub8(build, rest, c.trailing);
      Success(Plan(leading, c.trailing, len, pos + 2))
  }

  function PlanFresh(build: Build, width: nat, s: seq<bool>, pos: nat): (r: Result<Plan, Error>)
    requires width < 256
    ensures r.Success? ==> r.value.leading < 256 && r.value.trailing < 256
  {
    var leading :- ReadField(s, pos, 6);
    var len :- ReadField(s, pos + 6, 6);
    var rest :- Sub8(build, width, AsU8(leading));
    var trailing :- Sub8(build, rest, AsU8(len));
    Success(Plan(AsU8(leading), trailing, AsU8(len), pos + 12))
  }

  /** What follows a leading one bit. */
  function PlanAt(build: Build, width: nat, c: Coder, s: seq<bool>, pos: nat): (r: Result<Plan, Error>)
    requires width < 256 && c.leading < 256 && c.trailing < 256
    ensures r.Success? ==> r.value.leading < 256 && r.value.trailing < 256
  {
    var second :- ReadField(s, pos, 1);
    if second == 0 then PlanReuse(build, width, c, pos + 1)
    else
      var third :- ReadField(s, pos + 1, 1);
      if third == 0 then PlanClose(build, width, c, s, pos + 2)
      else PlanFresh(build, width, s, pos + 2)
  }

  datatype Decoded = Decoded(value: u64, coder: Coder, pos: nat)

  /** The data field, shifted into place and XOR-ed to the previous value. */
  function DecodeData(build: Build, c: Coder, s: seq<bool>, plan: Plan): (r: Result<Decoded, Error>)
  {
    var x :- ReadField(s, plan.pos, plan.len);
    var xor :- ShlBy(build, x, plan.trailing);
    var v := Xor(c.prev, xor);
    Success(Decoded(v, Coder(c.count + 1, v, plan.leading, plan.trailing), plan.pos + plan.len))
  }

  function DecodeStep(build: Build, width: nat, c: Coder, s: seq<bool>, pos: nat): (r: Result<Decoded, Error>)
    requires width < 256 && c.leading < 256 && c.trailing < 256
    ensures r.Success? ==> r.value.coder.leading < 256 && r.value.coder.trailing < 256
  {
    if c.count == 0 then
      var x :- ReadField(s, pos, width);
      Success(Decoded(x, c.(count := 1, prev := x), pos + width))
    else
      var first :- ReadField(s, pos, 1);
      if first == 0 then Success(Decoded(c.prev, c.(count := c.count + 1), pos + 1))
      else
        var plan :- PlanAt(build, width, c, s, pos + 1);
        DecodeData(build, c, s, plan)
  }

  datatype Run = Run(values: seq<u64>, coder: Coder, pos: nat)

  /** `n` counted reads. */
  function DecodeFrom(build: Build, width: nat, c: Coder, s: seq<bool>, pos: nat, n: nat): (r: Result<Run, Error>)
    requires width < 256 && c.leading < 256 && c.trailing < 256
    ensures r.Success? ==> r.value.coder.leading < 256 && r.value.coder.trailing < 256
    ensures r.Success? ==> |r.value.values| == n
    decreases n
  {
    if n == 0 then Success(Run([], c, pos))
    else
      var step :- DecodeStep(build, width, c, s, pos);
      var rest :- DecodeFrom(build, width, step.coder, s, step.pos, n - 1);
      Success(rest.(values := [step.value] + rest.values))
  }

  function Decode(build: Build, width: nat, s: seq<bool>, n: nat): (r: Result<Run, Error>)
    requires width < 256
  {
    DecodeFrom(build, width, START, s, 0, n)
  }
}
