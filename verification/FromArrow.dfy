/** From a columnar batch to one tablet per device. */
module FromArrow {
  import opened Bits
  import opened Wrappers
  import opened Types
  import opened Integers
  import opened BitMaps
  import opened Sheets
  import opened Tablets
  import opened Grouping

  // ----- Columns of a batch -----

  /** A buffer of values, some of which are null; the buffer holds something there as well. */
  datatype Array<T> = Array(values: seq<T>, nulls: seq<bool>) {
    predicate Valid() {
      |values| == |nulls|
    }
  }

  type i8 = x: int | -0x80 <= x < 0x80
  type i16 = x: int | -0x8000 <= x < 0x8000
  type u16 = x: nat | x < 0x1_0000

  datatype ArrowColumn =
    | BooleanColumn(bools: Array<bool>)
    | Int8Column(i8s: Array<i8>) | Int16Column(i16s: Array<i16>)
    | Int32Column(i32s: Array<i32>) | Int64Column(i64s: Array<i64>)
    | UInt8Column(u8s: Array<u8>) | UInt16Column(u16s: Array<u16>)
    | UInt32Column(u32s: Array<u32>) | UInt64Column(u64s: Array<u64>)
    | Float32Column(f32s: Array<u32>) | Float64Column(f64s: Array<u64>)
    | Utf8Column(strings: Array<string>)
    | OtherColumn(mapped: Option<TSDataType>)
  {
    function Nulls(): seq<bool> {
      match this
      case BooleanColumn(a) => a.nulls
      case Int8Column(a) => a.nulls
      case Int16Column(a) => a.nulls
      case Int32Column(a) => a.nulls
      case Int64Column(a) => a.nulls
      case UInt8Column(a) => a.nulls
      case UInt16Column(a) => a.nulls
      case UInt32Column(a) => a.nulls
      case UInt64Column(a) => a.nulls
      case Float32Column(a) => a.nulls
      case Float64Column(a) => a.nulls
      case Utf8Column(a) => a.nulls
      case OtherColumn(_) => []
    }

    predicate Valid() {
      match this
      case BooleanColumn(a) => a.Valid()
      case Int8Column(a) => a.Valid()
      case Int16Column(a) => a.Valid()
      case Int32Column(a) => a.Valid()
      case Int64Column(a) => a.Valid()
      case UInt8Column(a) => a.Valid()
      case UInt16Column(a) => a.Valid()
      case UInt32Column(a) => a.Valid()
      case UInt64Column(a) => a.Valid()
      case Float32Column(a) => a.Valid()
      case Float64Column(a) => a.Valid()
      case Utf8Column(a) => a.Valid()
      case OtherColumn(_) => true
    }

    /** The value at `r`, promoted to the type of the tablet; wide unsigned numbers wrap. */
    function Value(r: nat): TsValue
      requires Valid() && r < |Nulls()|
    {
      match this
      case BooleanColumn(a) => TsValue.Boolean(a.values[r])
      case Int8Column(a) => TsValue.Int32(a.values[r])
      case Int16Column(a) => TsValue.Int32(a.values[r])
      case Int32Column(a) => TsValue.Int32(a.values[r])
      case Int64Column(a) => TsValue.Int64(a.values[r])
      case UInt8Column(a) => TsValue.Int32(a.values[r])
      case UInt16Column(a) => TsValue.Int32(a.values[r])
      case UInt32Column(a) => TsValue.Int32(AsI32(a.values[r]))
      case UInt64Column(a) => TsValue.Int64(AsI64(a.values[r]))
      case Float32Column(a) => TsValue.Float(a.values[r])
      case Float64Column(a) => TsValue.Double(a.values[r])
      case Utf8Column(a) => TsValue.Text(a.values[r])
      case OtherColumn(_) => TsValue.Null
    }

    function CellAt(r: nat): Cell
      requires Valid() && r < |Nulls()|
    {
      if Nulls()[r] then None else Some(Value(r))
    }
  }

  /** `x as i32`. */
  function AsI32(x: u32): (r: i32)
    ensures r == x || r == x - 0x1_0000_0000
  {
    if x < 0x8000_0000 then x else x - 0x1_0000_0000
  }

  /** The tablet's data type for a column. */
  function TimbreType(column: ArrowColumn): Option<TSDataType> {
    match column
    case BooleanColumn(_) => Some(TSDataType.Boolean)
    case Int64Column(_) => Some(TSDataType.Int64)
    case UInt64Column(_) => Some(TSDataType.Int64)
    case Float32Column(_) => Some(TSDataType.Float)
    case Float64Column(_) => Some(TSDataType.Double)
    case Utf8Column(_) => Some(TSDataType.Text)
    case OtherColumn(mapped) => mapped
    case _ => Some(TSDataType.Int32)
  }

  /** It is one of the six kinds a tablet has, and the column's values are of it. */
  lemma TimbreTypeFits(column: ArrowColumn, r: nat)
    requires column.Valid() && r < |column.Nulls()|
    ensures TimbreType(column).Some? && Typed(TimbreType(column).value, column.CellAt(r))
    ensures var t := TimbreType(column).value;
            t.Boolean? || t.Int32? || t.Int64? || t.Float? || t.Double? || t.Text?
  {
  }

  // ----- Extraction -----

  predicate InRange(indices: seq<nat>, n: nat) {
    forall i :: 0 <= i < |indices| ==> indices[i] < n
  }

  /** What every extraction path has to produce. */
  ghost predicate Extracted<S, T>(a: Array<S>, indices: seq<nat>, cast: S -> T, default: T,
                                  values: seq<T>, nulls: seq<bool>)
    requires a.Valid() && InRange(indices, |a.nulls|)
  {
    && |values| == |nulls| == |indices|
    && forall i :: 0 <= i < |indices| ==>
      && nulls[i] == a.nulls[indices[i]]
      && values[i] == if nulls[i] then default else cast(a.values[indices[i]])
  }

  function NullCount(nulls: seq<bool>): (n: nat) {
    if |nulls| == 0 then 0
    else NullCount(nulls[..|nulls| - 1]) + if nulls[|nulls| - 1] then 1 else 0
  }

  lemma {:induction false} NoNulls(nulls: seq<bool>)
    ensures NullCount(nulls) == 0 <==> forall i :: 0 <= i < |nulls| ==> !nulls[i]
    decreases |nulls|
  {
    if |nulls| > 0 {
      NoNulls(nulls[..|nulls| - 1]);
    }
  }

  /** The loop with null checks. */
  method ExtractChecked<S, T>(a: Array<S>, indices: seq<nat>, cast: S -> T, default: T)
      returns (values: seq<T>, bitmap: BitMap)
    requires a.Valid() && InRange(indices, |a.nulls|)
    ensures bitmap.Valid() && bitmap.size == |indices| && fresh(bitmap) && fresh(bitmap.bits)
    ensures Extracted(a, indices, cast, default, values, bitmap.Nulls())
  {
    bitmap := new BitMap(|indices|);
    values := [];
    var i := 0;
    while i < |indices|
      invariant 0 <= i <= |indices| && |values| == i
      invariant bitmap.Valid() && bitmap.size == |indices| && fresh(bitmap.bits)
      invariant forall k :: i <= k < |indices| ==> !bitmap.Nulls()[k]
      invariant forall k :: 0 <= k < i ==> bitmap.Nulls()[k] == a.nulls[indices[k]]
      invariant forall k :: 0 <= k < i ==>
        values[k] == if a.nulls[indices[k]] then default else cast(a.values[indices[k]])
    {
      if a.nulls[indices[i]] {
        values := values + [default];
        bitmap.Set(i, true);
      } else {
        values := values + [cast(a.values[indices[i]])];
      }
      i := i + 1;
    }
  }

  /** `len > 1` and every index one more than the one before. */
  predicate IsContiguous(indices: seq<nat>) {
    |indices| > 1 && forall i :: 1 <= i < |indices| ==> indices[i] == indices[i - 1] + 1
  }

  lemma {:induction false} ContiguousAt(indices: seq<nat>, i: nat)
    requires IsContiguous(indices) && i < |indices|
    ensures indices[i] == indices[0] + i
  {
    if i > 0 {
      ContiguousAt(indices, i - 1);
    }
  }

  /**
    The three paths for fixed-width columns: a slice of the buffer, a gather, or the loop with
    null checks; they produce the same column.
   */
  method ExtractDirect<T>(a: Array<T>, indices: seq<nat>, default: T)
      returns (values: seq<T>, bitmap: BitMap)
    requires a.Valid() && InRange(indices, |a.nulls|)
    ensures bitmap.Valid() && bitmap.size == |indices| && fresh(bitmap) && fresh(bitmap.bits)
    ensures Extracted(a, indices, x => x, default, values, bitmap.Nulls())
  {
    NoNulls(a.nulls);
    if IsContiguous(indices) && NullCount(a.nulls) == 0 {
      bitmap := new BitMap(|indices|);
      var start, end := indices[0], indices[|indices| - 1] + 1;
      forall i | 0 <= i < |indices|
        ensures indices[i] == start + i
      {
        ContiguousAt(indices, i);
      }
      values := a.values[start..end];
    } else if NullCount(a.nulls) == 0 {
      bitmap := new BitMap(|indices|);
      values := seq(|indices|, i requires 0 <= i < |indices| && indices[i] < |a.values| => a.values[indices[i]]);
    } else {
      values, bitmap := ExtractChecked(a, indices, x => x, default);
    }
  }

  /** A column of a tablet that holds the given rows of a batch column. */
  ghost predicate Matches(m: ValueMatrix, nulls: seq<bool>, column: ArrowColumn, indices: seq<nat>) {
    && column.Valid() && InRange(indices, |column.Nulls()|)
    && m.Len() == |nulls| == |indices|
    && forall i :: 0 <= i < |indices| ==>
      (if nulls[i] then None else Some(m.At(i))) == column.CellAt(indices[i])
  }

  /**
    What that means for each type: the null flag of the row, and unless it is null the very
    number, boolean or text of the batch; wide unsigned numbers keep their low bits.
   */
  lemma MatchesReads(m: ValueMatrix, nulls: seq<bool>, column: ArrowColumn, indices: seq<nat>, i: nat)
    requires Matches(m, nulls, column, indices) && i < |indices|
    ensures !column.OtherColumn? && indices[i] < |column.Nulls()|
    ensures var j := indices[i];
            match column
            case BooleanColumn(a) => nulls[i] == a.nulls[j] && (!nulls[i] ==> m.Booleans? && m.bs[i] == a.values[j])
            case Int8Column(a) => nulls[i] == a.nulls[j] && (!nulls[i] ==> m.Int32s? && m.ints[i] == a.values[j])
            case Int16Column(a) => nulls[i] == a.nulls[j] && (!nulls[i] ==> m.Int32s? && m.ints[i] == a.values[j])
            case Int32Column(a) => nulls[i] == a.nulls[j] && (!nulls[i] ==> m.Int32s? && m.ints[i] == a.values[j])
            case Int64Column(a) => nulls[i] == a.nulls[j] && (!nulls[i] ==> m.Int64s? && m.ls[i] == a.values[j])
            case UInt8Column(a) => nulls[i] == a.nulls[j] && (!nulls[i] ==> m.Int32s? && m.ints[i] == a.values[j])
            case UInt16Column(a) => nulls[i] == a.nulls[j] && (!nulls[i] ==> m.Int32s? && m.ints[i] == a.values[j])
            case UInt32Column(a) =>
              && nulls[i] == a.nulls[j]
              && (!nulls[i] ==> (m.Int32s? && (m.ints[i] - a.values[j]) % 0x1_0000_0000 == 0))
            case UInt64Column(a) =>
              && nulls[i] == a.nulls[j]
              && (!nulls[i] ==> (m.Int64s? && (m.ls[i] - a.values[j]) % 0x1_0000_0000_0000_0000 == 0))
            case Float32Column(a) => nulls[i] == a.nulls[j] && (!nulls[i] ==> m.Floats? && m.fs[i] == a.values[j])
            case Float64Column(a) => nulls[i] == a.nulls[j] && (!nulls[i] ==> m.Doubles? && m.ds[i] == a.values[j])
            case Utf8Column(a) => nulls[i] == a.nulls[j] && (!nulls[i] ==> m.Texts? && m.ss[i] == a.values[j])
            case OtherColumn(_) => false
  {
    assert (if nulls[i] then None else Some(m.At(i))) == column.CellAt(indices[i]);
  }

  method ExtractColumnDirect(column: ArrowColumn, indices: seq<nat>)
      returns (ok: bool, values: ValueMatrix, bitmap: BitMap)
    requires column.Valid() && (!column.OtherColumn? ==> InRange(indices, |column.Nulls()|))
    ensures ok == !column.OtherColumn?
    ensures bitmap.Valid() && bitmap.size == |indices| && fresh(bitmap) && fresh(bitmap.bits)
    ensures ok ==> TimbreType(column).Some? && NewMatrix(TimbreType(column).value).SameKind(values)
    ensures ok ==> Matches(values, bitmap.Nulls(), column, indices) && values.Len() == |indices|
  {
    ok := true;
    match column
    case BooleanColumn(a) =>
      var vs;
      vs, bitmap := ExtractChecked(a, indices, x => x, false);
      values := Booleans(vs);
    case Int32Column(a) =>
      var vs;
      vs, bitmap := ExtractDirect(a, indices, 0);
      values := Int32s(vs);
    case Int64Column(a) =>
      var vs;
      vs, bitmap := ExtractDirect(a, indices, 0);
      values := Int64s(vs);
    case Float32Column(a) =>
      var vs;
      vs, bitmap := ExtractDirect(a, indices, 0);
      values := Floats(vs);
    case Float64Column(a) =>
      var vs;
      vs, bitmap := ExtractDirect(a, indices, 0);
      values := Doubles(vs);
    case Utf8Column(a) =>
      var vs;
      vs, bitmap := ExtractChecked(a, indices, x => x, "");
      values := Texts(vs);
    case Int8Column(a) =>
      var vs;
      vs, bitmap := ExtractChecked<i8, i32>(a, indices, (x: i8) => x as i32, 0);
      values := Int32s(vs);
    case Int16Column(a) =>
      var vs;
      vs, bitmap := ExtractChecked<i16, i32>(a, indices, (x: i16) => x as i32, 0);
      values := Int32s(vs);
    case UInt8Column(a) =>
      var vs;
      vs, bitmap := ExtractChecked<u8, i32>(a, indices, (x: u8) => x as i32, 0);
      values := Int32s(vs);
    case UInt16Column(a) =>
      var vs;
      vs, bitmap := ExtractChecked<u16, i32>(a, indices, (x: u16) => x as i32, 0);
      values := Int32s(vs);
    case UInt32Column(a) =>
      var vs;
      vs, bitmap := ExtractChecked<u32, i32>(a, indices, AsI32, 0);
      values := Int32s(vs);
    case UInt64Column(a) =>
      var vs;
      vs, bitmap := ExtractChecked<u64, i64>(a, indices, (x: u64) => AsI64(x), 0);
      values := Int64s(vs);
    case OtherColumn(_) =>
      ok, values := false, Booleans([]);
      bitmap := new BitMap(|indices|);
  }

  // ----- Tablets -----

  /** A batch: one device, one time stamp and one cell per column in each row. */
  datatype Batch = Batch(devices: seq<Option<string>>, timestamps: seq<i64>, columns: seq<ArrowColumn>) {
    predicate Valid() {
      && |timestamps| == |devices|
      && forall c :: 0 <= c < |columns| ==>
        columns[c].Valid() && (!columns[c].OtherColumn? ==> |columns[c].Nulls()| == |devices|)
    }

    predicate Supported() {
      forall c :: 0 <= c < |columns| ==> !columns[c].OtherColumn?
    }
  }

  /** The rows of a batch with the given indices, as they should arrive. */
  ghost function BatchRows(batch: Batch, indices: seq<nat>): (rows: seq<Row>)
    requires batch.Valid() && batch.Supported() && InRange(indices, |batch.devices|)
    ensures |rows| == |indices|
  {
    seq(|indices|, i requires 0 <= i < |indices| =>
      Row(batch.timestamps[indices[i]],
          seq(|batch.columns|, c requires 0 <= c < |batch.columns| => batch.columns[c].CellAt(indices[i]))))
  }

  datatype ArrowError = NotImplemented

  /** The schema of the tablet. */
  method BuildSchema(columns: seq<ArrowColumn>) returns (r: Result<seq<TSDataType>, ArrowError>)
    ensures r.Success? <==> forall c :: 0 <= c < |columns| ==> TimbreType(columns[c]).Some?
    ensures r.Success? ==> |r.value| == |columns|
    ensures r.Success? ==> forall c :: 0 <= c < |columns| ==> r.value[c] == TimbreType(columns[c]).value
  {
    var types := [];
    var c := 0;
    while c < |columns|
      invariant 0 <= c <= |columns| && |types| == c
      invariant forall d :: 0 <= d < c ==> TimbreType(columns[d]) == Some(types[d])
    {
      if TimbreType(columns[c]).None? {
        return Failure(NotImplemented);
      }
      types := types + [TimbreType(columns[c]).value];
      c := c + 1;
    }
    r := Success(types);
  }

  lemma SheetHoldsRows(s: Sheet, batch: Batch, indices: seq<nat>)
    requires batch.Valid() && batch.Supported() && InRange(indices, |batch.devices|)
    requires WellFormed(s, |indices|) && |s.columns| == |batch.columns| && |s.timestamps| == |indices|
    requires forall i :: 0 <= i < |indices| ==> s.timestamps[i] == batch.timestamps[indices[i]]
    requires forall c :: 0 <= c < |batch.columns| ==>
      Matches(s.columns[c], s.nulls[c], batch.columns[c], indices)
    ensures Rows(s, |indices|) == BatchRows(batch, indices)
  {
    forall i | 0 <= i < |indices|
      ensures RowAt(s, |indices|, i) == BatchRows(batch, indices)[i]
    {
      assert RowAt(s, |indices|, i).cells == BatchRows(batch, indices)[i].cells;
    }
  }

  /** All columns, extracted one after the other. */
  method ExtractColumns(batch: Batch, indices: seq<nat>)
      returns (ok: bool, values: seq<ValueMatrix>, bitmaps: seq<BitMap>)
    requires batch.Valid() && InRange(indices, |batch.devices|)
    ensures ok == batch.Supported()
    ensures ok ==> |values| == |bitmaps| == |batch.columns|
    ensures ok ==> forall c :: 0 <= c < |bitmaps| ==>
      && bitmaps[c].Valid() && bitmaps[c].size == |indices| && fresh(bitmaps[c].bits)
      && values[c].Len() == |indices| && TimbreType(batch.columns[c]).Some?
      && NewMatrix(TimbreType(batch.columns[c]).value).SameKind(values[c])
      && Matches(values[c], bitmaps[c].Nulls(), batch.columns[c], indices)
    ensures ok ==> forall c, d :: 0 <= c < d < |bitmaps| ==> bitmaps[c].bits != bitmaps[d].bits
  {
    hide Matches, TimbreType, NewMatrix;
    values, bitmaps := [], [];
    var c := 0;
    while c < |batch.columns|
      invariant 0 <= c <= |batch.columns| && |values| == |bitmaps| == c
      invariant forall d :: 0 <= d < c ==>
        && bitmaps[d].Valid() && bitmaps[d].size == |indices|
        && fresh(bitmaps[d].bits) && allocated(bitmaps[d].bits) && values[d].Len() == |indices|
        && !batch.columns[d].OtherColumn? && TimbreType(batch.columns[d]).Some?
        && NewMatrix(TimbreType(batch.columns[d]).value).SameKind(values[d])
        && Matches(values[d], bitmaps[d].Nulls(), batch.columns[d], indices)
      invariant forall d, e :: 0 <= d < e < c ==> bitmaps[d].bits != bitmaps[e].bits
    {
      var found, column, bitmap := ExtractColumnDirect(batch.columns[c], indices);
      if !found {
        return false, values, bitmaps;
      }
      values := values + [column];
      bitmaps := bitmaps + [bitmap];
      c := c + 1;
    }
    ok := true;
  }

  /** A tablet that holds exactly the given rows of the batch. */
  ghost predicate HoldsRows(tablet: Tablet, batch: Batch, indices: seq<nat>)
    requires batch.Valid() && batch.Supported() && InRange(indices, |batch.devices|)
    reads tablet, tablet.Buffers()
  {
    && tablet.Valid() && tablet.maxRows == |indices| && !tablet.isAligned
    && |tablet.types| == |batch.columns|
    && (forall c :: 0 <= c < |tablet.types| ==> TimbreType(batch.columns[c]) == Some(tablet.types[c]))
    && Rows(tablet.Contents(), |indices|) == BatchRows(batch, indices)
  }

  lemma SupportedTypes(batch: Batch)
    ensures batch.Supported() ==>
      forall c :: 0 <= c < |batch.columns| ==> TimbreType(batch.columns[c]).Some?
  {
  }

  /** One device's tablet: exactly its rows, with their time stamps, cells and nulls. */
  method BuildTabletForDevice(batch: Batch, indices: seq<nat>) returns (r: Result<Tablet, ArrowError>)
    requires batch.Valid() && InRange(indices, |batch.devices|)
    ensures r.Success? <==> batch.Supported()
    ensures r.Success? ==> fresh(r.value) && fresh(r.value.Buffers())
    ensures r.Success? ==> HoldsRows(r.value, batch, indices)
    ensures r.Success? ==> forall i :: 0 <= i < |indices| ==>
      r.value.timestamps[i] == batch.timestamps[indices[i]]
    ensures r.Success? ==> forall c :: 0 <= c < |batch.columns| ==>
      Matches(r.value.values[c], r.value.bitmaps[c].Nulls(), batch.columns[c], indices)
  {
    SupportedTypes(batch);
    hide Matches, Rows, BatchRows, Flags, NewMatrix, Blank, TimbreType;
    var types :- BuildSchema(batch.columns);
    var tablet := new Tablet(types, |indices|, false);
    var ok, values, bitmaps := ExtractColumns(batch, indices);
    if !ok {
      return Failure(NotImplemented);
    }
    tablet.timestamps := seq(|indices|, i requires 0 <= i < |indices| && indices[i] < |batch.timestamps| =>
      batch.timestamps[indices[i]]);
    tablet.values := values;
    tablet.bitmaps := bitmaps;
    SheetHoldsRows(tablet.Contents(), batch, indices);
    r := Success(tablet);
  }

  /** The devices of a batch, each once, in the order in which the hash map yields them. */
  predicate IsOrder(devices: seq<Option<string>>, order: seq<string>) {
    && (forall i, j :: 0 <= i < j < |order| ==> order[i] != order[j])
    && (forall i :: 0 <= i < |order| ==> Some(order[i]) in devices)
    && (forall i :: 0 <= i < |devices| && devices[i].Some? ==> devices[i].value in order)
  }

  /** Groups the rows and builds the tablets, to be written out in this order. */
  method BuildTablets(batch: Batch, order: seq<string>) returns (r: Result<seq<Tablet>, ArrowError>)
    requires batch.Valid() && IsOrder(batch.devices, order)
    ensures r.Success? <==> batch.Supported() || order == []
    ensures r.Success? ==> |r.value| == |order|
    ensures r.Success? && batch.Supported() ==> forall i :: 0 <= i < |order| ==>
      HoldsRows(r.value[i], batch, RowsOf(batch.devices, order[i]))
  {
    hide HoldsRows, Grouped, RowsOf, Batch.Valid;
    var groups := GroupRows(batch.devices);
    GroupedDevices(batch.devices, groups);
    var tablets: seq<Tablet> := [];
    while |tablets| < |order|
      invariant |tablets| <= |order| && (tablets != [] ==> batch.Supported())
      invariant forall i :: 0 <= i < |tablets| ==>
        allocated(tablets[i]) && allocated(tablets[i].Buffers())
      invariant forall i :: 0 <= i < |tablets| ==>
        HoldsRows(tablets[i], batch, RowsOf(batch.devices, order[i]))
    {
      var tablet :- BuildTabletForDevice(batch, groups[order[|tablets|]]);
      tablets := tablets + [tablet];
    }
    r := Success(tablets);
  }

  lemma GroupedDevices(devices: seq<Option<string>>, groups: map<string, seq<nat>>)
    requires Grouped(devices, groups)
    ensures forall d :: d in groups <==> Some(d) in devices
    ensures forall d :: d in groups ==> groups[d] == RowsOf(devices, d)
  {
    hide RowsOf;
    forall d: string
      ensures RowsOf(devices, d) != [] <==> Some(d) in devices
    {
      GroupIs(devices, d);
      if RowsOf(devices, d) != [] {
        assert RowsOf(devices, d)[0] in RowsOf(devices, d);
      }
    }
  }

  /** The rows of the tablets, one tablet after the other. */
  ghost function TabletRows(batch: Batch, order: seq<string>): (rows: seq<Row>)
    requires batch.Valid() && batch.Supported()
  {
    if |order| == 0 then []
    else BatchRows(batch, RowsOf(batch.devices, order[0])) + TabletRows(batch, order[1..])
  }

  /**
    Conservation: in whatever order the tablets are written, their rows are the batch's rows
    with a device, each of them once.
   */
  lemma {:induction false} TabletsConserveRows(batch: Batch, order: seq<string>)
    requires batch.Valid() && batch.Supported()
    requires IsOrder(batch.devices, order)
    ensures InRange(Flattened(batch.devices, order), |batch.devices|)
    ensures TabletRows(batch, order) == BatchRows(batch, Flattened(batch.devices, order))
    ensures forall r: nat ::
      multiset(Flattened(batch.devices, order))[r] == if r < |batch.devices| && batch.devices[r].Some? then 1 else 0
  {
    FlattenRows(batch, order);
    forall r: nat
      ensures multiset(Flattened(batch.devices, order))[r]
           == if r < |batch.devices| && batch.devices[r].Some? then 1 else 0
    {
      GroupsPartition(batch.devices, order, r);
    }
  }

  lemma {:induction false} FlattenRows(batch: Batch, order: seq<string>)
    requires batch.Valid() && batch.Supported()
    ensures InRange(Flattened(batch.devices, order), |batch.devices|)
    ensures TabletRows(batch, order) == BatchRows(batch, Flattened(batch.devices, order))
    decreases |order|
  {
    hide RowsOf;
    if |order| > 0 {
      FlattenRows(batch, order[1..]);
      RowsConcat(batch, RowsOf(batch.devices, order[0]), Flattened(batch.devices, order[1..]));
    }
  }

  lemma RowsConcat(batch: Batch, a: seq<nat>, b: seq<nat>)
    requires batch.Valid() && batch.Supported()
    requires InRange(a, |batch.devices|) && InRange(b, |batch.devices|)
    ensures InRange(a + b, |batch.devices|)
    ensures BatchRows(batch, a + b) == BatchRows(batch, a) + BatchRows(batch, b)
  {
    assert forall i :: 0 <= i < |a + b| ==> (a + b)[i] == if i < |a| then a[i] else b[i - |a|];
  }
}
