/**
  What a tablet holds, as values: time stamps, one typed column per measurement, and one
  null flag per column and row.  Every run of insertions builds the same list of rows.
 */
module Sheets {
  import opened Bits
  import opened Types
  import opened Wrappers
  import opened Integers

  /** A value of any type; floating-point numbers are their bit patterns. */
  datatype TsValue =
    | Boolean(b: bool) | Int32(i: i32) | Int64(l: i64) | Float(f: u32) | Double(d: u64)
    | Text(s: string) | String(s: string) | Blob(bytes: seq<u8>) | Null

  type Cell = Option<TsValue>

  // ----- Columns -----

  datatype ValueMatrix =
    | Booleans(bs: seq<bool>) | Int32s(ints: seq<i32>) | Int64s(ls: seq<i64>)
    | Floats(fs: seq<u32>) | Doubles(ds: seq<u64>) | Texts(ss: seq<string>)
  {
    function Len(): nat {
      match this
      case Booleans(v) => |v|
      case Int32s(v) => |v|
      case Int64s(v) => |v|
      case Floats(v) => |v|
      case Doubles(v) => |v|
      case Texts(v) => |v|
    }

    function At(r: nat): TsValue
      requires r < Len()
    {
      match this
      case Booleans(v) => TsValue.Boolean(v[r])
      case Int32s(v) => TsValue.Int32(v[r])
      case Int64s(v) => TsValue.Int64(v[r])
      case Floats(v) => TsValue.Float(v[r])
      case Doubles(v) => TsValue.Double(v[r])
      case Texts(v) => TsValue.Text(v[r])
    }

    predicate SameKind(other: ValueMatrix) {
      && (Booleans? <==> other.Booleans?) && (Int32s? <==> other.Int32s?)
      && (Int64s? <==> other.Int64s?) && (Floats? <==> other.Floats?)
      && (Doubles? <==> other.Doubles?) && (Texts? <==> other.Texts?)
    }

    predicate Accepts(cell: Cell) {
      match cell
      case None => true
      case Some(Boolean(_)) => Booleans?
      case Some(Int32(_)) => Int32s?
      case Some(Int64(_)) => Int64s?
      case Some(Float(_)) => Floats?
      case Some(Double(_)) => Doubles?
      case Some(Text(_)) => Texts?
      case Some(String(_)) => Texts?
      case Some(_) => false
    }

    /** Appends a value; a null takes up a place with a default value. */
    function Add(cell: Cell): (r: ValueMatrix)
      requires Accepts(cell)
      ensures SameKind(r) && r.Len() == Len() + 1
    {
      match this
      case Booleans(v) => Booleans(v + [if cell.None? then false else cell.value.b])
      case Int32s(v) => Int32s(v + [if cell.None? then 0 else cell.value.i])
      case Int64s(v) => Int64s(v + [if cell.None? then 0 else cell.value.l])
      case Floats(v) => Floats(v + [if cell.None? then 0 else cell.value.f])
      case Doubles(v) => Doubles(v + [if cell.None? then 0 else cell.value.d])
      case Texts(v) => Texts(v + [if cell.None? then "" else cell.value.s])
    }

    function Cleared(): (r: ValueMatrix)
      ensures SameKind(r) && r.Len() == 0
    {
      match this
      case Booleans(_) => Booleans([])
      case Int32s(_) => Int32s([])
      case Int64s(_) => Int64s([])
      case Floats(_) => Floats([])
      case Doubles(_) => Doubles([])
      case Texts(_) => Texts([])
    }
  }

  function NewMatrix(dataType: TSDataType): (m: ValueMatrix)
    ensures m.Len() == 0
  {
    match dataType
    case Boolean => Booleans([])
    case Int64 => Int64s([])
    case Timestamp => Int64s([])
    case Float => Floats([])
    case Double => Doubles([])
    case Text => Texts([])
    case String => Texts([])
    case _ => Int32s([])
  }

  /** What is read back for a cell: both kinds of string are text. */
  function Stored(cell: Cell): (r: Cell)
    ensures r.None? <==> cell.None?
    ensures r.Some? ==> r.value == cell.value || (cell.value.String? && r.value == TsValue.Text(cell.value.s))
  {
    if cell.Some? && cell.value.String? then Some(TsValue.Text(cell.value.s)) else cell
  }

  /** Earlier places stay; a value is read back, and a null leaves a zero. */
  lemma AddAt(m: ValueMatrix, cell: Cell, r: nat)
    requires m.Accepts(cell) && r <= m.Len()
    ensures r < m.Len() ==> m.Add(cell).At(r) == m.At(r)
    ensures r == m.Len() && cell.Some? ==> m.Add(cell).At(r) == Stored(cell).value
    ensures r == m.Len() && cell.None? ==> IsZero(m.Add(cell).At(r))
  {
  }

  predicate IsZero(value: TsValue) {
    match value
    case Boolean(b) => !b
    case Int32(i) => i == 0
    case Int64(l) => l == 0
    case Float(f) => f == 0
    case Double(d) => d == 0
    case Text(s) => s == ""
    case _ => false
  }

  // ----- What a column takes -----

  /** A column takes exactly nulls and the values that a column of its kind can give back. */
  lemma AcceptsMeans(m: ValueMatrix, cell: Cell)
    ensures m.Accepts(cell) <==>
      || cell.None?
      || exists n: ValueMatrix, r: nat :: m.SameKind(n) && r < n.Len() && n.At(r) == Stored(cell).value
  {
    if m.Accepts(cell) && cell.Some? {
      AddAt(m, cell, m.Len());
      assert m.SameKind(m.Add(cell));
    }
  }

  /** The values of a declared type; types without a kind of their own hold 32-bit integers. */
  predicate HasType(dataType: TSDataType, value: TsValue) {
    match value
    case Boolean(_) => dataType.Boolean?
    case Int64(_) => dataType.Int64? || dataType.Timestamp?
    case Float(_) => dataType.Float?
    case Double(_) => dataType.Double?
    case Text(_) => dataType.Text? || dataType.String?
    case String(_) => dataType.Text? || dataType.String?
    case Int32(_) =>
      || dataType.Int32? || dataType.Date? || dataType.Vector? || dataType.Unknown?
      || dataType.Blob? || dataType.Null? || dataType.Invalid?
    case Blob(_) => false
    case Null => false
  }

  predicate Typed(dataType: TSDataType, cell: Cell) {
    cell.Some? ==> HasType(dataType, cell.value)
  }

  /** A column of a declared type takes exactly nulls and the values of that type. */
  lemma AcceptsTyped(dataType: TSDataType, m: ValueMatrix, cell: Cell)
    requires NewMatrix(dataType).SameKind(m)
    ensures m.Accepts(cell) <==> Typed(dataType, cell)
  {
  }

  // ----- Sheets -----

  datatype Row = Row(timestamp: i64, cells: seq<Cell>)

  datatype Sheet = Sheet(timestamps: seq<i64>, columns: seq<ValueMatrix>, nulls: seq<seq<bool>>)

  /** Every column has one place per row, and the flags cover `maxRows` rows. */
  ghost predicate WellFormed(s: Sheet, maxRows: nat) {
    && |s.timestamps| <= maxRows
    && |s.nulls| == |s.columns|
    && (forall c :: 0 <= c < |s.columns| ==> s.columns[c].Len() == |s.timestamps|)
    && (forall c :: 0 <= c < |s.nulls| ==> |s.nulls[c]| == maxRows)
  }

  function CellAt(s: Sheet, r: nat, c: nat): Cell
    requires c < |s.columns| && c < |s.nulls| && r < s.columns[c].Len() && r < |s.nulls[c]|
  {
    if s.nulls[c][r] then None else Some(s.columns[c].At(r))
  }

  ghost function RowAt(s: Sheet, maxRows: nat, r: nat): (row: Row)
    requires WellFormed(s, maxRows) && r < |s.timestamps|
  {
    Row(s.timestamps[r], seq(|s.columns|, c requires 0 <= c < |s.columns| => CellAt(s, r, c)))
  }

  ghost function Rows(s: Sheet, maxRows: nat): (rows: seq<Row>)
    requires WellFormed(s, maxRows)
    ensures |rows| == |s.timestamps|
  {
    seq(|s.timestamps|, r requires 0 <= r < |s.timestamps| => RowAt(s, maxRows, r))
  }

  function StoredRow(row: Row): Row {
    Row(row.timestamp, seq(|row.cells|, c requires 0 <= c < |row.cells| => Stored(row.cells[c])))
  }

  predicate AcceptsRow(s: Sheet, row: Row) {
    && |row.cells| == |s.columns|
    && forall c :: 0 <= c < |s.columns| ==> s.columns[c].Accepts(row.cells[c])
  }

  /** A sheet with one more row. */
  ghost function RowAdded(s: Sheet, maxRows: nat, row: Row): (r: Sheet)
    requires WellFormed(s, maxRows) && |s.timestamps| < maxRows && AcceptsRow(s, row)
    ensures WellFormed(r, maxRows) && |r.timestamps| == |s.timestamps| + 1
  {
    Sheet(s.timestamps + [row.timestamp],
          seq(|s.columns|, c requires 0 <= c < |s.columns| => s.columns[c].Add(row.cells[c])),
          seq(|s.nulls|, c requires 0 <= c < |s.nulls| => s.nulls[c][|s.timestamps| := row.cells[c].None?]))
  }

  /** Earlier rows stay, and the new row reads back as it was added. */
  lemma RowAddedRows(s: Sheet, maxRows: nat, row: Row)
    requires WellFormed(s, maxRows) && |s.timestamps| < maxRows && AcceptsRow(s, row)
    ensures Rows(RowAdded(s, maxRows, row), maxRows) == Rows(s, maxRows) + [StoredRow(row)]
  {
    var t, n := RowAdded(s, maxRows, row), |s.timestamps|;
    forall r | 0 <= r <= n
      ensures RowAt(t, maxRows, r) == if r < n then RowAt(s, maxRows, r) else StoredRow(row)
    {
      RowAddedAt(s, maxRows, row, r);
    }
  }

  lemma RowAddedAt(s: Sheet, maxRows: nat, row: Row, r: nat)
    requires WellFormed(s, maxRows) && r <= |s.timestamps| < maxRows && AcceptsRow(s, row)
    ensures RowAt(RowAdded(s, maxRows, row), maxRows, r)
         == if r < |s.timestamps| then RowAt(s, maxRows, r) else StoredRow(row)
  {
    var t, n := RowAdded(s, maxRows, row), |s.timestamps|;
    forall c | 0 <= c < |s.columns|
      ensures CellAt(t, r, c) == if r < n then CellAt(s, r, c) else Stored(row.cells[c])
    {
      AddAt(s.columns[c], row.cells[c], r);
    }
  }

  // ----- Bulk insertion -----

  predicate AcceptsAll(m: ValueMatrix, cells: seq<Cell>) {
    forall i :: 0 <= i < |cells| ==> m.Accepts(cells[i])
  }

  function Filled(m: ValueMatrix, cells: seq<Cell>): (r: ValueMatrix)
    requires AcceptsAll(m, cells)
    ensures m.SameKind(r) && r.Len() == m.Len() + |cells|
    decreases |cells|
  {
    if |cells| == 0 then m
    else
      var r := Filled(m, cells[..|cells| - 1]);
      assert m.Accepts(cells[|cells| - 1]);
      r.Add(cells[|cells| - 1])
  }

  /** The flags with the entries from `start` on overwritten. */
  function Flagged(flags: seq<bool>, start: nat, cells: seq<Cell>): (r: seq<bool>)
    requires start + |cells| <= |flags|
    ensures |r| == |flags|
    decreases |cells|
  {
    if |cells| == 0 then flags
    else
      var n := |cells| - 1;
      Flagged(flags, start, cells[..n])[start + n := cells[n].None?]
  }

  predicate AcceptsColumns(s: Sheet, n: nat, columns: seq<seq<Cell>>) {
    && |columns| == |s.columns|
    && forall c :: 0 <= c < |columns| ==> |columns[c]| == n && AcceptsAll(s.columns[c], columns[c])
  }

  /** A sheet with whole columns appended. */
  ghost function BulkAdded(s: Sheet, maxRows: nat, timestamps: seq<i64>, columns: seq<seq<Cell>>): (r: Sheet)
    requires WellFormed(s, maxRows) && |s.timestamps| + |timestamps| <= maxRows
    requires AcceptsColumns(s, |timestamps|, columns)
    ensures WellFormed(r, maxRows) && |r.columns| == |s.columns|
    ensures |r.timestamps| == |s.timestamps| + |timestamps|
  {
    Sheet(s.timestamps + timestamps,
          seq(|s.columns|, c requires 0 <= c < |s.columns| => Filled(s.columns[c], columns[c])),
          seq(|s.nulls|, c requires 0 <= c < |s.nulls| => Flagged(s.nulls[c], |s.timestamps|, columns[c])))
  }

  /** The rows that whole columns stand for. */
  function Transposed(timestamps: seq<i64>, columns: seq<seq<Cell>>): (rows: seq<Row>)
    requires forall c :: 0 <= c < |columns| ==> |columns[c]| == |timestamps|
    ensures |rows| == |timestamps|
  {
    seq(|timestamps|, r requires 0 <= r < |timestamps| =>
      Row(timestamps[r], seq(|columns|, c requires 0 <= c < |columns| => columns[c][r])))
  }

  ghost predicate CanAddRows(s: Sheet, maxRows: nat, rows: seq<Row>) {
    && WellFormed(s, maxRows) && |s.timestamps| + |rows| <= maxRows
    && forall i :: 0 <= i < |rows| ==> AcceptsRow(s, rows[i])
  }

  /** One row after the other. */
  ghost function RowsAdded(s: Sheet, maxRows: nat, rows: seq<Row>): (r: Sheet)
    requires CanAddRows(s, maxRows, rows)
    ensures WellFormed(r, maxRows) && |r.timestamps| == |s.timestamps| + |rows|
    ensures |r.columns| == |s.columns|
    ensures forall c :: 0 <= c < |s.columns| ==> s.columns[c].SameKind(r.columns[c])
    decreases |rows|
  {
    if |rows| == 0 then s
    else
      var n := |rows| - 1;
      assert forall i :: 0 <= i < n ==> rows[..n][i] == rows[i];
      var r := RowsAdded(s, maxRows, rows[..n]);
      assert AcceptsRow(r, rows[n]) by {
        assert AcceptsRow(s, rows[n]);
      }
      RowAdded(r, maxRows, rows[n])
  }

  lemma {:induction false} RowsAddedRows(s: Sheet, maxRows: nat, rows: seq<Row>)
    requires CanAddRows(s, maxRows, rows)
    ensures Rows(RowsAdded(s, maxRows, rows), maxRows)
         == Rows(s, maxRows) + seq(|rows|, i requires 0 <= i < |rows| => StoredRow(rows[i]))
    decreases |rows|
  {
    hide Rows, RowAdded, StoredRow;
    if |rows| > 0 {
      var n := |rows| - 1;
      assert forall i :: 0 <= i < n ==> rows[..n][i] == rows[i];
      RowsAddedRows(s, maxRows, rows[..n]);
      var r := RowsAdded(s, maxRows, rows[..n]);
      assert AcceptsRow(s, rows[n]);
      RowAddedRows(r, maxRows, rows[n]);
      assert seq(|rows|, i requires 0 <= i < |rows| => StoredRow(rows[i]))
          == seq(n, i requires 0 <= i < n => StoredRow(rows[..n][i])) + [StoredRow(rows[n])];
    }
  }

  /** Appending columns in bulk is the same as adding their rows one by one. */
  lemma {:induction false} BulkIsRows(s: Sheet, maxRows: nat, timestamps: seq<i64>, columns: seq<seq<Cell>>)
    requires WellFormed(s, maxRows) && |s.timestamps| + |timestamps| <= maxRows
    requires AcceptsColumns(s, |timestamps|, columns)
    ensures CanAddRows(s, maxRows, Transposed(timestamps, columns))
    ensures BulkAdded(s, maxRows, timestamps, columns)
         == RowsAdded(s, maxRows, Transposed(timestamps, columns))
    decreases |timestamps|
  {
    hide RowAdded;
    var rows := Transposed(timestamps, columns);
    TransposedFits(s, maxRows, timestamps, columns);
    if |timestamps| > 0 {
      var n := |timestamps| - 1;
      var init := Shortened(columns, n);
      BulkIsRows(s, maxRows, timestamps[..n], init);
      TransposedPrefix(timestamps, columns, n);
      BulkStep(s, maxRows, timestamps, columns);
    } else {
      assert BulkAdded(s, maxRows, timestamps, columns) == s;
    }
  }

  /** The first `n` cells of every column. */
  ghost function Shortened(columns: seq<seq<Cell>>, n: nat): (r: seq<seq<Cell>>)
    requires forall c :: 0 <= c < |columns| ==> n <= |columns[c]|
    ensures |r| == |columns| && forall c :: 0 <= c < |r| ==> r[c] == columns[c][..n]
  {
    seq(|columns|, c requires 0 <= c < |columns| => columns[c][..n])
  }

  lemma TransposedFits(s: Sheet, maxRows: nat, timestamps: seq<i64>, columns: seq<seq<Cell>>)
    requires WellFormed(s, maxRows) && |s.timestamps| + |timestamps| <= maxRows
    requires AcceptsColumns(s, |timestamps|, columns)
    ensures CanAddRows(s, maxRows, Transposed(timestamps, columns))
  {
  }

  lemma TransposedPrefix(timestamps: seq<i64>, columns: seq<seq<Cell>>, n: nat)
    requires n <= |timestamps|
    requires forall c :: 0 <= c < |columns| ==> |columns[c]| == |timestamps|
    ensures Transposed(timestamps[..n], Shortened(columns, n)) == Transposed(timestamps, columns)[..n]
  {
    var a, b := Transposed(timestamps[..n], Shortened(columns, n)), Transposed(timestamps, columns)[..n];
    forall r | 0 <= r < n
      ensures a[r] == b[r]
    {
      assert a[r].cells == b[r].cells;
    }
  }

  lemma BulkStep(s: Sheet, maxRows: nat, timestamps: seq<i64>, columns: seq<seq<Cell>>)
    requires WellFormed(s, maxRows) && 0 < |timestamps| && |s.timestamps| + |timestamps| <= maxRows
    requires AcceptsColumns(s, |timestamps|, columns)
    ensures var n := |timestamps| - 1;
            var init := Shortened(columns, n);
            var row := Transposed(timestamps, columns)[n];
            && AcceptsColumns(s, n, init)
            && AcceptsRow(BulkAdded(s, maxRows, timestamps[..n], init), row)
            && BulkAdded(s, maxRows, timestamps, columns)
               == RowAdded(BulkAdded(s, maxRows, timestamps[..n], init), maxRows, row)
  {
    var n := |timestamps| - 1;
    var init := Shortened(columns, n);
    assert timestamps == timestamps[..n] + [timestamps[n]];
    assert s.timestamps + timestamps == (s.timestamps + timestamps[..n]) + [timestamps[n]];
  }
}
