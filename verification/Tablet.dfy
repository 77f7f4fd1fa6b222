/** The tablet as the program runs it: columns and bitmaps filled in place, row by row or in bulk. */
module Tablets {
  import opened Types
  import opened Wrappers
  import opened Integers
  import opened BitMaps
  import opened Sheets
  import opened Simple8bCodec

  datatype TabletError =
    | Full | WrongCount | NotIncreasing | TypeMismatch | TooManyRows | WrongLength

  predicate Increasing(timestamps: seq<i64>) {
    forall i, j :: 0 <= i < j < |timestamps| ==> timestamps[i] < timestamps[j]
  }

  /** What `AddRow` answers. */
  ghost function RowVerdict(s: Sheet, maxRows: nat, isAligned: bool, row: Row): Result<(), TabletError>
  {
    if |s.timestamps| >= maxRows then Failure(Full)
    else if |row.cells| != |s.columns| then Failure(WrongCount)
    else if isAligned && s.timestamps != [] && row.timestamp <= s.timestamps[|s.timestamps| - 1] then
      Failure(NotIncreasing)
    else if !AcceptsRow(s, row) then Failure(TypeMismatch)
    else Success(())
  }

  /** What `AddRowsBulk` answers; nothing is checked if there are no rows. */
  ghost function BulkVerdict(s: Sheet, maxRows: nat, n: nat, columns: seq<seq<Cell>>): Result<(), TabletError>
  {
    if n == 0 then Success(())
    else if |s.timestamps| + n > maxRows then Failure(TooManyRows)
    else if |columns| != |s.columns| then Failure(WrongCount)
    else if exists c :: 0 <= c < |columns| && |columns[c]| != n then Failure(WrongLength)
    else if !AcceptsColumns(s, n, columns) then Failure(TypeMismatch)
    else Success(())
  }

  // ----- In terms of the declared types -----

  /** The columns of 64-bit integers are those that a delta-of-delta decoder reads. */
  lemma Int64Columns(dataType: TSDataType)
    ensures NewMatrix(dataType).Int64s? <==> IsInt64Type(dataType)
    ensures IsInt64Type(dataType) <==> dataType.Int64? || dataType.Timestamp?
  {
  }

  predicate TypedRow(types: seq<TSDataType>, cells: seq<Cell>) {
    |cells| == |types| && forall c :: 0 <= c < |cells| ==> Typed(types[c], cells[c])
  }

  predicate TypedColumns(types: seq<TSDataType>, n: nat, columns: seq<seq<Cell>>) {
    && |columns| == |types|
    && forall c :: 0 <= c < |columns| ==>
      |columns[c]| == n && forall i :: 0 <= i < n ==> Typed(types[c], columns[c][i])
  }

  ghost predicate OfTypes(s: Sheet, types: seq<TSDataType>) {
    |s.columns| == |types| && forall c :: 0 <= c < |types| ==> NewMatrix(types[c]).SameKind(s.columns[c])
  }

  /** A row is accepted exactly if every cell is null or of its column's declared type. */
  lemma TypedRowAccepted(types: seq<TSDataType>, s: Sheet, row: Row)
    requires OfTypes(s, types)
    ensures AcceptsRow(s, row) <==> TypedRow(types, row.cells)
  {
    hide Typed;
    if |row.cells| == |types| {
      forall c | 0 <= c < |types|
        ensures s.columns[c].Accepts(row.cells[c]) <==> Typed(types[c], row.cells[c])
      {
        AcceptsTyped(types[c], s.columns[c], row.cells[c]);
      }
    }
  }

  lemma TypedColumnsAccepted(types: seq<TSDataType>, s: Sheet, n: nat, columns: seq<seq<Cell>>)
    requires OfTypes(s, types)
    ensures AcceptsColumns(s, n, columns) <==> TypedColumns(types, n, columns)
  {
    hide Typed;
    if |columns| == |types| {
      forall c, i | 0 <= c < |types| && 0 <= i < |columns[c]|
        ensures s.columns[c].Accepts(columns[c][i]) <==> Typed(types[c], columns[c][i])
      {
        AcceptsTyped(types[c], s.columns[c], columns[c][i]);
      }
    }
  }

  /** A row of nulls is of every type. */
  lemma NullsTyped(types: seq<TSDataType>)
    ensures TypedRow(types, seq(|types|, c => None))
  {
  }

  /** One more cell at the end of a column. */
  ghost function CellAdded(s: Sheet, col: nat, row: nat, cell: Cell): Sheet
    requires col < |s.columns| && col < |s.nulls| && row < |s.nulls[col]| && s.columns[col].Accepts(cell)
  {
    Sheet(s.timestamps, s.columns[col := s.columns[col].Add(cell)],
          s.nulls[col := s.nulls[col][row := cell.None?]])
  }

  ghost predicate CanExtend(s: Sheet, maxRows: nat, columns: seq<seq<Cell>>) {
    && WellFormed(s, maxRows) && |columns| == |s.columns|
    && forall c :: 0 <= c < |columns| ==>
      |s.timestamps| + |columns[c]| <= maxRows && AcceptsAll(s.columns[c], columns[c])
  }

  /** In the middle of an insertion the columns have grown by different lengths. */
  ghost function Ragged(s: Sheet, maxRows: nat, timestamps: seq<i64>, columns: seq<seq<Cell>>): (r: Sheet)
    requires CanExtend(s, maxRows, columns)
    ensures |r.columns| == |r.nulls| == |s.columns|
    ensures forall c :: 0 <= c < |s.columns| ==>
      |r.nulls[c]| == maxRows && s.columns[c].SameKind(r.columns[c])
  {
    Sheet(s.timestamps + timestamps,
          seq(|s.columns|, c requires 0 <= c < |s.columns| => Sheets.Filled(s.columns[c], columns[c])),
          seq(|s.nulls|, c requires 0 <= c < |s.nulls| => Flagged(s.nulls[c], |s.timestamps|, columns[c])))
  }

  lemma RaggedStep(s: Sheet, maxRows: nat, timestamps: seq<i64>, columns: seq<seq<Cell>>, col: nat, cell: Cell)
    requires CanExtend(s, maxRows, columns) && col < |columns|
    requires |s.timestamps| + |columns[col]| < maxRows && s.columns[col].Accepts(cell)
    ensures Ragged(s, maxRows, timestamps, columns).columns[col].Accepts(cell)
    ensures CanExtend(s, maxRows, columns[col := columns[col] + [cell]])
    ensures CellAdded(Ragged(s, maxRows, timestamps, columns), col, |s.timestamps| + |columns[col]|, cell)
         == Ragged(s, maxRows, timestamps, columns[col := columns[col] + [cell]])
  {
    var more := columns[col] + [cell];
    assert more[..|more| - 1] == columns[col];
  }

  /** The columns of a row whose first `n` cells are added. */
  ghost function Singles(cells: seq<Cell>, n: nat): (columns: seq<seq<Cell>>)
    requires n <= |cells|
    ensures |columns| == |cells|
  {
    seq(|cells|, c requires 0 <= c < |cells| => if c < n then [cells[c]] else [])
  }

  lemma RaggedStart(s: Sheet, maxRows: nat, timestamps: seq<i64>, columns: seq<seq<Cell>>)
    requires WellFormed(s, maxRows) && |columns| == |s.columns|
    requires forall c :: 0 <= c < |columns| ==> columns[c] == []
    ensures CanExtend(s, maxRows, columns)
    ensures Ragged(s, maxRows, timestamps, columns) == Sheet(s.timestamps + timestamps, s.columns, s.nulls)
  {
  }

  lemma RaggedRow(s: Sheet, maxRows: nat, row: Row)
    requires WellFormed(s, maxRows) && |s.timestamps| < maxRows && |row.cells| == |s.columns|
    requires CanExtend(s, maxRows, Singles(row.cells, |row.cells|))
    ensures AcceptsRow(s, row)
    ensures Ragged(s, maxRows, [row.timestamp], Singles(row.cells, |row.cells|)) == RowAdded(s, maxRows, row)
  {
    forall c | 0 <= c < |s.columns|
      ensures s.columns[c].Accepts(row.cells[c])
      ensures Sheets.Filled(s.columns[c], [row.cells[c]]) == s.columns[c].Add(row.cells[c])
      ensures Flagged(s.nulls[c], |s.timestamps|, [row.cells[c]])
           == s.nulls[c][|s.timestamps| := row.cells[c].None?]
    {
      assert AcceptsAll(s.columns[c], Singles(row.cells, |row.cells|)[c]) && [row.cells[c]][0] == row.cells[c];
      Single(s.columns[c], s.nulls[c], |s.timestamps|, row.cells[c]);
    }
  }

  lemma Single(m: ValueMatrix, flags: seq<bool>, start: nat, cell: Cell)
    requires m.Accepts(cell) && start < |flags|
    ensures Sheets.Filled(m, [cell]) == m.Add(cell)
    ensures Flagged(flags, start, [cell]) == flags[start := cell.None?]
  {
    assert [cell][..0] == [];
  }

  /** An empty sheet with columns for the given types. */
  ghost function Blank(types: seq<TSDataType>, maxRows: nat): (s: Sheet)
    ensures WellFormed(s, maxRows) && |s.columns| == |types| && s.timestamps == []
  {
    Sheet([], seq(|types|, c requires 0 <= c < |types| => NewMatrix(types[c])),
          seq(|types|, c => seq(maxRows, r => false)))
  }

  ghost function BytesOf(maps: seq<BitMap>): set<object> {
    set c | 0 <= c < |maps| :: maps[c].bits
  }

  ghost function Flags(maps: seq<BitMap>): (flags: seq<seq<bool>>)
    requires forall c :: 0 <= c < |maps| ==> maps[c].bits in BytesOf(maps) && maps[c].Valid()
    reads BytesOf(maps)
    ensures |flags| == |maps| && forall c :: 0 <= c < |maps| ==> flags[c] == maps[c].Nulls()
  {
    if |maps| == 0 then []
    else
      assert forall c :: 0 <= c < |maps| ==> maps[c].bits in BytesOf(maps);
      Flags(maps[..|maps| - 1]) + [maps[|maps| - 1].Nulls()]
  }

  class Tablet {
    const types: seq<TSDataType>
    const maxRows: nat
    const isAligned: bool
    var timestamps: seq<i64>
    var values: seq<ValueMatrix>
    var bitmaps: seq<BitMap>

    ghost function Buffers(): set<object>
      reads this
    {
      BytesOf(bitmaps)
    }

    /** One bitmap per column, for `maxRows` rows each, no two sharing their bytes. */
    ghost predicate BitmapsOk()
      reads this, Buffers()
    {
      && |bitmaps| == |values| == |types|
      && (forall c :: 0 <= c < |bitmaps| ==> bitmaps[c].Valid() && bitmaps[c].size == maxRows)
      && (forall c, d :: 0 <= c < d < |bitmaps| ==> bitmaps[c].bits != bitmaps[d].bits)
    }

    ghost function Contents(): Sheet
      reads this, Buffers()
      requires BitmapsOk()
    {
      Sheet(timestamps, values, Flags(bitmaps))
    }

    ghost predicate Valid()
      reads this, Buffers()
    {
      && BitmapsOk()
      && WellFormed(Contents(), maxRows)
      && forall c :: 0 <= c < |types| ==> NewMatrix(types[c]).SameKind(values[c])
    }

    constructor (types: seq<TSDataType>, maxRows: nat, isAligned: bool)
      ensures Valid() && fresh(Buffers())
      ensures this.types == types && this.maxRows == maxRows && this.isAligned == isAligned
      ensures Contents() == Blank(types, maxRows)
    {
      this.types, this.maxRows, this.isAligned := types, maxRows, isAligned;
      timestamps := [];
      values := seq(|types|, c requires 0 <= c < |types| => NewMatrix(types[c]));
      bitmaps := [];
      new;
      bitmaps := NewBitmaps(|types|, maxRows);
    }

    static method NewBitmaps(n: nat, size: nat) returns (maps: seq<BitMap>)
      ensures |maps| == n
      ensures forall c :: 0 <= c < n ==> maps[c].Valid() && maps[c].size == size && fresh(maps[c].bits)
      ensures forall c, d :: 0 <= c < d < n ==> maps[c].bits != maps[d].bits
      ensures forall c :: 0 <= c < n ==> maps[c].Nulls() == seq(size, i => false)
    {
      maps := [];
      while |maps| < n
        invariant |maps| <= n
        invariant forall c :: 0 <= c < |maps| ==>
          maps[c].Valid() && maps[c].size == size && fresh(maps[c].bits) && allocated(maps[c].bits)
        invariant forall c, d :: 0 <= c < d < |maps| ==> maps[c].bits != maps[d].bits
        invariant forall c :: 0 <= c < |maps| ==> maps[c].Nulls() == seq(size, i => false)
      {
        var map1 := new BitMap(size);
        maps := maps + [map1];
      }
    }

    /** One cell: its null flag, and its value or a default. */
    method AddCell(col: nat, row: nat, cell: Cell) returns (ok: bool)
      requires BitmapsOk() && col < |values| && row < maxRows
      modifies `values, bitmaps[col].bits
      ensures BitmapsOk()
      ensures ok == old(values[col]).Accepts(cell)
      ensures ok ==> Contents() == CellAdded(old(Contents()), col, row, cell)
    {
      ghost var before := Contents();
      bitmaps[col].Set(row, cell.None?);
      ok := values[col].Accepts(cell);
      if ok {
        values := values[col := values[col].Add(cell)];
      }
    }

    /** A whole row, or the first check that fails. */
    method AddRow(timestamp: i64, cells: seq<Cell>) returns (r: Result<(), TabletError>)
      requires Valid()
      modifies `timestamps, `values, Buffers()
      ensures r == old(RowVerdict(Contents(), maxRows, isAligned, Row(timestamp, cells)))
      ensures r.Success? <==>
        && old(|timestamps|) < maxRows && TypedRow(types, cells)
        && (isAligned && old(timestamps) != [] ==> old(timestamps[|timestamps| - 1]) < timestamp)
      ensures r == Failure(Full) <==> old(|timestamps|) >= maxRows
      ensures r == Failure(WrongCount) <==> old(|timestamps|) < maxRows && |cells| != |types|
      ensures r == Failure(NotIncreasing) <==>
        && old(|timestamps|) < maxRows && |cells| == |types|
        && isAligned && old(timestamps) != [] && timestamp <= old(timestamps[|timestamps| - 1])
      ensures r.Success? ==> Valid() && Contents() == old(RowAdded(Contents(), maxRows, Row(timestamp, cells)))
      ensures r.Failure? && !r.error.TypeMismatch? ==> Valid() && Contents() == old(Contents())
    {
      TypedRowAccepted(types, Contents(), Row(timestamp, cells));
      hide RowAdded, Flags, AcceptsRow, TypedRow;
      if |timestamps| >= maxRows {
        return Failure(Full);
      }
      if |cells| != |types| {
        return Failure(WrongCount);
      }
      if isAligned {
        if |timestamps| > 0 && timestamp <= timestamps[|timestamps| - 1] {
          return Failure(NotIncreasing);
        }
      }
      var ok := FillRow(timestamp, cells);
      if !ok {
        return Failure(TypeMismatch);
      }
      r := Success(());
    }

    /** The loop of `AddRow`, which the source has inline. */
    method FillRow(timestamp: i64, cells: seq<Cell>) returns (ok: bool)
      requires Valid() && |timestamps| < maxRows && |cells| == |values|
      modifies `timestamps, `values, Buffers()
      ensures ok == old(AcceptsRow(Contents(), Row(timestamp, cells)))
      ensures ok ==> Valid() && Contents() == old(RowAdded(Contents(), maxRows, Row(timestamp, cells)))
    {
      hide Ragged, CanExtend, WellFormed, Flags, RowAdded, Singles, CellAdded;
      ghost var before, row := Contents(), Row(timestamp, cells);
      var rowIdx := |timestamps|;
      timestamps := timestamps + [timestamp];
      var col := 0;
      FirstSingles(before, maxRows, row);
      while col < |cells|
        invariant 0 <= col <= |cells| && BitmapsOk()
        invariant CanExtend(before, maxRows, Singles(cells, col))
        invariant Contents() == Ragged(before, maxRows, [timestamp], Singles(cells, col))
      {
        NextSingles(before, maxRows, row, col);
        ok := AddCell(col, rowIdx, cells[col]);
        if !ok {
          return;
        }
        col := col + 1;
      }
      RaggedRow(before, maxRows, row);
      ok := true;
    }

    /** One column from `startRow` on. */
    method AddColumnBulk(col: nat, cells: seq<Cell>, startRow: nat) returns (ok: bool)
      requires BitmapsOk() && col < |values| && startRow + |cells| <= maxRows
      modifies `values, bitmaps[col].bits
      ensures BitmapsOk()
      ensures ok == AcceptsAll(old(values[col]), cells)
      ensures ok ==> Contents() == ColumnAdded(old(Contents()), col, startRow, cells)
    {
      hide Flags, Sheets.Filled, Flagged, CellAdded, ColumnAdded;
      ghost var before := Contents();
      var i := 0;
      NothingAdded(before, col, startRow);
      assert cells[..0] == [];
      while i < |cells|
        invariant 0 <= i <= |cells| && BitmapsOk()
        invariant AcceptsAll(before.columns[col], cells[..i])
        invariant Contents() == ColumnAdded(before, col, startRow, cells[..i])
      {
        ColumnStep(before, col, startRow, cells[..i], cells[i]);
        assert cells[..i + 1] == cells[..i] + [cells[i]];
        ok := AddCell(col, startRow + i, cells[i]);
        if !ok {
          return;
        }
        i := i + 1;
      }
      assert cells[..i] == cells;
      ok := true;
    }

    /** Many rows, given as whole columns; the order of the time stamps is not checked. */
    method AddRowsBulk(newTimestamps: seq<i64>, columns: seq<seq<Cell>>) returns (r: Result<(), TabletError>)
      requires Valid()
      modifies `timestamps, `values, Buffers()
      ensures r == old(BulkVerdict(Contents(), maxRows, |newTimestamps|, columns))
      ensures r.Success? <==>
        || newTimestamps == []
        || (old(|timestamps|) + |newTimestamps| <= maxRows && TypedColumns(types, |newTimestamps|, columns))
      ensures r == Failure(TooManyRows) <==>
        newTimestamps != [] && old(|timestamps|) + |newTimestamps| > maxRows
      ensures r == Failure(WrongCount) <==>
        newTimestamps != [] && old(|timestamps|) + |newTimestamps| <= maxRows && |columns| != |types|
      ensures r.Success? && newTimestamps == [] ==> Valid() && Contents() == old(Contents())
      ensures r.Success? && newTimestamps != [] ==>
        Valid() && Contents() == old(BulkAdded(Contents(), maxRows, newTimestamps, columns))
      ensures r.Failure? && !r.error.TypeMismatch? ==> Valid() && Contents() == old(Contents())
    {
      TypedColumnsAccepted(types, Contents(), |newTimestamps|, columns);
      hide BulkAdded, Flags, AcceptsColumns, TypedColumns;
      var numRows := |newTimestamps|;
      if numRows == 0 {
        return Success(());
      }
      if |timestamps| + numRows > maxRows {
        return Failure(TooManyRows);
      }
      if |columns| != |types| {
        return Failure(WrongCount);
      }
      var col := 0;
      while col < |columns|
        invariant 0 <= col <= |columns|
        invariant forall c :: 0 <= c < col ==> |columns[c]| == numRows
      {
        if |columns[col]| != numRows {
          return Failure(WrongLength);
        }
        col := col + 1;
      }
      var ok := FillColumns(newTimestamps, columns);
      if !ok {
        return Failure(TypeMismatch);
      }
      r := Success(());
    }

    /** The last loop of `AddRowsBulk`, which the source has inline. */
    method FillColumns(newTimestamps: seq<i64>, columns: seq<seq<Cell>>) returns (ok: bool)
      requires Valid() && |timestamps| + |newTimestamps| <= maxRows && |columns| == |values|
      requires forall c :: 0 <= c < |columns| ==> |columns[c]| == |newTimestamps|
      modifies `timestamps, `values, Buffers()
      ensures ok == old(AcceptsColumns(Contents(), |newTimestamps|, columns))
      ensures ok ==> Valid() && Contents() == old(BulkAdded(Contents(), maxRows, newTimestamps, columns))
    {
      hide Ragged, CanExtend, WellFormed, Flags, BulkAdded, Wholes, ColumnAdded, AcceptsAll;
      ghost var before := Contents();
      timestamps := timestamps + newTimestamps;
      var startRow := |timestamps| - |newTimestamps|;
      var col := 0;
      FirstWholes(before, maxRows, newTimestamps, columns);
      while col < |columns|
        invariant 0 <= col <= |columns| && BitmapsOk()
        invariant CanExtend(before, maxRows, Wholes(columns, col))
        invariant Contents() == Ragged(before, maxRows, newTimestamps, Wholes(columns, col))
      {
        NextWholes(before, maxRows, newTimestamps, columns, col);
        ok := AddColumnBulk(col, columns[col], startRow);
        if !ok {
          return;
        }
        col := col + 1;
      }
      RaggedBulk(before, maxRows, newTimestamps, columns);
      ok := true;
    }

    /** Empties the tablet, which is then as new; the bitmaps are replaced. */
    method Clear()
      requires Valid()
      modifies this
      ensures Valid() && fresh(Buffers())
      ensures Contents() == Blank(types, maxRows)
    {
      hide Flags;
      ghost var before := values;
      timestamps := [];
      values := seq(|values|, c requires 0 <= c < |values| reads this => values[c].Cleared());
      bitmaps := NewBitmaps(|bitmaps|, maxRows);
      ClearedIsBlank(types, before, values);
    }
  }

  lemma ClearedIsBlank(types: seq<TSDataType>, before: seq<ValueMatrix>, after: seq<ValueMatrix>)
    requires |types| == |before| == |after|
    requires forall c :: 0 <= c < |types| ==> NewMatrix(types[c]).SameKind(before[c])
    requires forall c :: 0 <= c < |types| ==> after[c] == before[c].Cleared()
    ensures after == Blank(types, 0).columns
  {
  }

  lemma FirstSingles(s: Sheet, maxRows: nat, row: Row)
    requires WellFormed(s, maxRows) && |row.cells| == |s.columns|
    ensures CanExtend(s, maxRows, Singles(row.cells, 0))
    ensures Ragged(s, maxRows, [row.timestamp], Singles(row.cells, 0))
         == Sheet(s.timestamps + [row.timestamp], s.columns, s.nulls)
  {
    RaggedStart(s, maxRows, [row.timestamp], Singles(row.cells, 0));
  }

  lemma NextSingles(s: Sheet, maxRows: nat, row: Row, col: nat)
    requires WellFormed(s, maxRows) && |s.timestamps| < maxRows
    requires |row.cells| == |s.columns| && col < |row.cells|
    requires CanExtend(s, maxRows, Singles(row.cells, col))
    ensures var r := Ragged(s, maxRows, [row.timestamp], Singles(row.cells, col));
            && (r.columns[col].Accepts(row.cells[col]) <==> s.columns[col].Accepts(row.cells[col]))
            && (s.columns[col].Accepts(row.cells[col]) ==>
                  && CanExtend(s, maxRows, Singles(row.cells, col + 1))
                  && CellAdded(r, col, |s.timestamps|, row.cells[col])
                     == Ragged(s, maxRows, [row.timestamp], Singles(row.cells, col + 1)))
  {
    hide Ragged, CellAdded;
    var columns := Singles(row.cells, col);
    assert columns[col] + [row.cells[col]] == [row.cells[col]];
    assert Singles(row.cells, col + 1) == columns[col := columns[col] + [row.cells[col]]];
    if s.columns[col].Accepts(row.cells[col]) {
      RaggedStep(s, maxRows, [row.timestamp], columns, col, row.cells[col]);
    }
  }

  ghost function ColumnAdded(s: Sheet, col: nat, start: nat, cells: seq<Cell>): Sheet
    requires col < |s.columns| && col < |s.nulls| && start + |cells| <= |s.nulls[col]|
    requires AcceptsAll(s.columns[col], cells)
  {
    Sheet(s.timestamps, s.columns[col := Sheets.Filled(s.columns[col], cells)],
          s.nulls[col := Flagged(s.nulls[col], start, cells)])
  }

  lemma NothingAdded(s: Sheet, col: nat, start: nat)
    requires col < |s.columns| && col < |s.nulls| && start <= |s.nulls[col]|
    ensures ColumnAdded(s, col, start, []) == s
  {
  }

  lemma ColumnStep(s: Sheet, col: nat, start: nat, cells: seq<Cell>, cell: Cell)
    requires col < |s.columns| && col < |s.nulls| && start + |cells| < |s.nulls[col]|
    requires AcceptsAll(s.columns[col], cells)
    ensures var r := ColumnAdded(s, col, start, cells);
            && (r.columns[col].Accepts(cell) <==> AcceptsAll(s.columns[col], cells + [cell]))
            && (r.columns[col].Accepts(cell) ==>
                  CellAdded(r, col, start + |cells|, cell) == ColumnAdded(s, col, start, cells + [cell]))
  {
    var more := cells + [cell];
    assert more[..|cells|] == cells && more[|cells|] == cell;
  }

  ghost function Wholes(columns: seq<seq<Cell>>, n: nat): (r: seq<seq<Cell>>)
    requires n <= |columns|
    ensures |r| == |columns|
  {
    seq(|columns|, c requires 0 <= c < |columns| => if c < n then columns[c] else [])
  }

  lemma FirstWholes(s: Sheet, maxRows: nat, timestamps: seq<i64>, columns: seq<seq<Cell>>)
    requires WellFormed(s, maxRows) && |columns| == |s.columns|
    ensures CanExtend(s, maxRows, Wholes(columns, 0))
    ensures Ragged(s, maxRows, timestamps, Wholes(columns, 0))
         == Sheet(s.timestamps + timestamps, s.columns, s.nulls)
  {
    RaggedStart(s, maxRows, timestamps, Wholes(columns, 0));
  }

  lemma NextWholes(s: Sheet, maxRows: nat, timestamps: seq<i64>, columns: seq<seq<Cell>>, col: nat)
    requires WellFormed(s, maxRows) && |columns| == |s.columns| && col < |columns|
    requires |s.timestamps| + |columns[col]| <= maxRows
    requires CanExtend(s, maxRows, Wholes(columns, col))
    ensures var r := Ragged(s, maxRows, timestamps, Wholes(columns, col));
            && (AcceptsAll(r.columns[col], columns[col]) <==> AcceptsAll(s.columns[col], columns[col]))
            && (AcceptsAll(s.columns[col], columns[col]) ==>
                  && CanExtend(s, maxRows, Wholes(columns, col + 1))
                  && ColumnAdded(r, col, |s.timestamps|, columns[col])
                     == Ragged(s, maxRows, timestamps, Wholes(columns, col + 1)))
  {
    hide AcceptsAll;
    var before, after := Wholes(columns, col), Wholes(columns, col + 1);
    assert forall c :: 0 <= c < |columns| && c != col ==> after[c] == before[c];
    SameAccepts(s.columns[col], Ragged(s, maxRows, timestamps, before).columns[col], columns[col]);
    if AcceptsAll(s.columns[col], columns[col]) {
      assert CanExtend(s, maxRows, after);
      assert Sheets.Filled(s.columns[col], before[col]) == s.columns[col];
      assert Flagged(s.nulls[col], |s.timestamps|, before[col]) == s.nulls[col];
    }
  }

  lemma SameAccepts(m: ValueMatrix, n: ValueMatrix, cells: seq<Cell>)
    requires m.SameKind(n)
    ensures AcceptsAll(m, cells) <==> AcceptsAll(n, cells)
  {
  }

  lemma RaggedBulk(s: Sheet, maxRows: nat, timestamps: seq<i64>, columns: seq<seq<Cell>>)
    requires WellFormed(s, maxRows) && |s.timestamps| + |timestamps| <= maxRows
    requires |columns| == |s.columns| && forall c :: 0 <= c < |columns| ==> |columns[c]| == |timestamps|
    requires CanExtend(s, maxRows, Wholes(columns, |columns|))
    ensures AcceptsColumns(s, |timestamps|, columns)
    ensures Ragged(s, maxRows, timestamps, Wholes(columns, |columns|))
         == BulkAdded(s, maxRows, timestamps, columns)
  {
    assert Wholes(columns, |columns|) == columns;
  }
}
