/** Whole runs of tablet operations: what a tablet holds is the list of rows added since the last clear. */
module TabletRuns {
  import opened Types
  import opened Wrappers
  import opened Integers
  import opened Sheets
  import opened Tablets

  datatype Config = Config(types: seq<TSDataType>, maxRows: nat, isAligned: bool)

  datatype Op =
    | OneRow(row: Row)
    | ManyRows(timestamps: seq<i64>, columns: seq<seq<Cell>>)
    | Clear

  /** The state after an operation that succeeds. */
  ghost function Apply(config: Config, s: Sheet, op: Op): (r: Option<Sheet>)
    requires WellFormed(s, config.maxRows)
    ensures r.Some? ==> WellFormed(r.value, config.maxRows)
  {
    match op
    case OneRow(row) =>
      if RowVerdict(s, config.maxRows, config.isAligned, row).Success?
      then Some(RowAdded(s, config.maxRows, row)) else None
    case ManyRows(timestamps, columns) =>
      if BulkVerdict(s, config.maxRows, |timestamps|, columns).Failure? then None
      else if timestamps == [] then Some(s)
      else Some(BulkAdded(s, config.maxRows, timestamps, columns))
    case Clear => Some(Blank(config.types, config.maxRows))
  }

  ghost function ApplyAll(config: Config, ops: seq<Op>): (r: Option<Sheet>)
    ensures r.Some? ==> WellFormed(r.value, config.maxRows)
    decreases |ops|
  {
    if |ops| == 0 then Some(Blank(config.types, config.maxRows))
    else
      match ApplyAll(config, ops[..|ops| - 1])
      case None => None
      case Some(s) => Apply(config, s, ops[|ops| - 1])
  }

  function StoredRows(rows: seq<Row>): (r: seq<Row>)
    ensures |r| == |rows|
  {
    seq(|rows|, i requires 0 <= i < |rows| => StoredRow(rows[i]))
  }

  predicate Rectangular(timestamps: seq<i64>, columns: seq<seq<Cell>>) {
    forall c :: 0 <= c < |columns| ==> |columns[c]| == |timestamps|
  }

  /** The rows that a run asks for, forgotten at each clear. */
  function RowsSince(ops: seq<Op>): (rows: seq<Row>)
    decreases |ops|
  {
    if |ops| == 0 then []
    else
      var rows := RowsSince(ops[..|ops| - 1]);
      match ops[|ops| - 1]
      case OneRow(row) => rows + [StoredRow(row)]
      case ManyRows(timestamps, columns) =>
        if timestamps != [] && Rectangular(timestamps, columns)
        then rows + StoredRows(Transposed(timestamps, columns)) else rows
      case Clear => []
  }

  /** After every successful run the tablet holds exactly those rows, cell by cell. */
  lemma {:induction false} RunHoldsRows(config: Config, ops: seq<Op>)
    requires ApplyAll(config, ops).Some?
    ensures Rows(ApplyAll(config, ops).value, config.maxRows) == RowsSince(ops)
    decreases |ops|
  {
    hide RowAdded, BulkAdded, Blank, Transposed, StoredRow, CanAddRows, RowsAdded;
    if |ops| > 0 {
      var s := ApplyAll(config, ops[..|ops| - 1]).value;
      RunHoldsRows(config, ops[..|ops| - 1]);
      match ops[|ops| - 1]
      case OneRow(row) =>
        RowAddedRows(s, config.maxRows, row);
      case ManyRows(timestamps, columns) =>
        if timestamps != [] {
          BulkIsRows(s, config.maxRows, timestamps, columns);
          RowsAddedRows(s, config.maxRows, Transposed(timestamps, columns));
        }
      case Clear =>
    }
  }

  /** A clear forgets everything before it. */
  lemma {:induction false} SinceClear(before: seq<Op>, after: seq<Op>)
    ensures RowsSince(before + [Clear] + after) == RowsSince(after)
    decreases |after|
  {
    hide Transposed, StoredRow;
    var ops := before + [Clear] + after;
    if |after| > 0 {
      var init := after[..|after| - 1];
      SinceClear(before, init);
      assert ops[..|ops| - 1] == before + [Clear] + init;
    } else {
      assert ops == before + [Clear];
    }
  }

  /** The run with a tablet of its own: it ends where the model says, or stops where the model does. */
  method RunTablet(config: Config, ops: seq<Op>) returns (ok: bool, tablet: Tablet)
    ensures ok <==> ApplyAll(config, ops).Some?
    ensures ok ==> tablet.Valid() && tablet.maxRows == config.maxRows
    ensures ok ==> ApplyAll(config, ops) == Some(tablet.Contents())
    ensures ok ==> Rows(tablet.Contents(), config.maxRows) == RowsSince(ops)
  {
    hide RowAdded, BulkAdded, Blank, Flags, RowsSince, Rows, RowVerdict, BulkVerdict, TypedRow, TypedColumns;
    tablet := new Tablet(config.types, config.maxRows, config.isAligned);
    ok := true;
    var i := 0;
    while i < |ops|
      invariant 0 <= i <= |ops| && tablet.Valid() && fresh(tablet) && fresh(tablet.Buffers())
      invariant tablet.types == config.types && tablet.maxRows == config.maxRows
      invariant tablet.isAligned == config.isAligned
      invariant ApplyAll(config, ops[..i]) == Some(tablet.Contents())
    {
      assert ops[..i + 1][..i] == ops[..i];
      ok := Perform(tablet, config, ops[i]);
      if !ok {
        RunStops(config, ops, i + 1);
        return;
      }
      i := i + 1;
    }
    assert ops[..i] == ops;
    RunHoldsRows(config, ops);
  }

  /** One operation. */
  method Perform(tablet: Tablet, config: Config, op: Op) returns (ok: bool)
    requires tablet.Valid() && config == Config(tablet.types, tablet.maxRows, tablet.isAligned)
    modifies tablet, tablet.Buffers()
    ensures ok <==> old(Apply(config, tablet.Contents(), op)).Some?
    ensures ok ==> tablet.Valid() && fresh(tablet.Buffers() - old(tablet.Buffers()))
    ensures ok ==> old(Apply(config, tablet.Contents(), op)) == Some(tablet.Contents())
  {
    hide RowAdded, BulkAdded, Blank, Flags, RowVerdict, BulkVerdict, TypedRow, TypedColumns;
    match op
    case OneRow(row) =>
      var r := tablet.AddRow(row.timestamp, row.cells);
      ok := r.Success?;
    case ManyRows(timestamps, columns) =>
      var r := tablet.AddRowsBulk(timestamps, columns);
      ok := r.Success?;
    case Clear =>
      tablet.Clear();
      ok := true;
  }

  lemma {:induction false} RunStops(config: Config, ops: seq<Op>, n: nat)
    requires n <= |ops| && ApplyAll(config, ops[..n]).None?
    ensures ApplyAll(config, ops).None?
    decreases |ops|
  {
    if n < |ops| {
      assert ops[..|ops| - 1][..n] == ops[..n];
      RunStops(config, ops[..|ops| - 1], n);
    } else {
      assert ops[..n] == ops;
    }
  }

  /** Aligned tablets filled row by row have strictly increasing time stamps. */
  lemma {:induction false} AlignedIncreasing(config: Config, ops: seq<Op>)
    requires config.isAligned && ApplyAll(config, ops).Some?
    requires forall i :: 0 <= i < |ops| ==> !ops[i].ManyRows?
    ensures Increasing(ApplyAll(config, ops).value.timestamps)
    decreases |ops|
  {
    if |ops| > 0 {
      AlignedIncreasing(config, ops[..|ops| - 1]);
    }
  }

  // ----- Bulk against row by row -----

  /** Whether rows are accepted one by one. */
  ghost predicate AllAccepted(config: Config, s: Sheet, rows: seq<Row>)
    requires WellFormed(s, config.maxRows)
    decreases |rows|
  {
    |rows| == 0 ||
    (&& RowVerdict(s, config.maxRows, config.isAligned, rows[0]).Success?
     && AllAccepted(config, RowAdded(s, config.maxRows, rows[0]), rows[1..]))
  }

  function Stamps(rows: seq<Row>): (r: seq<i64>)
    ensures |r| == |rows|
  {
    seq(|rows|, i requires 0 <= i < |rows| => rows[i].timestamp)
  }

  /** Room, types and, in an aligned tablet, order decide. */
  lemma {:induction false} AcceptedRows(config: Config, s: Sheet, rows: seq<Row>)
    requires WellFormed(s, config.maxRows) && (config.isAligned ==> Increasing(s.timestamps))
    ensures AllAccepted(config, s, rows) <==>
      && CanAddRows(s, config.maxRows, rows)
      && (config.isAligned ==> Increasing(s.timestamps + Stamps(rows)))
    decreases |rows|
  {
    hide RowAdded;
    if |rows| == 0 {
      assert s.timestamps + Stamps(rows) == s.timestamps;
    } else {
      if CanAddRows(s, config.maxRows, rows)
         && (config.isAligned ==> Increasing(s.timestamps + Stamps(rows))) {
        FirstRow(config, s, rows);
      }
      if RowVerdict(s, config.maxRows, config.isAligned, rows[0]).Success? {
        RowAddedStamps(s, config.maxRows, rows[0]);
        var next := RowAdded(s, config.maxRows, rows[0]);
        assert rows == [rows[0]] + rows[1..];
        assert next.timestamps + Stamps(rows[1..]) == s.timestamps + Stamps(rows);
        AcceptedRows(config, next, rows[1..]);
        SameAnswers(s, config.maxRows, rows);
      }
    }
  }

  lemma RowAddedStamps(s: Sheet, maxRows: nat, row: Row)
    requires WellFormed(s, maxRows) && |s.timestamps| < maxRows && AcceptsRow(s, row)
    ensures RowAdded(s, maxRows, row).timestamps == s.timestamps + [row.timestamp]
  {
  }

  /** Adding a row changes neither types nor number of columns. */
  lemma SameAnswers(s: Sheet, maxRows: nat, rows: seq<Row>)
    requires |rows| > 0 && WellFormed(s, maxRows) && |s.timestamps| < maxRows && AcceptsRow(s, rows[0])
    ensures CanAddRows(RowAdded(s, maxRows, rows[0]), maxRows, rows[1..]) <==> CanAddRows(s, maxRows, rows)
  {
    var next := RowAdded(s, maxRows, rows[0]);
    forall row: Row
      ensures AcceptsRow(next, row) <==> AcceptsRow(s, row)
    {
      assert forall c :: 0 <= c < |s.columns| ==> s.columns[c].SameKind(next.columns[c]);
    }
    assert forall i :: 1 <= i < |rows| ==> rows[1..][i - 1] == rows[i];
  }

  lemma FirstRow(config: Config, s: Sheet, rows: seq<Row>)
    requires |rows| > 0 && WellFormed(s, config.maxRows)
    requires CanAddRows(s, config.maxRows, rows)
    requires config.isAligned ==> Increasing(s.timestamps + Stamps(rows))
    ensures RowVerdict(s, config.maxRows, config.isAligned, rows[0]).Success?
  {
    var all := s.timestamps + Stamps(rows);
    if config.isAligned && s.timestamps != [] {
      assert all[|s.timestamps| - 1] < all[|s.timestamps|];
    }
  }

  /**
    Bulk insertion does what the rows one by one do: always in a tablet that is not aligned,
    and in an aligned one exactly when the time stamps increase, which bulk does not check.
   */
  lemma BulkAgainstRows(config: Config, s: Sheet, timestamps: seq<i64>, columns: seq<seq<Cell>>)
    requires WellFormed(s, config.maxRows) && (config.isAligned ==> Increasing(s.timestamps))
    requires timestamps != [] && Rectangular(timestamps, columns) && |columns| == |s.columns|
    ensures var rows := Transposed(timestamps, columns);
            AllAccepted(config, s, rows) <==>
              && BulkVerdict(s, config.maxRows, |timestamps|, columns).Success?
              && (config.isAligned ==> Increasing(s.timestamps + timestamps))
    ensures BulkVerdict(s, config.maxRows, |timestamps|, columns).Success? ==>
      && CanAddRows(s, config.maxRows, Transposed(timestamps, columns))
      && BulkAdded(s, config.maxRows, timestamps, columns)
         == RowsAdded(s, config.maxRows, Transposed(timestamps, columns))
  {
    hide RowsAdded, BulkAdded, AllAccepted;
    var rows := Transposed(timestamps, columns);
    AcceptedRows(config, s, rows);
    assert Stamps(rows) == timestamps;
    TransposedAccepts(config, s, timestamps, columns);
    if BulkVerdict(s, config.maxRows, |timestamps|, columns).Success? {
      BulkIsRows(s, config.maxRows, timestamps, columns);
    }
  }

  lemma TransposedAccepts(config: Config, s: Sheet, timestamps: seq<i64>, columns: seq<seq<Cell>>)
    requires WellFormed(s, config.maxRows)
    requires timestamps != [] && Rectangular(timestamps, columns) && |columns| == |s.columns|
    ensures CanAddRows(s, config.maxRows, Transposed(timestamps, columns))
       <==> BulkVerdict(s, config.maxRows, |timestamps|, columns).Success?
  {
    var rows := Transposed(timestamps, columns);
    if forall r :: 0 <= r < |rows| ==> AcceptsRow(s, rows[r]) {
      forall c, r | 0 <= c < |columns| && 0 <= r < |timestamps|
        ensures s.columns[c].Accepts(columns[c][r])
      {
        assert AcceptsRow(s, rows[r]) && rows[r].cells[c] == columns[c][r];
      }
    }
  }
}
