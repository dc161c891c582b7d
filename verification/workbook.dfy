/**
 * The result workbooks as the batch handles them: an in-memory sheet that the column
 * lookup and the cell writes update in place, and the object store holding one workbook
 * per key, replaced as a whole on each upload.
 */
module Workbook {
  import opened Wrappers
  import opened MatrixSpec

  /** The active sheet of an open workbook. */
  class Sheet {
    var cells: Cells
    var maxCol: nat

    /** The sheet as a value. */
    function Snapshot(): Grid
      reads this
    {
      Grid(cells, maxCol)
    }

    ghost predicate Valid()
      reads this
    {
      Wf(Snapshot())
    }

    /** `_init_workbook`: "Year" in A1, an empty A2 and one label per year from row 3 on. */
    constructor Fresh()
      ensures Valid() && Snapshot() == FreshGrid()
    {
      var m: Cells := map[(1, 1) := Text("Year"), (2, 1) := Text("")];
      LabelsBelowStart();
      var row := FirstYearRow;
      var year := YearsStart;
      while year <= YearsEnd
        invariant FirstYearRow <= row <= LastYearRow + 1 && year == YearOfRow(row)
        invariant m == LabelsBelow(row)
      {
        LabelsBelowStep(row);
        m := m[(row, 1) := Int(year)];
        row := row + 1;
        year := year + 1;
      }
      assert m == FreshGrid().cells;
      cells := m;
      maxCol := 1;
      FreshGridSpec();
    }

    /** `load_workbook`: the sheet of a stored workbook. */
    constructor Load(g: Grid)
      requires Wf(g)
      ensures Valid() && Snapshot() == g
    {
      cells := g.cells;
      maxCol := g.maxCol;
    }

    /**
     * `_col_for_pair`: scans columns 2..`max_column` for stripped headers equal to
     * (climate, aging) and returns the first match; otherwise writes the pair into the
     * headers of a new column after the last and returns it. A header that cannot be
     * stripped raises before anything is written.
     */
    method ColForPair(climate: string, aging: string) returns (r: Result<nat>)
      requires Valid()
      modifies this
      ensures Valid()
      ensures r.Ok? <==> ColumnFor(old(Snapshot()), climate, aging).Ok?
      ensures r.Ok? ==> (Snapshot(), r.value) == ColumnFor(old(Snapshot()), climate, aging).value
      ensures r.Err? ==> r == Err(ColumnFor(old(Snapshot()), climate, aging).msg) && Snapshot() == old(Snapshot())
    {
      var g := Snapshot();
      var col := 2;
      while col <= maxCol
        invariant 2 <= col <= maxCol + 1 && g == Snapshot()
        invariant FindColumn(g, climate, aging) == FindIn(Headers(g), maxCol, climate, aging, col)
      {
        var h := HeaderOf(g, col);
        assert h == Headers(g)(col);
        if !Readable(h) {
          return Err("header cell has no attribute 'strip'");
        }
        if h == (Some(climate), Some(aging)) {
          return Ok(col);
        }
        col := col + 1;
      }
      assert FindColumn(g, climate, aging) == Missing;
      col := if maxCol >= 2 then maxCol + 1 else 2;
      cells := cells[(1, col) := Text(climate)];
      if col > maxCol {
        maxCol := col;
      }
      cells := cells[(2, col) := Text(aging)];
      assert Snapshot() == WithHeaders(g, NewColumn(g), climate, aging);
      ColumnForWf(g, climate, aging);
      return Ok(col);
    }

    /** `ws.cell(row=row, column=col, value=v)`. */
    method Put(row: nat, col: nat, v: Cell)
      requires Valid() && row >= 1 && col >= 1
      modifies this
      ensures Valid() && Snapshot() == SetCell(old(Snapshot()), row, col, v)
    {
      SetCellWf(Snapshot(), row, col, v);
      cells := cells[(row, col) := v];
      if col > maxCol {
        maxCol := col;
      }
    }
  }

  /** The result workbooks in the bucket, by object key. */
  class ResultStore {
    var workbooks: map<string, Grid>

    ghost predicate Valid()
      reads this
    {
      StoreWf(workbooks)
    }

    constructor (initial: map<string, Grid>)
      requires StoreWf(initial)
      ensures Valid() && workbooks == initial
    {
      workbooks := initial;
    }

    /**
     * `write_result_to_s3`: no value writes nothing; otherwise the workbook is downloaded
     * (or created), the column resolved, the year's row computed, the cell set and the whole
     * workbook uploaded. An error on the way leaves the stored workbooks as they were.
     */
    method WriteResult(key: string, climate: string, aging: string, year: int, value: Option<real>)
      returns (r: Result<()>)
      requires Valid()
      modifies this
      ensures Valid()
      ensures r.Ok? <==> PutMetric(old(workbooks), key, climate, aging, year, value).Ok?
      ensures r.Ok? ==> workbooks == PutMetric(old(workbooks), key, climate, aging, year, value).value
      ensures r.Err? ==> workbooks == old(workbooks)
    {
      if value.None? {
        return Ok(());
      }
      var ws: Sheet;
      if key in workbooks {
        ws := new Sheet.Load(workbooks[key]);
      } else {
        ws := new Sheet.Fresh();
      }
      assert ws.Snapshot() == WorkbookOrFresh(workbooks, key);
      var col := ws.ColForPair(climate, aging);
      if col.Err? {
        return Err(col.msg);
      }
      var row := RowForYear(year);
      if row.Err? {
        return Err(row.msg);
      }
      ws.Put(row.value, col.value, Num(value.value));
      PutMetricWf(workbooks, key, climate, aging, year, value);
      workbooks := workbooks[key := ws.Snapshot()];
      return Ok(());
    }
  }
}
