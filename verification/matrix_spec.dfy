/**
 * The result matrices as values. A workbook is modelled by its active sheet: a grid of
 * cells keyed by (row, column), both 1-based, together with the sheet's `max_column`.
 * Row 1 holds the climate scenario and row 2 the aging code of each result column (from
 * column 2 on); column 1 holds the year labels from row 3 on.
 */
module MatrixSpec {
  import opened Wrappers
  import opened Text

  const YearsStart := 2025
  const YearsEnd := 2084
  const FirstYearRow := 3
  const LastYearRow := FirstYearRow + (YearsEnd - YearsStart)
  const TotalKey := "results_total_site_energy.xlsx"
  const PerAreaKey := "results_site_energy_per_area.xlsx"

  /** A cell value as read back from a workbook; an absent key is an empty cell. */
  datatype Cell = Text(s: string) | Int(i: int) | Num(r: real) | Bool(b: bool)

  type Cells = map<(nat, nat), Cell>

  datatype Grid = Grid(cells: Cells, maxCol: nat)

  /**
   * `max_column` is the largest column holding a cell, or 1 for a sheet whose cells all sit
   * in column 1 or that has none.
   */
  ghost predicate Wf(g: Grid) {
    g.maxCol >= 1
    && (forall p :: p in g.cells ==> 1 <= p.0 && 1 <= p.1 <= g.maxCol)
    && (g.maxCol > 1 ==> exists p :: p in g.cells && p.1 == g.maxCol)
  }

  function Lookup(g: Grid, row: nat, col: nat): Option<Cell> {
    if (row, col) in g.cells then Some(g.cells[(row, col)]) else None
  }

  /** `ws.cell(row=row, column=col, value=v)`. */
  function SetCell(g: Grid, row: nat, col: nat, v: Cell): Grid {
    Grid(g.cells[(row, col) := v], if col > g.maxCol then col else g.maxCol)
  }

  lemma SetCellWf(g: Grid, row: nat, col: nat, v: Cell)
    requires Wf(g) && row >= 1 && col >= 1
    ensures Wf(SetCell(g, row, col, v))
  {
    assert (row, col) in SetCell(g, row, col, v).cells;
  }

  // ----- Years and rows -----

  /** The year label `_init_workbook` puts in column 1 of a year row. */
  function YearOfRow(row: nat): int {
    YearsStart + (row - FirstYearRow)
  }

  /** `_row_for_year`: a year outside 2025..2084 raises ValueError. */
  function RowForYear(year: int): (r: Result<nat>)
    ensures r.Ok? <==> YearsStart <= year <= YearsEnd
    ensures r.Ok? ==> FirstYearRow <= r.value <= LastYearRow && YearOfRow(r.value) == year
  {
    if year < YearsStart || year > YearsEnd then Err("Year " + IntToString(year) + " outside [2025, 2084]")
    else Ok(FirstYearRow + (year - YearsStart))
  }

  /** Every year row 3..62 is the row of its label, so rows and years correspond one to one. */
  lemma RowForYearOnto(row: nat)
    requires FirstYearRow <= row <= LastYearRow
    ensures RowForYear(YearOfRow(row)) == Ok(row)
  {
  }

  /** The label `_init_workbook` writes in row `row` of column 1. */
  function InitialLabel(row: nat): Cell {
    if row == 1 then Text("Year") else if row == 2 then Text("") else Int(YearOfRow(row))
  }

  /** Column 1 of a fresh sheet, rows 1 up to (not including) `n`. */
  function LabelsBelow(n: nat): Cells {
    map r: nat | 1 <= r < n :: (r, 1) := InitialLabel(r)
  }

  /** The two header labels of column 1. */
  lemma LabelsBelowStart()
    ensures LabelsBelow(FirstYearRow) == map[(1, 1) := Text("Year"), (2, 1) := Text("")]
  {
  }

  /** One more label row. */
  lemma LabelsBelowStep(n: nat)
    requires n >= 1
    ensures LabelsBelow(n + 1) == LabelsBelow(n)[(n, 1) := InitialLabel(n)]
  {
  }

  /** `_init_workbook`: column 1 labelled, nothing else. */
  function FreshGrid(): Grid {
    Grid(LabelsBelow(LastYearRow + 1), 1)
  }

  /** A fresh sheet: "Year" in A1, an empty A2, each year from 2025 to 2084 in its row, and nothing else. */
  lemma FreshGridSpec()
    ensures var g := FreshGrid();
      && Wf(g)
      && Lookup(g, 1, 1) == Some(Text("Year")) && Lookup(g, 2, 1) == Some(Text(""))
      && (forall y :: YearsStart <= y <= YearsEnd ==> Lookup(g, RowForYear(y).value, 1) == Some(Int(y)))
      && (forall p :: p in g.cells ==> p.1 == 1 && p.0 <= LastYearRow)
  {
  }

  // ----- Column resolution -----

  /**
   * `(cell.value or "").strip()`: an empty cell and a false-like value read as "", text
   * is stripped, and any other value has no `strip` (AttributeError), modelled as None.
   */
  function HeaderLabel(c: Option<Cell>): Option<string> {
    match c
    case None => Some("")
    case Some(Text(s)) => Some(Strip(s))
    case Some(Int(i)) => if i == 0 then Some("") else None
    case Some(Num(x)) => if x == 0.0 then Some("") else None
    case Some(Bool(b)) => if !b then Some("") else None
  }

  /** The labels of rows 1 and 2 of a column, each None where reading it raises. */
  type HeaderPair = (Option<string>, Option<string>)

  function HeaderOf(g: Grid, col: nat): HeaderPair {
    (HeaderLabel(Lookup(g, 1, col)), HeaderLabel(Lookup(g, 2, col)))
  }

  function Headers(g: Grid): nat -> HeaderPair {
    (col: nat) => HeaderOf(g, col)
  }

  predicate Readable(h: HeaderPair) {
    h.0.Some? && h.1.Some?
  }

  datatype Search = Found(col: nat) | Missing | Unreadable(col: nat)

  /** The header scan of `_col_for_pair` over columns `col`..`last`. */
  function FindIn(headers: nat -> HeaderPair, last: nat, climate: string, aging: string, col: nat): (r: Search)
    ensures r.Found? ==> col <= r.col <= last && headers(r.col) == (Some(climate), Some(aging))
    ensures r.Unreadable? ==> col <= r.col <= last && !Readable(headers(r.col))
    ensures forall c :: col <= c <= last && (r.Missing? || c < r.col) ==>
      Readable(headers(c)) && headers(c) != (Some(climate), Some(aging))
    decreases last + 1 - col
  {
    if col > last then Missing
    else if !Readable(headers(col)) then Unreadable(col)
    else if headers(col) == (Some(climate), Some(aging)) then Found(col)
    else FindIn(headers, last, climate, aging, col + 1)
  }

  /** The header scan over columns 2..`max_column` of a sheet. */
  function FindColumn(g: Grid, climate: string, aging: string): Search {
    FindIn(Headers(g), g.maxCol, climate, aging, 2)
  }

  /** The scan depends only on the headers of the columns it visits. */
  lemma {:induction false} FindInFrame(h1: nat -> HeaderPair, last1: nat, h2: nat -> HeaderPair, last2: nat,
                                       climate: string, aging: string, col: nat)
    requires col <= last1 + 1 && last1 <= last2
    requires forall c :: col <= c <= last1 ==> h1(c) == h2(c)
    ensures FindIn(h1, last1, climate, aging, col).Missing? ==>
      FindIn(h2, last2, climate, aging, col) == FindIn(h2, last2, climate, aging, last1 + 1)
    ensures !FindIn(h1, last1, climate, aging, col).Missing? ==>
      FindIn(h2, last2, climate, aging, col) == FindIn(h1, last1, climate, aging, col)
    decreases last1 + 1 - col
  {
    if col <= last1 && Readable(h1(col)) && h1(col) != (Some(climate), Some(aging)) {
      FindInFrame(h1, last1, h2, last2, climate, aging, col + 1);
    }
  }

  /** Two sheets whose rows 1 and 2 agree on the columns 2..`max_column` of the first. */
  ghost predicate SameHeaders(g: Grid, g': Grid) {
    1 <= g.maxCol <= g'.maxCol
    && forall c :: 2 <= c <= g.maxCol ==> Lookup(g, 1, c) == Lookup(g', 1, c) && Lookup(g, 2, c) == Lookup(g', 2, c)
  }

  lemma FindColumnFrame(g: Grid, g': Grid, climate: string, aging: string)
    requires SameHeaders(g, g')
    ensures FindColumn(g, climate, aging).Missing? ==>
      FindColumn(g', climate, aging) == FindIn(Headers(g'), g'.maxCol, climate, aging, g.maxCol + 1)
    ensures !FindColumn(g, climate, aging).Missing? ==> FindColumn(g', climate, aging) == FindColumn(g, climate, aging)
  {
    forall c | 2 <= c <= g.maxCol ensures Headers(g)(c) == Headers(g')(c) {
    }
    FindInFrame(Headers(g), g.maxCol, Headers(g'), g'.maxCol, climate, aging, 2);
  }

  /** The column `_col_for_pair` appends: `max_col + 1`, or 2 on a sheet with max_column 1. */
  function NewColumn(g: Grid): nat {
    if g.maxCol >= 2 then g.maxCol + 1 else 2
  }

  /** The grid with the two header cells of a new column `col`. */
  function WithHeaders(g: Grid, col: nat, climate: string, aging: string): Grid {
    SetCell(SetCell(g, 1, col, Text(climate)), 2, col, Text(aging))
  }

  /**
   * `_col_for_pair`: the first column from 2 on whose stripped headers are (climate, aging),
   * else a new column carrying them; a header cell that is neither text nor false-like raises.
   */
  function ColumnFor(g: Grid, climate: string, aging: string): (r: Result<(Grid, nat)>)
    ensures r.Ok? ==> r.value.1 >= 2
  {
    match FindColumn(g, climate, aging)
    case Found(c) => Ok((g, c))
    case Unreadable(_) => Err("header cell has no attribute 'strip'")
    case Missing => Ok((WithHeaders(g, NewColumn(g), climate, aging), NewColumn(g)))
  }

  /** On a well-formed sheet, the sheet `_col_for_pair` leaves is well-formed. */
  lemma ColumnForWf(g: Grid, climate: string, aging: string)
    requires Wf(g) && ColumnFor(g, climate, aging).Ok?
    ensures Wf(ColumnFor(g, climate, aging).value.0)
  {
    if FindColumn(g, climate, aging).Missing? {
      var n := g.maxCol + 1;
      SetCellWf(g, 1, n, Text(climate));
      SetCellWf(SetCell(g, 1, n, Text(climate)), 2, n, Text(aging));
    }
  }

  /**
   * On a well-formed sheet the column found is the first whose stripped headers match, else
   * exactly one column is appended, right after the last one, and the sheet stays
   * well-formed. The error is raised at the first unreadable header met before a match.
   */
  lemma ColumnForSpec(g: Grid, climate: string, aging: string)
    requires Wf(g)
    ensures var r := ColumnFor(g, climate, aging);
      && (r.Err? ==>
            exists c :: 2 <= c <= g.maxCol && !Readable(HeaderOf(g, c))
              && forall c' :: 2 <= c' < c ==> HeaderOf(g, c') != (Some(climate), Some(aging)))
      && (r.Ok? ==> Wf(r.value.0))
      && (r.Ok? ==> forall c :: 2 <= c < r.value.1 && c <= g.maxCol ==>
            Readable(HeaderOf(g, c)) && HeaderOf(g, c) != (Some(climate), Some(aging)))
      && (r.Ok? && r.value.1 <= g.maxCol ==> r.value.0 == g && HeaderOf(g, r.value.1) == (Some(climate), Some(aging)))
      && (r.Ok? && r.value.1 > g.maxCol ==>
            r.value.1 == g.maxCol + 1 && r.value.0.maxCol == r.value.1
            && r.value.0.cells == g.cells[(1, r.value.1) := Text(climate)][(2, r.value.1) := Text(aging)])
  {
    var f := FindColumn(g, climate, aging);
    if f.Unreadable? {
      assert Headers(g)(f.col) == HeaderOf(g, f.col);
      forall c' | 2 <= c' < f.col ensures HeaderOf(g, c') != (Some(climate), Some(aging)) {
        assert Headers(g)(c') == HeaderOf(g, c');
      }
    } else if f.Found? {
      assert Headers(g)(f.col) == HeaderOf(g, f.col);
    } else {
      ColumnForWf(g, climate, aging);
    }
    if f.Found? || f.Missing? {
      forall c | 2 <= c < ColumnFor(g, climate, aging).value.1 && c <= g.maxCol
        ensures Readable(HeaderOf(g, c)) && HeaderOf(g, c) != (Some(climate), Some(aging))
      {
        assert Headers(g)(c) == HeaderOf(g, c);
      }
    }
  }

  /** A value is stripped when `strip()` leaves it as it is; the batch passes only such values. */
  predicate Stripped(s: string) {
    Strip(s) == s
  }

  /** Adding the headers of a new column after the last keeps the headers of the others. */
  lemma WithHeadersKeeps(g: Grid, climate: string, aging: string)
    requires g.maxCol >= 1
    ensures var g' := WithHeaders(g, g.maxCol + 1, climate, aging);
      SameHeaders(g, g') && g'.maxCol == g.maxCol + 1
      && HeaderOf(g', g.maxCol + 1) == (Some(Strip(climate)), Some(Strip(aging)))
  {
    var n := g.maxCol + 1;
    var g' := WithHeaders(g, n, climate, aging);
    assert g'.cells == g.cells[(1, n) := Text(climate)][(2, n) := Text(aging)];
    assert Lookup(g', 1, n) == Some(Text(climate)) && Lookup(g', 2, n) == Some(Text(aging));
  }

  /** On the sheet with a new column after the last, the header scan finds that column. */
  lemma AppendedColumnFound(g: Grid, climate: string, aging: string)
    requires g.maxCol >= 1 && Stripped(climate) && Stripped(aging) && FindColumn(g, climate, aging).Missing?
    ensures FindColumn(WithHeaders(g, g.maxCol + 1, climate, aging), climate, aging) == Found(g.maxCol + 1)
  {
    var g' := WithHeaders(g, g.maxCol + 1, climate, aging);
    WithHeadersKeeps(g, climate, aging);
    FindColumnFrame(g, g', climate, aging);
    assert Headers(g')(g.maxCol + 1) == (Some(climate), Some(aging));
  }

  /** Resolving the same stripped pair again returns the same column and changes nothing. */
  lemma ColumnForIdempotent(g: Grid, climate: string, aging: string)
    requires Wf(g) && Stripped(climate) && Stripped(aging) && ColumnFor(g, climate, aging).Ok?
    ensures ColumnFor(ColumnFor(g, climate, aging).value.0, climate, aging) == ColumnFor(g, climate, aging)
  {
    var f := FindColumn(g, climate, aging);
    if f.Missing? {
      var g1 := WithHeaders(g, g.maxCol + 1, climate, aging);
      assert ColumnFor(g, climate, aging) == Ok((g1, g.maxCol + 1));
      AppendedColumnFound(g, climate, aging);
      assert ColumnFor(g1, climate, aging) == Ok((g1, g.maxCol + 1));
    } else {
      assert ColumnFor(g, climate, aging) == Ok((g, f.col));
    }
  }

  // ----- Writing a result -----

  /** The cell holding the result for (climate, aging, year), as a reader of the sheet finds it. */
  function ReadMetric(g: Grid, climate: string, aging: string, year: int): Option<Cell> {
    match FindColumn(g, climate, aging)
    case Found(c) => if RowForYear(year).Ok? then Lookup(g, RowForYear(year).value, c) else None
    case _ => None
  }

  /** The sheet after writing `v` for (climate, aging, year): the resolved column's year cell overwritten. */
  function Written(g: Grid, climate: string, aging: string, year: int, v: real): Grid
    requires ColumnFor(g, climate, aging).Ok? && YearsStart <= year <= YearsEnd
  {
    var (g1, col) := ColumnFor(g, climate, aging).value;
    SetCell(g1, RowForYear(year).value, col, Num(v))
  }

  /** Overwriting a year row leaves the header scan's answer as it was. */
  lemma WriteKeepsColumn(g: Grid, climate: string, aging: string, row: nat, col: nat, x: Cell)
    requires row >= FirstYearRow && g.maxCol >= 1 && FindColumn(g, climate, aging).Found?
    ensures FindColumn(SetCell(g, row, col, x), climate, aging) == FindColumn(g, climate, aging)
  {
    SetCellKeepsHeaders(g, row, col, x);
    FindColumnFrame(g, SetCell(g, row, col, x), climate, aging);
  }

  /** Within one sheet: writing a value and reading the same (climate, aging, year) gives it back. */
  lemma WriteThenRead(g: Grid, climate: string, aging: string, year: int, v: real)
    requires Wf(g) && Stripped(climate) && Stripped(aging)
    requires ColumnFor(g, climate, aging).Ok? && YearsStart <= year <= YearsEnd
    ensures ReadMetric(Written(g, climate, aging, year, v), climate, aging, year) == Some(Num(v))
  {
    var (g1, col) := ColumnFor(g, climate, aging).value;
    ColumnForIdempotent(g, climate, aging);
    assert FindColumn(g1, climate, aging) == Found(col);
    WriteKeepsColumn(g1, climate, aging, RowForYear(year).value, col, Num(v));
  }

  /** Resolving the column of a pair does not change what any year of that pair reads. */
  lemma ColumnForKeepsReads(g: Grid, climate: string, aging: string, y: int)
    requires Wf(g) && Stripped(climate) && Stripped(aging) && ColumnFor(g, climate, aging).Ok?
    ensures ReadMetric(ColumnFor(g, climate, aging).value.0, climate, aging, y) == ReadMetric(g, climate, aging, y)
  {
    var (g1, col) := ColumnFor(g, climate, aging).value;
    ColumnForIdempotent(g, climate, aging);
    assert FindColumn(g1, climate, aging) == Found(col);
    if FindColumn(g, climate, aging).Missing? && RowForYear(y).Ok? {
      assert (RowForYear(y).value, col) !in g.cells;
    }
  }

  /** Overwriting one year row of a found column leaves the other years' readings alone. */
  lemma SetCellKeepsOtherReads(g: Grid, climate: string, aging: string, row: nat, col: nat, x: Cell, y: int)
    requires row >= FirstYearRow && g.maxCol >= 1 && FindColumn(g, climate, aging) == Found(col)
    requires RowForYear(y).Ok? ==> RowForYear(y).value != row
    ensures ReadMetric(SetCell(g, row, col, x), climate, aging, y) == ReadMetric(g, climate, aging, y)
  {
    WriteKeepsColumn(g, climate, aging, row, col, x);
  }

  /** Reading the same pair for another year sees the cell it saw before the write. */
  lemma WriteKeepsOtherYears(g: Grid, climate: string, aging: string, year: int, v: real, y2: int)
    requires Wf(g) && Stripped(climate) && Stripped(aging)
    requires ColumnFor(g, climate, aging).Ok? && YearsStart <= year <= YearsEnd && y2 != year
    ensures ReadMetric(Written(g, climate, aging, year, v), climate, aging, y2) == ReadMetric(g, climate, aging, y2)
  {
    var (g1, col) := ColumnFor(g, climate, aging).value;
    var row := RowForYear(year).value;
    ColumnForIdempotent(g, climate, aging);
    assert FindColumn(g1, climate, aging) == Found(col);
    ColumnForWf(g, climate, aging);
    SetCellKeepsOtherReads(g1, climate, aging, row, col, Num(v), y2);
    ColumnForKeepsReads(g, climate, aging, y2);
  }

  /** Writing below the two header rows keeps every header. */
  lemma SetCellKeepsHeaders(g: Grid, row: nat, col: nat, x: Cell)
    requires row >= FirstYearRow && g.maxCol >= 1
    ensures SameHeaders(g, SetCell(g, row, col, x))
  {
  }

  /** A sheet with one more column, whose headers are not (c2, a2), answers the scan for (c2, a2) alike. */
  lemma NewLastColumnKeepsSearch(g: Grid, g1: Grid, c2: string, a2: string)
    requires SameHeaders(g, g1) && g1.maxCol == g.maxCol + 1
    requires Readable(HeaderOf(g1, g1.maxCol)) && HeaderOf(g1, g1.maxCol) != (Some(c2), Some(a2))
    ensures FindColumn(g1, c2, a2) == FindColumn(g, c2, a2)
  {
    FindColumnFrame(g, g1, c2, a2);
    assert Headers(g1)(g1.maxCol) == HeaderOf(g1, g1.maxCol);
    assert FindIn(Headers(g1), g1.maxCol, c2, a2, g1.maxCol + 1) == Missing;
  }

  /** After a new column is added for one pair, the scan for another pair ends as before. */
  lemma AppendKeepsOtherSearch(g: Grid, climate: string, aging: string, c2: string, a2: string)
    requires g.maxCol >= 1 && (c2, a2) != (Strip(climate), Strip(aging))
    ensures FindColumn(WithHeaders(g, g.maxCol + 1, climate, aging), c2, a2) == FindColumn(g, c2, a2)
  {
    WithHeadersKeeps(g, climate, aging);
    NewLastColumnKeepsSearch(g, WithHeaders(g, g.maxCol + 1, climate, aging), c2, a2);
  }

  /** Writing below the header rows, inside the existing columns, keeps the scan's answer. */
  lemma SetCellKeepsSearch(g: Grid, row: nat, col: nat, x: Cell, c2: string, a2: string)
    requires row >= FirstYearRow && 1 <= col <= g.maxCol
    ensures FindColumn(SetCell(g, row, col, x), c2, a2) == FindColumn(g, c2, a2)
  {
    SetCellKeepsHeaders(g, row, col, x);
    FindColumnFrame(g, SetCell(g, row, col, x), c2, a2);
  }

  /** Cells of the columns already present are untouched by a new column's headers and year cell. */
  lemma AppendKeepsOldCells(g: Grid, climate: string, aging: string, row: nat, v: real, r: nat, c: nat)
    requires c <= g.maxCol
    ensures var g2 := SetCell(WithHeaders(g, g.maxCol + 1, climate, aging), row, g.maxCol + 1, Num(v));
      Lookup(g2, r, c) == Lookup(g, r, c)
  {
  }

  /** Another pair read on a sheet that gained a new column: its headers are not that pair's. */
  lemma AppendKeepsOtherPairs(g: Grid, climate: string, aging: string, row: nat, v: real, c2: string, a2: string, y2: int)
    requires g.maxCol >= 1 && row >= FirstYearRow
    requires (c2, a2) != (Strip(climate), Strip(aging))
    ensures var g2 := SetCell(WithHeaders(g, g.maxCol + 1, climate, aging), row, g.maxCol + 1, Num(v));
      ReadMetric(g2, c2, a2, y2) == ReadMetric(g, c2, a2, y2)
  {
    var n := g.maxCol + 1;
    var g1 := WithHeaders(g, n, climate, aging);
    var g2 := SetCell(g1, row, n, Num(v));
    AppendKeepsOtherSearch(g, climate, aging, c2, a2);
    SetCellKeepsSearch(g1, row, n, Num(v), c2, a2);
    var f := FindColumn(g, c2, a2);
    assert FindColumn(g2, c2, a2) == f;
    if f.Found? && RowForYear(y2).Ok? {
      AppendKeepsOldCells(g, climate, aging, row, v, RowForYear(y2).value, f.col);
    }
  }

  /** Another pair read on a sheet where the pair's column already existed: a different column. */
  lemma OverwriteKeepsOtherPairs(g: Grid, climate: string, aging: string, row: nat, v: real, c2: string, a2: string, y2: int)
    requires Wf(g) && FindColumn(g, climate, aging).Found? && row >= FirstYearRow
    requires (c2, a2) != (climate, aging)
    ensures ReadMetric(SetCell(g, row, FindColumn(g, climate, aging).col, Num(v)), c2, a2, y2) == ReadMetric(g, c2, a2, y2)
  {
    var col := FindColumn(g, climate, aging).col;
    SetCellKeepsSearch(g, row, col, Num(v), c2, a2);
    if FindColumn(g, c2, a2).Found? {
      assert FindColumn(g, c2, a2).col != col;
    }
  }

  /** Reading another pair sees the cell it saw before the write: other columns are untouched. */
  lemma WriteKeepsOtherPairs(g: Grid, climate: string, aging: string, year: int, v: real, c2: string, a2: string, y2: int)
    requires Wf(g) && Stripped(climate) && Stripped(aging)
    requires ColumnFor(g, climate, aging).Ok? && YearsStart <= year <= YearsEnd && (c2, a2) != (climate, aging)
    ensures ReadMetric(Written(g, climate, aging, year, v), c2, a2, y2) == ReadMetric(g, c2, a2, y2)
  {
    if FindColumn(g, climate, aging).Missing? {
      AppendKeepsOtherPairs(g, climate, aging, RowForYear(year).value, v, c2, a2, y2);
    } else {
      OverwriteKeepsOtherPairs(g, climate, aging, RowForYear(year).value, v, c2, a2, y2);
    }
  }

  /** The workbook stored under `key`, or a fresh one when there is none (`_download_workbook_or_create`). */
  function WorkbookOrFresh(store: map<string, Grid>, key: string): Grid {
    if key in store then store[key] else FreshGrid()
  }

  ghost predicate StoreWf(store: map<string, Grid>) {
    forall k :: k in store ==> Wf(store[k])
  }

  lemma WorkbookOrFreshWf(store: map<string, Grid>, key: string)
    requires StoreWf(store)
    ensures Wf(WorkbookOrFresh(store, key))
  {
    FreshGridSpec();
  }

  /**
   * `write_result_to_s3` on the stored workbooks: no value leaves storage alone; otherwise
   * the column is resolved, the row is computed, the cell is overwritten and the whole grid
   * is stored. An error raised on the way stores nothing.
   */
  function PutMetric(store: map<string, Grid>, key: string, climate: string, aging: string, year: int,
                     value: Option<real>): (r: Result<map<string, Grid>>)
    ensures value.None? ==> r == Ok(store)
    ensures r.Err? <==> value.Some? && (ColumnFor(WorkbookOrFresh(store, key), climate, aging).Err?
                                        || !(YearsStart <= year <= YearsEnd))
    ensures r.Ok? && value.Some? ==> r.value.Keys == store.Keys + {key}
    ensures r.Ok? ==> forall k :: k in store && k != key ==> r.value[k] == store[k]
  {
    if value.None? then Ok(store)
    else
      var g := WorkbookOrFresh(store, key);
      match ColumnFor(g, climate, aging)
      case Err(e) => Err(e)
      case Ok((g1, col)) =>
        match RowForYear(year)
        case Err(e) => Err(e)
        case Ok(row) => Ok(store[key := SetCell(g1, row, col, Num(value.value))])
  }

  /** Every stored sheet stays well-formed. */
  lemma PutMetricWf(store: map<string, Grid>, key: string, climate: string, aging: string, year: int, value: Option<real>)
    requires StoreWf(store) && PutMetric(store, key, climate, aging, year, value).Ok?
    ensures StoreWf(PutMetric(store, key, climate, aging, year, value).value)
  {
    if value.Some? {
      var g := WorkbookOrFresh(store, key);
      WorkbookOrFreshWf(store, key);
      ColumnForWf(g, climate, aging);
      var (g1, col) := ColumnFor(g, climate, aging).value;
      SetCellWf(g1, RowForYear(year).value, col, Num(value.value));
      assert PutMetric(store, key, climate, aging, year, value).value == store[key := SetCell(g1, RowForYear(year).value, col, Num(value.value))];
    }
  }

  /** The result stored for (climate, aging, year) in workbook `key`, as a reader finds it. */
  function StoredMetric(store: map<string, Grid>, key: string, climate: string, aging: string, year: int): Option<Cell> {
    ReadMetric(WorkbookOrFresh(store, key), climate, aging, year)
  }

  /** After a write, reading the same (climate, aging, year) finds the value written. */
  lemma PutThenRead(store: map<string, Grid>, key: string, climate: string, aging: string, year: int, v: real)
    requires StoreWf(store) && Stripped(climate) && Stripped(aging)
    requires PutMetric(store, key, climate, aging, year, Some(v)).Ok?
    ensures StoredMetric(PutMetric(store, key, climate, aging, year, Some(v)).value, key, climate, aging, year) == Some(Num(v))
  {
    WorkbookOrFreshWf(store, key);
    WriteThenRead(WorkbookOrFresh(store, key), climate, aging, year, v);
  }

  /**
   * A write changes what a reader finds for exactly one (workbook, climate, aging, year):
   * every other result of that workbook, and every result of every other workbook, reads
   * as before.
   */
  lemma PutKeepsOtherReads(store: map<string, Grid>, key: string, climate: string, aging: string, year: int, v: real,
                           k2: string, c2: string, a2: string, y2: int)
    requires StoreWf(store) && Stripped(climate) && Stripped(aging)
    requires PutMetric(store, key, climate, aging, year, Some(v)).Ok?
    requires k2 != key || (c2, a2, y2) != (climate, aging, year)
    ensures StoredMetric(PutMetric(store, key, climate, aging, year, Some(v)).value, k2, c2, a2, y2)
         == StoredMetric(store, k2, c2, a2, y2)
  {
    var g := WorkbookOrFresh(store, key);
    WorkbookOrFreshWf(store, key);
    assert PutMetric(store, key, climate, aging, year, Some(v)).value == store[key := Written(g, climate, aging, year, v)];
    if k2 == key {
      if (c2, a2) == (climate, aging) {
        WriteKeepsOtherYears(g, climate, aging, year, v, y2);
      } else {
        WriteKeepsOtherPairs(g, climate, aging, year, v, c2, a2, y2);
      }
    }
  }
}
